/** `put` as it works: on dictionaries and lists changed in place, under the tree JSON text is read into, no
    part of it shared. Each step of the path hands what is under it to the next. */
module TreeInPlace {
  import opened TreePath

  /** What a Python object of the tree is, its parts objects themselves. */
  datatype Cell =
    | ScalarCell(n: int)
    | TextCell(s: string)
    | ObjCell(fields: map<string, Node>)
    | ArrCell(rows: seq<Node>)

  class Node {
    var cell: Cell
    ghost var Repr: set<Node>

    /** A node's parts lie within it, apart from it and from one another. */
    ghost predicate Valid()
      reads this, Repr
      decreases Repr
    {
      && this in Repr
      && match cell
         case ScalarCell(_) => true
         case TextCell(_) => true
         case ObjCell(fields) =>
           && (forall k :: k in fields ==>
                 && fields[k] in Repr && fields[k].Repr <= Repr && this !in fields[k].Repr && fields[k].Valid())
           && (forall j, k :: j in fields && k in fields && j != k ==> fields[j].Repr !! fields[k].Repr)
         case ArrCell(rows) =>
           && (forall i :: 0 <= i < |rows| ==>
                 && rows[i] in Repr && rows[i].Repr <= Repr && this !in rows[i].Repr && rows[i].Valid())
           && (forall i, j :: 0 <= i < j < |rows| ==> rows[i].Repr !! rows[j].Repr)
    }

    /** The JSON value a node holds. */
    ghost function Model(): Json
      reads this, Repr
      requires Valid()
      decreases Repr
    {
      match cell
      case ScalarCell(n) => Scalar(n)
      case TextCell(s) => Text(s)
      case ObjCell(fields) => Obj(map k | k in fields :: fields[k].Model())
      case ArrCell(rows) =>
        Arr(seq(|rows|,
                i reads this, Repr requires Valid() && cell == ArrCell(rows) && 0 <= i < |rows| => rows[i].Model()))
    }

    constructor (cell: Cell)
      requires cell.ScalarCell? || cell.TextCell? || cell == ObjCell(map[]) || cell == ArrCell([])
      ensures this.cell == cell && Repr == {this} && Valid()
    {
      this.cell := cell;
      Repr := {this};
    }

    /** What is known of a dictionary's parts, and what makes one. */
    ghost predicate ObjParts(fields: map<string, Node>, models: map<string, Json>)
      reads this, Repr
    {
      && this in Repr && cell == ObjCell(fields) && models.Keys == fields.Keys
      && (forall k :: k in fields ==>
            && fields[k] in Repr && fields[k].Repr <= Repr && this !in fields[k].Repr
            && fields[k].Valid() && fields[k].Model() == models[k])
      && (forall j, k :: j in fields && k in fields && j != k ==> fields[j].Repr !! fields[k].Repr)
    }

    lemma ObjOpened()
      requires Valid() && cell.ObjCell?
      ensures Model().Obj? && ObjParts(cell.fields, Model().fields)
    {
    }

    lemma ObjMade(fields: map<string, Node>, models: map<string, Json>)
      requires ObjParts(fields, models)
      ensures Valid() && Model() == Obj(models)
    {
    }

    ghost predicate ArrParts(rows: seq<Node>, models: seq<Json>)
      reads this, Repr
    {
      && this in Repr && cell == ArrCell(rows) && |models| == |rows|
      && (forall i :: 0 <= i < |rows| ==>
            && rows[i] in Repr && rows[i].Repr <= Repr && this !in rows[i].Repr
            && rows[i].Valid() && rows[i].Model() == models[i])
      && (forall i, j :: 0 <= i < j < |rows| ==> rows[i].Repr !! rows[j].Repr)
    }

    lemma ArrOpened()
      requires Valid() && cell.ArrCell?
      ensures Model().Arr? && ArrParts(cell.rows, Model().rows)
    {
    }

    lemma ArrMade(rows: seq<Node>, models: seq<Json>)
      requires ArrParts(rows, models)
      ensures Valid() && Model() == Arr(models)
    {
    }

    /** `node[name] = part`, of an object not in the tree. */
    method SetField(name: string, part: Node)
      requires Valid() && cell.ObjCell? && part.Valid() && part.Repr !! Repr
      modifies this
      ensures Valid() && Repr == old(Repr) + part.Repr
      ensures cell == ObjCell(old(cell).fields[name := part])
      ensures part.Valid() && part.Repr == old(part.Repr) && part.Model() == old(part.Model())
      ensures Model() == Obj(old(Model()).fields[name := part.Model()])
    {
      ObjOpened();
      hide Valid, Model;
      ghost var fields, models := cell.fields, Model().fields;
      PartInItself(part);
      cell := ObjCell(cell.fields[name := part]);
      Repr := Repr + part.Repr;
      assert forall k :: k in fields ==> fields[k].Valid() && fields[k].Model() == models[k];
      ObjMade(fields[name := part], models[name := part.Model()]);
    }

    static lemma PartInItself(part: Node)
      requires part.Valid()
      ensures part in part.Repr
    {
    }

    /** `rows.append(part)` */
    method Append(part: Node)
      requires Valid() && cell.ArrCell? && part.Valid() && part.Repr !! Repr
      modifies this
      ensures Valid() && Repr == old(Repr) + part.Repr
      ensures cell == ArrCell(old(cell).rows + [part])
      ensures Model() == Arr(old(Model()).rows + [old(part.Model())])
    {
      ArrOpened();
      hide Valid, Model;
      ghost var rows, models := cell.rows, Model().rows;
      PartInItself(part);
      cell := ArrCell(cell.rows + [part]);
      Repr := Repr + part.Repr;
      assert forall i :: 0 <= i < |rows| ==> rows[i].Valid() && rows[i].Model() == models[i];
      ArrMade(rows + [part], models + [part.Model()]);
    }

    /** One part changed, within what it held and what is new: the dictionary grows with it. */
    ghost method FieldChanged(name: string, fields: map<string, Node>, models: map<string, Json>)
      requires this in Repr && cell == ObjCell(fields) && name in fields && models.Keys == fields.Keys
      requires forall k :: k in fields && k != name ==>
                 && fields[k] in Repr && fields[k].Repr <= Repr && this !in fields[k].Repr
                 && fields[k].Valid() && fields[k].Model() == models[k] && fields[k].Repr !! fields[name].Repr
      requires forall j, k :: j in fields && k in fields && j != k && j != name && k != name ==>
                 fields[j].Repr !! fields[k].Repr
      requires fields[name].Valid() && this !in fields[name].Repr
      modifies this`Repr
      ensures Repr == old(Repr) + fields[name].Repr
      ensures Valid() && Model() == Obj(models[name := old(fields[name].Model())])
    {
      hide Valid, Model;
      PartInItself(fields[name]);
      Repr := Repr + fields[name].Repr;
      ObjMade(fields, models[name := fields[name].Model()]);
    }

    /** `put` from the step that starts at the field `name`, its part written. */
    method PutField(name: string, steps: seq<Step>, value: string) returns (done: bool)
      requires Valid() && cell.ObjCell? && name in cell.fields && |steps| > 0
      modifies Repr
      ensures Valid() && fresh(Repr - old(Repr))
      ensures old(Model()).Obj? && name in old(Model()).fields
      ensures var (part, wrote) := Put(old(Model()).fields[name], steps, Text(value));
              done == wrote && Model() == Obj(old(Model()).fields[name := part])
      decreases |steps|, 1
    {
      ObjOpened();
      hide Valid, Model, Put;
      ghost var fields, models := cell.fields, Model().fields;
      var part := cell.fields[name];
      done := part.PutAt(steps, value);
      FieldChanged(name, fields, models);
    }

    /** `put` from the row `number` of this list, its rows padded: past it where steps are left. */
    method PutRow(number: nat, steps: seq<Step>, value: string) returns (done: bool)
      requires Valid() && cell.ArrCell?
      modifies Repr
      ensures Valid() && fresh(Repr - old(Repr))
      ensures old(Model()).Arr? && (Model(), done) == WithRow(old(Model()).rows, number, steps, value)
      decreases |steps|, 2
    {
      ArrOpened();
      hide Valid, Model, Put, PaddedRows;
      ghost var was := Model().rows;
      while |cell.rows| <= number
        invariant Valid() && cell.ArrCell? && fresh(Repr - old(Repr))
        invariant Model().Arr? && |Model().rows| == |cell.rows|
        invariant PaddedRows(Model().rows, number) == PaddedRows(was, number)
      {
        PaddedOne(Model().rows, number);
        var row := new Node(ObjCell(map[]));
        EmptyModel(row);
        Append(row);
      }
      PaddedEnough(Model().rows, number);
      if |steps| == 0 {
        return false;
      }
      done := PutInto(number, steps, value);
    }

    /** `put` past the row `number`, its row written. */
    method PutInto(number: nat, steps: seq<Step>, value: string) returns (done: bool)
      requires Valid() && cell.ArrCell? && number < |cell.rows| && |steps| > 0
      modifies Repr
      ensures Valid() && fresh(Repr - old(Repr))
      ensures old(Model()).Arr? && number < |old(Model()).rows|
      ensures var (row, wrote) := Put(old(Model()).rows[number], steps, Text(value));
              done == wrote && Model() == Arr(old(Model()).rows[number := row])
      decreases |steps|, 1
    {
      ArrOpened();
      hide Valid, Model, Put;
      ghost var rows, models := cell.rows, Model().rows;
      var row := cell.rows[number];
      ghost var within := row.Repr;
      PartInItself(row);
      done := row.PutAt(steps, value);
      Repr := Repr + row.Repr;
      assert forall i :: 0 <= i < |rows| && i != number ==> rows[i].Repr !! within;
      assert forall i :: 0 <= i < |rows| && i != number ==> rows[i].Valid() && rows[i].Model() == models[i];
      ArrMade(rows, models[number := row.Model()]);
    }

    /** `put` from the row `number` of the list at the field `name`. */
    method PutFieldRow(name: string, number: nat, steps: seq<Step>, value: string) returns (done: bool)
      requires Valid() && cell.ObjCell? && name in cell.fields && cell.fields[name].cell.ArrCell?
      modifies Repr
      ensures Valid() && fresh(Repr - old(Repr))
      ensures old(Model()).Obj? && name in old(Model()).fields && old(Model()).fields[name].Arr?
      ensures var (part, wrote) := WithRow(old(Model()).fields[name].rows, number, steps, value);
              done == wrote && Model() == Obj(old(Model()).fields[name := part])
      decreases |steps|, 3
    {
      ObjOpened();
      hide Valid, Model, WithRow;
      ghost var fields, models := cell.fields, Model().fields;
      var part := cell.fields[name];
      done := part.PutRow(number, steps, value);
      FieldChanged(name, fields, models);
    }

    /** `node.setdefault(name, {})`, or with `[]`. */
    method SetDefault(name: string, list: bool)
      requires Valid() && cell.ObjCell?
      modifies this
      ensures Valid() && fresh(Repr - old(Repr)) && cell.ObjCell? && name in cell.fields
      ensures old(Model()).Obj? && Model() == Obj(WithDefault(old(Model()).fields, name, list))
    {
      ObjOpened();
      hide Valid, Model;
      if name !in cell.fields {
        var part := new Node(if list then ArrCell([]) else ObjCell(map[]));
        EmptyModel(part);
        SetField(name, part);
      }
    }

    /** `put`, from the step that starts at this node. */
    method PutAt(steps: seq<Step>, value: string) returns (done: bool)
      requires Valid() && |steps| > 0
      modifies Repr
      ensures Valid() && fresh(Repr - old(Repr))
      ensures (Model(), done) == Put(old(Model()), steps, Text(value))
      decreases |steps|, 0
    {
      KindsAgree();
      hide Valid, Model;
      if !cell.ObjCell? {
        return false;
      }
      var step, last := steps[0], |steps| == 1;
      if step.index.None? && last {
        var leaf := new Node(TextCell(value));
        TextModel(leaf);
        SetField(step.name, leaf);
        return true;
      }
      DefaultSet(Model().fields, steps, Text(value));
      SetDefault(step.name, step.index.Some?);
      if step.index.None? {
        done := PutField(step.name, steps[1..], value);
      } else {
        PartKinds(step.name);
        if !cell.fields[step.name].cell.ArrCell? {
          return false;
        }
        done := PutFieldRow(step.name, step.index.value, steps[1..], value);
      }
    }

    /** A part that is a list is one in the model. */
    lemma PartKinds(name: string)
      requires Valid() && cell.ObjCell? && name in cell.fields
      ensures Model().Obj? && name in Model().fields
      ensures Model().fields[name].Arr? <==> cell.fields[name].cell.ArrCell?
    {
      ObjOpened();
      cell.fields[name].KindsAgree();
    }

    lemma KindsAgree()
      requires Valid()
      ensures Model().Obj? <==> cell.ObjCell?
      ensures Model().Arr? <==> cell.ArrCell?
    {
    }
  }

  /** A list with the row `number` written from the steps past it, or only padded where none are left. */
  ghost function WithRow(rows: seq<Json>, number: nat, steps: seq<Step>, value: string): (Json, bool) {
    var padded := PaddedRows(rows, number);
    if |steps| == 0 then (Arr(padded), false)
    else
      var (row, wrote) := Put(padded[number], steps, Text(value));
      (Arr(padded[number := row]), wrote)
  }

  /** The fields after `setdefault`. */
  ghost function WithDefault(fields: map<string, Json>, name: string, list: bool): map<string, Json> {
    if name in fields then fields else fields[name := if list then Arr([]) else EmptyObj()]
  }

  /** Setting the default a step would start from leaves the same to write, unless its field is written. */
  lemma DefaultSet(fields: map<string, Json>, steps: seq<Step>, value: Json)
    requires |steps| > 1 || (|steps| == 1 && steps[0].index.Some?)
    ensures var defaulted := WithDefault(fields, steps[0].name, steps[0].index.Some?);
            Put(Obj(defaulted), steps, value) == Put(Obj(fields), steps, value)
  {
    var name := steps[0].name;
    var list := steps[0].index.Some?;
    var defaulted := WithDefault(fields, name, list);
    var after := Put(Obj(defaulted), steps, value).0;
    if name !in fields {
      assert after.Obj? && defaulted[name := after.fields[name]] == fields[name := after.fields[name]];
    }
  }

  lemma PaddedOne(rows: seq<Json>, number: nat)
    requires |rows| <= number
    ensures PaddedRows(rows + [EmptyObj()], number) == PaddedRows(rows, number)
  {
  }

  lemma PaddedEnough(rows: seq<Json>, number: nat)
    requires number < |rows|
    ensures PaddedRows(rows, number) == rows
  {
  }

  lemma EmptyModel(node: Node)
    requires node.Valid() && (node.cell == ObjCell(map[]) || node.cell == ArrCell([]))
    ensures node.Model() == if node.cell.ArrCell? then Arr([]) else EmptyObj()
  {
    if node.cell.ObjCell? {
      assert node.Model().fields == map[];
    }
  }

  lemma TextModel(node: Node)
    requires node.Valid() && node.cell.TextCell?
    ensures node.Model() == Text(node.cell.s)
  {
  }
}
