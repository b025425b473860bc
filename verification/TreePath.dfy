/** A path written into a nested tree and read out of it (`put` and `pick` of `deploy/harness/harness.py`):
    what each makes of a tree, and the laws they keep together. */
module TreePath {
  import opened Wrappers

  /** A JSON value, its numbers, booleans and null told apart by a number. */
  datatype Json = Scalar(n: int) | Text(s: string) | Obj(fields: map<string, Json>) | Arr(rows: seq<Json>)

  /** A step of a path: a field, and perhaps a row of it. */
  datatype Step = Step(name: string, index: Option<nat>)

  // ---- writing ----

  function EmptyObj(): Json {
    Obj(map[])
  }

  function FieldOr(fields: map<string, Json>, name: string, default: Json): Json {
    if name in fields then fields[name] else default
  }

  /** Rows with empty ones added until there is one at `number`. */
  function PaddedRows(rows: seq<Json>, number: nat): (padded: seq<Json>)
    ensures number < |padded| && |rows| <= |padded|
    ensures forall i :: 0 <= i < |rows| ==> padded[i] == rows[i]
    ensures number < |rows| ==> padded == rows
    decreases if number < |rows| then 0 else number + 1 - |rows|
  {
    if number < |rows| then rows else PaddedRows(rows + [EmptyObj()], number)
  }

  /** What `put` leaves of a tree, and whether it wrote the value: where it stops with an error, what it had
      added by then stays. */
  function Put(t: Json, steps: seq<Step>, value: Json): (Json, bool)
    requires |steps| > 0
    decreases |steps|
  {
    if !t.Obj? then (t, false)
    else
      var step, last := steps[0], |steps| == 1;
      if step.index.None? then
        if last then (Obj(t.fields[step.name := value]), true)
        else
          var (child, done) := Put(FieldOr(t.fields, step.name, EmptyObj()), steps[1..], value);
          (Obj(t.fields[step.name := child]), done)
      else
        var rows := FieldOr(t.fields, step.name, Arr([]));
        if !rows.Arr? then (t, false)
        else
          var padded := PaddedRows(rows.rows, step.index.value);
          if last then (Obj(t.fields[step.name := Arr(padded)]), false)
          else
            var (row, done) := Put(padded[step.index.value], steps[1..], value);
            (Obj(t.fields[step.name := Arr(padded[step.index.value := row])]), done)
  }

  // ---- reading ----

  /** What `[...]` of a value is asked for: a field's name, or a row's number. */
  datatype Key = Field(name: string) | Row(number: nat)

  function Keys(steps: seq<Step>): seq<Key> {
    if |steps| == 0 then []
    else
      [Field(steps[0].name)] + (if steps[0].index.Some? then [Row(steps[0].index.value)] else []) + Keys(steps[1..])
  }

  /** One `[...]` of Python's: of a dictionary, a list or a string; an error of anything else. */
  function At(t: Json, key: Key): Option<Json> {
    match key
    case Field(name) => if t.Obj? && name in t.fields then Some(t.fields[name]) else None
    case Row(i) =>
      if t.Arr? && i < |t.rows| then Some(t.rows[i])
      else if t.Text? && i < |t.s| then Some(Text([t.s[i]]))
      else None
  }

  function PickKeys(t: Json, keys: seq<Key>): Option<Json>
    decreases |keys|
  {
    if |keys| == 0 then Some(t)
    else
      match At(t, keys[0])
      case None => None
      case Some(inner) => PickKeys(inner, keys[1..])
  }

  /** `pick` */
  function Pick(t: Json, steps: seq<Step>): Option<Json> {
    PickKeys(t, Keys(steps))
  }

  /** `pick`, walking down the tree. */
  method ComputePick(t: Json, steps: seq<Step>) returns (r: Option<Json>)
    ensures r == Pick(t, steps)
  {
    var tree := t;
    assert steps[0..] == steps;
    for i := 0 to |steps|
      invariant Pick(t, steps) == Pick(tree, steps[i..])
    {
      assert steps[i..][1..] == steps[i + 1..];
      PickStep(tree, steps[i..]);
      var named := At(tree, Field(steps[i].name));
      if named.None? {
        return None;
      }
      tree := named.value;
      if steps[i].index.Some? {
        var row := At(tree, Row(steps[i].index.value));
        if row.None? {
          return None;
        }
        tree := row.value;
      }
    }
    assert steps[|steps|..] == [];
    return Some(tree);
  }

  /** Reading a path reads its first step, then the rest. */
  lemma PickStep(t: Json, steps: seq<Step>)
    requires |steps| > 0
    ensures Pick(t, steps) ==
            match At(t, Field(steps[0].name))
            case None => None
            case Some(inner) =>
              if steps[0].index.None? then Pick(inner, steps[1..])
              else
                match At(inner, Row(steps[0].index.value))
                case None => None
                case Some(row) => Pick(row, steps[1..])
  {
    var keys, rest := Keys(steps), Keys(steps[1..]);
    var inner := At(t, keys[0]);
    assert keys[0] == Field(steps[0].name);
    if steps[0].index.None? {
      assert keys == [keys[0]] + rest;
      assert keys[1..] == rest;
    } else {
      assert keys[1..] == [Row(steps[0].index.value)] + rest;
      assert keys[1..][1..] == rest;
      if inner.Some? {
        PickFirst(inner.value, keys[1..]);
      }
    }
  }

  // ---- when a value is written ----

  /** What `[...]` is asked of by `put`: a dictionary for a field, a list for a row. */
  predicate Holds(t: Json, key: Key) {
    if key.Field? then t.Obj? else t.Arr?
  }

  /** Whatever there is along a path is what the path takes it for. */
  ghost predicate Fits(t: Json, keys: seq<Key>) {
    forall k :: 0 <= k < |keys| ==> PickKeys(t, keys[..k]).Some? ==> Holds(PickKeys(t, keys[..k]).value, keys[k])
  }

  lemma FitsStep(t: Json, key: Key, rest: seq<Key>)
    ensures Fits(t, [key] + rest) <==> Holds(t, key) && (At(t, key).Some? ==> Fits(At(t, key).value, rest))
  {
    var keys := [key] + rest;
    assert keys[..0] == [] && PickKeys(t, []) == Some(t);
    forall k | 1 <= k < |keys|
      ensures PickKeys(t, keys[..k]) ==
              match At(t, key) case None => None case Some(inner) => PickKeys(inner, rest[..k - 1])
    {
      assert keys[..k][1..] == rest[..k - 1];
    }
    hide PickKeys, At;
    if At(t, key).Some? {
      assert forall k :: 0 <= k < |rest| ==> keys[k + 1] == rest[k];
      if Fits(t, keys) {
        forall k | 0 <= k < |rest| && PickKeys(At(t, key).value, rest[..k]).Some?
          ensures Holds(PickKeys(At(t, key).value, rest[..k]).value, rest[k])
        {
          assert keys[..k + 1][1..] == rest[..k + 1 - 1];
          assert PickKeys(t, keys[..k + 1]).Some?;
        }
      }
    }
  }

  lemma NothingFits(steps: seq<Step>)
    requires |steps| > 0
    ensures Fits(EmptyObj(), Keys(steps))
  {
    hide Fits;
    var key, rest := Field(steps[0].name), Keys(steps)[1..];
    assert Keys(steps) == [key] + rest;
    FitsStep(EmptyObj(), key, rest);
  }

  /** `put` writes the value exactly when the path ends in a field and fits what there is along it; what
      there is not, it makes. */
  lemma {:induction false} WrittenExactly(t: Json, steps: seq<Step>, value: Json)
    requires |steps| > 0
    ensures Put(t, steps, value).1 <==> steps[|steps| - 1].index.None? && Fits(t, Keys(steps))
    decreases |steps|, 0
  {
    hide Fits;
    var step, rest := steps[0], Keys(steps[1..]);
    var named := Field(step.name);
    if step.index.None? {
      assert Keys(steps) == [named] + rest;
      FitsStep(t, named, rest);
      if |steps| == 1 {
        NoKeysFit(steps[1..]);
      } else if t.Obj? {
        WrittenExactly(FieldOr(t.fields, step.name, EmptyObj()), steps[1..], value);
        NothingFits(steps[1..]);
      }
    } else {
      var below := [Row(step.index.value)] + rest;
      assert Keys(steps) == [named] + below;
      FitsStep(t, named, below);
      if t.Obj? {
        WrittenInRow(FieldOr(t.fields, step.name, Arr([])), step.index.value, steps, value);
        EmptyListFits(step.index.value, rest);
      }
    }
  }

  lemma NoKeysFit(steps: seq<Step>)
    requires |steps| == 0
    ensures forall t :: Fits(t, Keys(steps))
  {
  }

  lemma EmptyListFits(n: nat, rest: seq<Key>)
    ensures Fits(Arr([]), [Row(n)] + rest)
  {
    hide Fits;
    FitsStep(Arr([]), Row(n), rest);
  }

  lemma {:induction false} WrittenInRow(rows: Json, n: nat, steps: seq<Step>, value: Json)
    requires |steps| > 0
    ensures |steps| > 1 && rows.Arr? ==>
              Put(PaddedRows(rows.rows, n)[n], steps[1..], value).1 ==
              (steps[|steps| - 1].index.None? && Fits(rows, [Row(n)] + Keys(steps[1..])))
    ensures !rows.Arr? ==> !Fits(rows, [Row(n)] + Keys(steps[1..]))
    decreases |steps| - 1, 1
  {
    hide Fits;
    FitsStep(rows, Row(n), Keys(steps[1..]));
    if |steps| > 1 && rows.Arr? {
      WrittenExactly(PaddedRows(rows.rows, n)[n], steps[1..], value);
      NothingFits(steps[1..]);
      PaddingEmpty(rows.rows, n);
    }
  }

  lemma {:induction false} PaddingEmpty(rows: seq<Json>, n: nat)
    ensures n >= |rows| ==> PaddedRows(rows, n)[n] == EmptyObj()
    decreases if n < |rows| then 0 else n + 1 - |rows|
  {
    if n >= |rows| {
      PaddingEmpty(rows + [EmptyObj()], n);
    }
  }

  // ---- the laws ----

  /** Whether the value was written depends on the tree and the path only. */
  lemma {:induction false} WrittenAlike(t: Json, steps: seq<Step>, v: Json, w: Json)
    requires |steps| > 0
    ensures Put(t, steps, v).1 == Put(t, steps, w).1
    decreases |steps|
  {
    if t.Obj? && |steps| > 1 {
      var step := steps[0];
      if step.index.None? {
        WrittenAlike(FieldOr(t.fields, step.name, EmptyObj()), steps[1..], v, w);
      } else {
        var rows := FieldOr(t.fields, step.name, Arr([]));
        if rows.Arr? {
          WrittenAlike(PaddedRows(rows.rows, step.index.value)[step.index.value], steps[1..], v, w);
        }
      }
    }
  }

  /** What was written is read back. */
  lemma {:induction false} PickOfPut(t: Json, steps: seq<Step>, value: Json)
    requires |steps| > 0 && Put(t, steps, value).1
    ensures Pick(Put(t, steps, value).0, steps) == Some(value)
    decreases |steps|
  {
    hide Pick;
    var step := steps[0];
    PickStep(Put(t, steps, value).0, steps);
    if |steps| == 1 {
      assert steps[1..] == [];
      PickNone(value);
    } else if step.index.None? {
      PickOfPut(FieldOr(t.fields, step.name, EmptyObj()), steps[1..], value);
    } else {
      var padded := PaddedRows(FieldOr(t.fields, step.name, Arr([])).rows, step.index.value);
      PickOfPut(padded[step.index.value], steps[1..], value);
    }
  }

  lemma PickNone(t: Json)
    ensures Pick(t, []) == Some(t)
  {
  }

  /** A second write overwrites the first. */
  lemma {:induction false} PutTwice(t: Json, steps: seq<Step>, v: Json, w: Json)
    requires |steps| > 0 && Put(t, steps, v).1
    ensures Put(Put(t, steps, v).0, steps, w) == Put(t, steps, w)
    ensures Put(t, steps, w).1
    decreases |steps|
  {
    WrittenAlike(t, steps, v, w);
    var step := steps[0];
    if |steps| == 1 {
      assert t.fields[step.name := v][step.name := w] == t.fields[step.name := w];
    } else if step.index.None? {
      var child := FieldOr(t.fields, step.name, EmptyObj());
      PutTwice(child, steps[1..], v, w);
      var c, d := Put(child, steps[1..], v).0, Put(child, steps[1..], w).0;
      assert t.fields[step.name := c][step.name := d] == t.fields[step.name := d];
    } else {
      var n := step.index.value;
      var padded := PaddedRows(FieldOr(t.fields, step.name, Arr([])).rows, n);
      PutTwice(padded[n], steps[1..], v, w);
      var c, d := Put(padded[n], steps[1..], v).0, Put(padded[n], steps[1..], w).0;
      assert PaddedRows(padded[n := c], n) == padded[n := c];
      assert padded[n := c][n := d] == padded[n := d];
      assert t.fields[step.name := Arr(padded[n := c])][step.name := Arr(padded[n := d])]
          == t.fields[step.name := Arr(padded[n := d])];
    }
  }

  /** Writing back what was read changes nothing, wherever the path ends in a field. */
  lemma {:induction false} PutOfPick(t: Json, steps: seq<Step>)
    requires |steps| > 0 && steps[|steps| - 1].index.None? && Pick(t, steps).Some?
    ensures Put(t, steps, Pick(t, steps).value) == (t, true)
    decreases |steps|
  {
    hide Pick;
    var step := steps[0];
    PickStep(t, steps);
    assert t.Obj?;
    if |steps| == 1 {
      assert steps[1..] == [];
      PickNone(t.fields[step.name]);
      assert t.fields[step.name := t.fields[step.name]] == t.fields;
    } else if step.index.None? {
      PutOfPick(t.fields[step.name], steps[1..]);
      assert t.fields[step.name := t.fields[step.name]] == t.fields;
    } else {
      var n, rows := step.index.value, t.fields[step.name];
      TextHasNoFields(rows, n, steps[1..]);
      PutOfPick(rows.rows[n], steps[1..]);
      assert rows.rows[n := rows.rows[n]] == rows.rows;
      assert t.fields[step.name := rows] == t.fields;
    }
  }

  /** A row read on into a field is a list's, not a string's character. */
  lemma TextHasNoFields(rows: Json, n: nat, rest: seq<Step>)
    requires |rest| > 0 && At(rows, Row(n)).Some? && Pick(At(rows, Row(n)).value, rest).Some?
    ensures rows.Arr? && n < |rows.rows|
  {
    PickStep(At(rows, Row(n)).value, rest);
  }

  /** Two paths part where both go on and by different keys. */
  ghost predicate Diverge(a: seq<Key>, b: seq<Key>) {
    exists k :: 0 <= k < |a| && k < |b| && a[..k] == b[..k] && a[k] != b[k]
  }

  lemma PrefixBehind(x: Key, a: seq<Key>, k: nat)
    requires 0 < k <= |a| + 1
    ensures ([x] + a)[..k] == [x] + a[..k - 1]
    ensures k <= |a| ==> ([x] + a)[k] == a[k - 1]
  {
  }

  lemma SameBehind(x: Key, a: seq<Key>, b: seq<Key>)
    requires [x] + a == [x] + b
    ensures a == b
  {
    assert ([x] + a)[1..] == a && ([x] + b)[1..] == b;
  }

  lemma DivergeOn(x: Key, a: seq<Key>, b: seq<Key>)
    requires Diverge([x] + a, [x] + b)
    ensures Diverge(a, b)
  {
    var p, q := [x] + a, [x] + b;
    var k :| 0 <= k < |p| && k < |q| && p[..k] == q[..k] && p[k] != q[k];
    assert p[0] == x == q[0];
    assert k > 0;
    PrefixBehind(x, a, k);
    PrefixBehind(x, b, k);
    SameBehind(x, a[..k - 1], b[..k - 1]);
    assert a[..k - 1] == b[..k - 1] && a[k - 1] != b[k - 1];
  }

  /** What is read along a path, before and after: the same, or an empty row where there was none. */
  predicate Elsewhere(before: Option<Json>, after: Option<Json>, keys: seq<Key>) {
    after == before || (before.None? && after == Some(EmptyObj()) && |keys| > 0 && keys[|keys| - 1].Row?)
  }

  /** Along a path that parts from the one written, whether or not the value is written, what could be read is
      read as before, and what could not is not, but for the empty rows a list is padded with. */
  lemma {:induction false} PutElsewhere(t: Json, steps: seq<Step>, value: Json, keys: seq<Key>)
    requires |steps| > 0 && Diverge(Keys(steps), keys)
    ensures Elsewhere(PickKeys(t, keys), PickKeys(Put(t, steps, value).0, keys), keys)
    decreases |steps|, 1
  {
    hide PickKeys, Put, Keys;
    if t.Obj? {
      PutField(t, steps, value);
      PickFirst(t, keys);
      PickFirst(Put(t, steps, value).0, keys);
      if keys[0] == Field(steps[0].name) {
        hide Diverge, At, Elsewhere;
        PutElsewhereInField(t, steps, value, keys);
      }
    } else {
      PutNowhere(t, steps, value);
    }
  }

  lemma PutNowhere(t: Json, steps: seq<Step>, value: Json)
    requires |steps| > 0 && !t.Obj?
    ensures Put(t, steps, value) == (t, false)
  {
  }

  /** `put` changes no field of a dictionary but the one its first step names. */
  lemma PutField(t: Json, steps: seq<Step>, value: Json)
    requires |steps| > 0 && t.Obj?
    ensures Put(t, steps, value).0.Obj?
    ensures forall name :: name != steps[0].name ==> At(Put(t, steps, value).0, Field(name)) == At(t, Field(name))
    ensures forall i :: At(Put(t, steps, value).0, Row(i)) == At(t, Row(i))
  {
  }

  lemma PickFirst(t: Json, keys: seq<Key>)
    requires |keys| > 0
    ensures PickKeys(t, keys) == match At(t, keys[0]) case None => None case Some(inner) => PickKeys(inner, keys[1..])
  {
  }

  /** A field that is not there reads on as the empty part put in its place would. */
  lemma DefaultReads(t: Json, name: string, default: Json, keys: seq<Key>)
    requires t.Obj? && (default == EmptyObj() || default == Arr([]))
    requires |keys| > 1 && keys[0] == Field(name)
    ensures PickKeys(t, keys) == PickKeys(FieldOr(t.fields, name, default), keys[1..])
  {
    if name !in t.fields {
      NothingRead(default, keys[1..]);
    }
  }

  lemma NothingRead(empty: Json, keys: seq<Key>)
    requires (empty == EmptyObj() || empty == Arr([])) && |keys| > 0
    ensures PickKeys(empty, keys) == None
  {
  }

  lemma NothingDiverges(keys: seq<Key>)
    ensures !Diverge([], keys)
  {
  }

  lemma DivergeNonempty(a: seq<Key>, b: seq<Key>)
    requires Diverge(a, b)
    ensures |a| > 0 && |b| > 0
  {
  }

  /** What the field the first step names is after. */
  lemma PutUnder(t: Json, steps: seq<Step>, value: Json)
    requires |steps| > 0 && t.Obj?
    ensures var step, after := steps[0], Put(t, steps, value).0;
            && (step.index.None? && |steps| > 1 ==>
                  var child := FieldOr(t.fields, step.name, EmptyObj());
                  At(after, Field(step.name)) == Some(Put(child, steps[1..], value).0))
            && (step.index.Some? ==>
                  var rows := FieldOr(t.fields, step.name, Arr([]));
                  if rows.Arr? then
                    At(after, Field(step.name)) == Some(PutRows(rows.rows, step.index.value, steps[1..], value))
                  else after == t)
  {
  }

  /** A list with its row `n` put on into, or only padded where no steps are left. */
  function PutRows(rows: seq<Json>, n: nat, steps: seq<Step>, value: Json): Json {
    var padded := PaddedRows(rows, n);
    if |steps| == 0 then Arr(padded) else Arr(padded[n := Put(padded[n], steps, value).0])
  }

  /** Below the field the two paths share. */
  lemma {:induction false} PutElsewhereInField(t: Json, steps: seq<Step>, value: Json, keys: seq<Key>)
    requires |steps| > 0 && t.Obj? && Diverge(Keys(steps), keys)
    requires |keys| > 0 && keys[0] == Field(steps[0].name)
    ensures Elsewhere(PickKeys(t, keys), PickKeys(Put(t, steps, value).0, keys), keys)
    decreases |steps|, 0
  {
    hide PickKeys, Diverge, Fits, Put, Elsewhere;
    var step, rest := steps[0], Keys(steps[1..]);
    PutUnder(t, steps, value);
    PickFirst(Put(t, steps, value).0, keys);
    assert keys == [keys[0]] + keys[1..];
    if step.index.None? {
      assert Keys(steps) == [keys[0]] + rest;
      DivergeOn(keys[0], rest, keys[1..]);
      DivergeNonempty(rest, keys[1..]);
      DefaultReads(t, step.name, EmptyObj(), keys);
      PutElsewhere(FieldOr(t.fields, step.name, EmptyObj()), steps[1..], value, keys[1..]);
      ElsewhereOn(keys);
    } else {
      assert Keys(steps) == [keys[0]] + ([Row(step.index.value)] + rest);
      DivergeOn(keys[0], [Row(step.index.value)] + rest, keys[1..]);
      DivergeNonempty([Row(step.index.value)] + rest, keys[1..]);
      DefaultReads(t, step.name, Arr([]), keys);
      ElsewhereOn(keys);
      ElsewhereSame(PickKeys(t, keys), keys);
      if FieldOr(t.fields, step.name, Arr([])).Arr? {
        PutElsewhereInRow(FieldOr(t.fields, step.name, Arr([])).rows, step.index.value, steps[1..], value, keys[1..]);
      }
    }
  }

  lemma ElsewhereOn(keys: seq<Key>)
    requires |keys| > 1
    ensures forall before, after :: Elsewhere(before, after, keys[1..]) ==> Elsewhere(before, after, keys)
  {
  }

  lemma ElsewhereSame(read: Option<Json>, keys: seq<Key>)
    ensures Elsewhere(read, read, keys)
  {
  }

  /** Below the list the two paths share. */
  lemma {:induction false} PutElsewhereInRow(rows: seq<Json>, n: nat, steps: seq<Step>, value: Json, keys: seq<Key>)
    requires Diverge([Row(n)] + Keys(steps), keys)
    ensures Elsewhere(PickKeys(Arr(rows), keys), PickKeys(PutRows(rows, n, steps, value), keys), keys)
    decreases |steps|, 2
  {
    hide PickKeys, Put, Diverge;
    DivergeNonempty([Row(n)] + Keys(steps), keys);
    PickFirst(Arr(rows), keys);
    PickFirst(PutRows(rows, n, steps, value), keys);
    PaddedExactly(rows, n);
    if keys[0] == Row(n) {
      assert keys == [keys[0]] + keys[1..];
      DivergeOn(keys[0], Keys(steps), keys[1..]);
      DivergeNonempty(Keys(steps), keys[1..]);
      hide Elsewhere;
      PutElsewhere(PaddedRows(rows, n)[n], steps, value, keys[1..]);
      ElsewhereOn(keys);
      if n >= |rows| {
        NothingRead(EmptyObj(), keys[1..]);
      }
    } else {
      hide PaddedRows;
      PutOtherRow(rows, n, steps, value, keys);
    }
  }

  /** Row `m` of a list after, where another row is put on into: as before, or empty where the list is padded. */
  lemma OtherRow(rows: seq<Json>, n: nat, steps: seq<Step>, value: Json, m: nat)
    requires m != n
    ensures var before, after := At(Arr(rows), Row(m)), At(PutRows(rows, n, steps, value), Row(m));
            after == before || (before == None && after == Some(EmptyObj()))
  {
    hide Put, PaddedRows;
    PaddedExactly(rows, n);
  }

  lemma PutOtherRow(rows: seq<Json>, n: nat, steps: seq<Step>, value: Json, keys: seq<Key>)
    requires |keys| > 0 && keys[0] != Row(n)
    ensures Elsewhere(PickKeys(Arr(rows), keys), PickKeys(PutRows(rows, n, steps, value), keys), keys)
  {
    PickFirst(Arr(rows), keys);
    PickFirst(PutRows(rows, n, steps, value), keys);
    if keys[0].Row? {
      OtherRow(rows, n, steps, value, keys[0].number);
      hide PutRows, At;
      if |keys| > 1 {
        NothingRead(EmptyObj(), keys[1..]);
      } else {
        assert keys[1..] == [];
      }
    }
  }

  /** Padding adds empty dictionaries only, and only up to the row asked for. */
  lemma {:induction false} PaddedExactly(rows: seq<Json>, n: nat)
    ensures var padded := PaddedRows(rows, n);
            && |padded| == (if n < |rows| then |rows| else n + 1)
            && (forall i :: 0 <= i < |rows| ==> padded[i] == rows[i])
            && forall i :: |rows| <= i < |padded| ==> padded[i] == Obj(map[])
    decreases if n < |rows| then 0 else n + 1 - |rows|
  {
    if n >= |rows| {
      var more := rows + [EmptyObj()];
      PaddedExactly(more, n);
      assert more[|rows|] == EmptyObj();
    }
  }

  /** Where `put` stops with an error nothing of the value is left in the tree. */
  lemma {:induction false} FailedAlike(t: Json, steps: seq<Step>, v: Json, w: Json)
    requires |steps| > 0 && !Put(t, steps, v).1
    ensures Put(t, steps, v) == Put(t, steps, w)
    decreases |steps|
  {
    if t.Obj? && |steps| > 1 {
      var step := steps[0];
      if step.index.None? {
        FailedAlike(FieldOr(t.fields, step.name, EmptyObj()), steps[1..], v, w);
      } else {
        var rows := FieldOr(t.fields, step.name, Arr([]));
        if rows.Arr? {
          FailedAlike(PaddedRows(rows.rows, step.index.value)[step.index.value], steps[1..], v, w);
        }
      }
    }
  }

  /** A row of a list is its element, of a string its character; there is no other row. */
  lemma RowsAre(t: Json, n: nat)
    ensures t.Arr? && n < |t.rows| ==> At(t, Row(n)) == Some(t.rows[n])
    ensures t.Text? && n < |t.s| ==> At(t, Row(n)) == Some(Text(t.s[n..n + 1]))
    ensures t.Obj? || t.Scalar? || (t.Arr? && n >= |t.rows|) || (t.Text? && n >= |t.s|) ==> At(t, Row(n)) == None
  {
    if t.Text? && n < |t.s| {
      assert t.s[n..n + 1] == [t.s[n]];
    }
  }
}
