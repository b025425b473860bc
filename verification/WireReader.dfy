/** The protobuf reader of `e2e/dashboard/plugin_page_runner.py`, against an encoder written from the
    Protocol Buffers Encoding specification ("Base 128 Varints", "Message Structure", "Packed Repeated
    Fields"). A message is read from its front: a reading gives what it read and how many bytes it took. */
module WireReader {
  import opened Bits
  import opened Bytes

  /** A varint's number, or the bytes of anything else. */
  datatype Value = Number(n: nat) | Raw(bytes: seq<Byte>)

  datatype Field = Field(number: nat, value: Value)

  /** The message ended inside a varint (an IndexError), or a wire type the reader does not read. */
  datatype Error = EndOfMessage | WireType(wire: nat)

  datatype Result<T> = Ok(value: T) | Err(error: Error)

  type Fields = map<nat, seq<Value>>

  /** `data[n:]`, empty past the end. */
  function Drop(data: seq<Byte>, n: nat): (rest: seq<Byte>)
    ensures |rest| == if n <= |data| then |data| - n else 0
  {
    if n <= |data| then data[n..] else []
  }

  /** `data[:n]`, the whole where it is shorter. */
  function Take(data: seq<Byte>, n: nat): seq<Byte> {
    if n <= |data| then data[..n] else data
  }

  // ---- what the reader reads ----

  /** A base-128 number at the front, least significant group first, and the bytes it takes. */
  function VarintIn(data: seq<Byte>): (r: Result<(nat, nat)>)
    ensures r.Ok? ==> 0 < r.value.1 <= |data|
  {
    if |data| == 0 then Err(EndOfMessage)
    else if data[0] < 128 then Ok((data[0], 1))
    else
      match VarintIn(data[1..])
      case Err(e) => Err(e)
      case Ok((high, used)) => Ok((data[0] - 128 + 128 * high, used + 1))
  }

  /** A field's value behind its key: what it is, and the bytes it takes, which a message cut short need
      not hold. */
  function ValueIn(wire: nat, data: seq<Byte>): Result<(Value, nat)> {
    if wire == 0 then
      match VarintIn(data)
      case Err(e) => Err(e)
      case Ok((n, used)) => Ok((Number(n), used))
    else if wire == 2 then
      match VarintIn(data)
      case Err(e) => Err(e)
      case Ok((length, used)) => Ok((Raw(Take(data[used..], length)), used + length))
    else if wire == 1 then Ok((Raw(Take(data, 8)), 8))
    else if wire == 5 then Ok((Raw(Take(data, 4)), 4))
    else Err(WireType(wire))
  }

  function FieldIn(data: seq<Byte>): (r: Result<(Field, nat)>)
    ensures r.Ok? ==> r.value.1 > 0
  {
    match VarintIn(data)
    case Err(e) => Err(e)
    case Ok((key, used)) =>
      match ValueIn(key % 8, data[used..])
      case Err(e) => Err(e)
      case Ok((value, taken)) => Ok((Field(key / 8, value), used + taken))
  }

  /** The fields of a message in order, and how many bytes its last one lacks. */
  function FieldsIn(data: seq<Byte>): Result<(seq<Field>, nat)>
    decreases |data|
  {
    if |data| == 0 then Ok(([], 0))
    else
      match FieldIn(data)
      case Err(e) => Err(e)
      case Ok((field, used)) =>
        if used > |data| then Ok(([field], used - |data|))
        else
          match FieldsIn(data[used..])
          case Err(e) => Err(e)
          case Ok((fields, lacks)) => Ok(([field] + fields, lacks))
  }

  /** The values `number` has among `fields`, in order. */
  function ValuesOf(fields: seq<Field>, number: nat): seq<Value> {
    if |fields| == 0 then []
    else (if fields[0].number == number then [fields[0].value] else []) + ValuesOf(fields[1..], number)
  }

  function Numbers(fields: seq<Field>): set<nat> {
    set f | f in fields :: f.number
  }

  /** Each field number's values in order: the dictionary `fields_of` builds. */
  function Grouped(fields: seq<Field>): Fields {
    map n | n in Numbers(fields) :: ValuesOf(fields, n)
  }

  /** `fields_of` */
  function FieldsOf(message: seq<Byte>): Result<Fields> {
    match FieldsIn(message)
    case Err(e) => Err(e)
    case Ok((fields, _)) => Ok(Grouped(fields))
  }

  /** The varints laid end to end in `data`. */
  function VarintsIn(data: seq<Byte>): Result<seq<nat>>
    decreases |data|
  {
    if |data| == 0 then Ok([])
    else
      match VarintIn(data)
      case Err(e) => Err(e)
      case Ok((n, used)) =>
        match VarintsIn(data[used..])
        case Err(e) => Err(e)
        case Ok(ns) => Ok([n] + ns)
  }

  function LevelsOf(values: seq<Value>): Result<seq<nat>> {
    if |values| == 0 then Ok([])
    else
      match (if values[0].Number? then Ok([values[0].n]) else VarintsIn(values[0].bytes))
      case Err(e) => Err(e)
      case Ok(first) =>
        match LevelsOf(values[1..])
        case Err(e) => Err(e)
        case Ok(rest) => Ok(first + rest)
  }

  // ---- the source's loops ----

  /** A reading `at` bytes into the data, told by where it ends. */
  function Placed<T>(at: nat, r: Result<(T, nat)>): Result<(T, nat)> {
    match r
    case Err(e) => Err(e)
    case Ok((read, used)) => Ok((read, at + used))
  }

  /** A reading of the rest of a varint put above the `value` its first bytes gave. */
  function Continued(value: nat, shift: nat, at: nat, rest: Result<(nat, nat)>): Result<(nat, nat)> {
    match rest
    case Err(e) => Err(e)
    case Ok((high, used)) => Ok((value + Shl(high, shift), at + used))
  }

  lemma {:induction false} ShlSum(a: nat, b: nat, n: nat)
    ensures Shl(a + 128 * b, n) == Shl(a, n) + Shl(b, n + 7)
    decreases n
  {
    if n == 0 {
      ShlMeans(b, 7);
      assert Pow2(7) == 128;
    } else {
      ShlSum(a, b, n - 1);
    }
  }

  /** One byte of a varint: its seven bits or-ed in above the value so far. */
  lemma VarintByte(byte: Byte, value: nat, shift: nat)
    requires value < Pow2(shift)
    ensures And(byte, 0x7F) == byte % 128
    ensures (And(byte, 0x80) == 0) == (byte < 128)
    ensures Or(value, Shl(And(byte, 0x7F), shift)) == value + Shl(byte % 128, shift) < Pow2(shift + 7)
  {
    hide And, Or, Low, Shl;
    assert Pow2(7) == 128;
    AndLow(byte, 7);
    ShiftsMean(byte, 7);
    AndBit(byte, 7);
    OrComm(value, Shl(byte % 128, shift));
    OrAdds(byte % 128, value, shift);
    ShlBound(byte % 128, 7, shift);
  }

  /** `varint` */
  method Varint(data: seq<Byte>, start: nat) returns (r: Result<(nat, nat)>)
    ensures r == Placed(start, VarintIn(Drop(data, start)))
  {
    hide And, Or, Shl, VarintIn, Continued, Placed, Pow2;
    NoShift();
    ZeroShift(VarintIn(Drop(data, start)), start);
    var at: nat, shift: nat, value: nat := start, 0, 0;
    while true
      invariant at >= start && value < Pow2(shift)
      invariant Placed(start, VarintIn(Drop(data, start)))
             == Continued(value, shift, at, VarintIn(Drop(data, at)))
      decreases |data| - at
    {
      if at >= |data| {
        VarintAtEnd(value, shift, at);
        return Err(EndOfMessage);
      }
      var byte := data[at];
      ghost var rest := Drop(data, at);
      assert rest[0] == byte && rest[1..] == Drop(data, at + 1);
      VarintByte(byte, value, shift);
      VarintTail(rest, value, shift, at);
      at := at + 1;
      value := Or(value, Shl(And(byte, 0x7F), shift));
      shift := shift + 7;
      if And(byte, 0x80) == 0 {
        return Ok((value, at));
      }
    }
  }

  lemma NoShift()
    ensures Pow2(0) == 1
  {
  }

  lemma VarintAtEnd(value: nat, shift: nat, at: nat)
    ensures Continued(value, shift, at, VarintIn([])) == Err(EndOfMessage)
  {
  }

  lemma ZeroShift(r: Result<(nat, nat)>, at: nat)
    ensures Continued(0, 0, at, r) == Placed(at, r)
  {
  }

  lemma VarintTail(rest: seq<Byte>, value: nat, shift: nat, at: nat)
    requires |rest| > 0
    ensures Continued(value, shift, at, VarintIn(rest))
         == if rest[0] < 128 then Ok((value + Shl(rest[0] % 128, shift), at + 1))
            else Continued(value + Shl(rest[0] % 128, shift), shift + 7, at + 1, VarintIn(rest[1..]))
  {
    hide Shl;
    if rest[0] >= 128 {
      var tail := VarintIn(rest[1..]);
      if tail.Ok? {
        ShlSum(rest[0] - 128, tail.value.0, shift);
      }
    }
  }

  /** `key >> 3` and `key & 7` */
  lemma KeySplits(key: nat)
    ensures Shr(key, 3) == key / 8 && And(key, 7) == key % 8
  {
    assert Pow2(3) == 8;
    AndLow(key, 3);
    ShiftsMean(key, 3);
  }

  /** `fields.setdefault(number, []).append(value)` */
  function Appended(fields: Fields, field: Field): Fields {
    fields[field.number := (if field.number in fields then fields[field.number] else []) + [field.value]]
  }

  lemma {:induction false} ValuesAppend(a: seq<Field>, b: seq<Field>, number: nat)
    ensures ValuesOf(a + b, number) == ValuesOf(a, number) + ValuesOf(b, number)
  {
    if |a| == 0 {
      assert a + b == b;
    } else {
      ValuesAppend(a[1..], b, number);
      assert (a + b)[0] == a[0] && (a + b)[1..] == a[1..] + b;
      var head := if a[0].number == number then [a[0].value] else [];
      var va, vb := ValuesOf(a[1..], number), ValuesOf(b, number);
      assert head + (va + vb) == head + va + vb;
    }
  }

  lemma {:induction false} NoValues(fields: seq<Field>, number: nat)
    ensures number !in Numbers(fields) <==> ValuesOf(fields, number) == []
  {
    if |fields| > 0 {
      NoValues(fields[1..], number);
      if number in Numbers(fields) && fields[0].number != number {
        var f :| f in fields && f.number == number;
        assert f in fields[1..];
      }
      assert forall f :: f in fields[1..] ==> f in fields;
      assert fields[0] in fields;
    }
  }

  lemma GroupedAppends(fields: seq<Field>, field: Field)
    ensures Grouped(fields + [field]) == Appended(Grouped(fields), field)
  {
    var after := fields + [field];
    assert field in after;
    assert forall f :: f in after <==> f in fields || f == field;
    assert Numbers(after) == Numbers(fields) + {field.number};
    forall n | n in Numbers(after)
      ensures Grouped(after)[n] == Appended(Grouped(fields), field)[n]
    {
      ValuesAppend(fields, [field], n);
      NoValues(fields, n);
      assert [field][1..] == [];
    }
  }

  /** What a reading of the rest makes of a message whose first fields are `seen`. */
  function After(seen: seq<Field>, rest: Result<(seq<Field>, nat)>): Result<(seq<Field>, nat)> {
    match rest
    case Err(e) => Err(e)
    case Ok((fields, lacks)) => Ok((seen + fields, lacks))
  }

  /** What is left to read `at` bytes into the message. */
  function Remaining(message: seq<Byte>, at: nat): Result<(seq<Field>, nat)> {
    if at <= |message| then FieldsIn(message[at..]) else Ok(([], at - |message|))
  }

  /** One pass of the loop: an error of the field is the message's, and its field the next one. */
  lemma FieldStep(message: seq<Byte>, seen: seq<Field>, at: nat)
    requires at < |message|
    ensures match FieldIn(message[at..])
            case Err(e) => After(seen, Remaining(message, at)) == Err(e)
            case Ok((field, used)) =>
              After(seen, Remaining(message, at)) == After(seen + [field], Remaining(message, at + used))
  {
    hide FieldIn;
    var rest := message[at..];
    match FieldIn(rest)
    case Err(e) =>
    case Ok((field, used)) =>
      if used <= |rest| {
        assert rest[used..] == message[at + used..];
        var next := FieldsIn(message[at + used..]);
        if next.Ok? {
          assert seen + ([field] + next.value.0) == seen + [field] + next.value.0;
        }
      } else {
        assert seen + [field] + [] == seen + [field];
      }
  }

  /** A field's key and value, told by where they end. */
  lemma FieldPlaced(message: seq<Byte>, at: nat, key: nat, behind: nat)
    requires at < |message|
    requires Placed(at, VarintIn(Drop(message, at))) == Ok((key, behind))
    ensures at < behind <= |message|
    ensures Placed(at, FieldIn(message[at..])) ==
            match Placed(behind, ValueIn(key % 8, Drop(message, behind)))
            case Err(e) => Err(e)
            case Ok((value, end)) => Ok((Field(key / 8, value), end))
  {
    hide VarintIn, ValueIn;
    var used := behind - at;
    assert message[at..][used..] == message[behind..];
  }

  /** `fields_of`, its dictionary filled field by field. */
  method ReadFields(message: seq<Byte>) returns (r: Result<Fields>)
    ensures r == FieldsOf(message)
  {
    hide VarintIn, FieldIn, FieldsIn, Grouped, And, Shr;
    var fields: Fields, at: nat := map[], 0;
    ghost var seen: seq<Field> := [];
    NothingSeen(message);
    while at < |message|
      invariant fields == Grouped(seen)
      invariant FieldsIn(message) == After(seen, Remaining(message, at))
      decreases |message| - at
    {
      FieldStep(message, seen, at);
      var key := Varint(message, at);
      if key.Err? {
        BadKey(message, at);
        return Err(key.error);
      }
      var behind := key.value.1;
      FieldPlaced(message, at, key.value.0, behind);
      KeySplits(key.value.0);
      var number, wire := Shr(key.value.0, 3), And(key.value.0, 7);
      var value, end := Raw([]), behind;
      if wire == 0 {
        var n := Varint(message, behind);
        if n.Err? {
          return Err(n.error);
        }
        value, end := Number(n.value.0), n.value.1;
      } else if wire == 2 {
        var length := Varint(message, behind);
        if length.Err? {
          return Err(length.error);
        }
        end := length.value.1;
        value, end := Raw(Take(Drop(message, end), length.value.0)), end + length.value.0;
      } else if wire == 1 {
        value, end := Raw(Take(Drop(message, behind), 8)), behind + 8;
      } else if wire == 5 {
        value, end := Raw(Take(Drop(message, behind), 4)), behind + 4;
      } else {
        return Err(WireType(wire));
      }
      GroupedAppends(seen, Field(number, value));
      fields := fields[number := (if number in fields then fields[number] else []) + [value]];
      seen := seen + [Field(number, value)];
      at := end;
    }
    AllSeen(message, seen, at);
    return Ok(fields);
  }

  lemma NothingSeen(message: seq<Byte>)
    ensures Grouped([]) == map[]
    ensures FieldsIn(message) == After([], Remaining(message, 0))
  {
    assert message[0..] == message;
    var r := FieldsIn(message);
    if r.Ok? {
      assert [] + r.value.0 == r.value.0;
    }
  }

  lemma AllSeen(message: seq<Byte>, seen: seq<Field>, at: nat)
    requires at >= |message|
    ensures After(seen, Remaining(message, at)).Ok? && After(seen, Remaining(message, at)).value.0 == seen
  {
  }

  lemma BadKey(message: seq<Byte>, at: nat)
    requires at < |message| && VarintIn(Drop(message, at)).Err?
    ensures FieldIn(message[at..]) == Err(VarintIn(Drop(message, at)).error)
  {
  }

  /** A reading of `values` after some gave `levels`. */
  function AfterLevels(levels: seq<nat>, rest: Result<seq<nat>>): Result<seq<nat>> {
    match rest
    case Err(e) => Err(e)
    case Ok(more) => Ok(levels + more)
  }

  /** `levels_of` */
  method ReadLevels(values: seq<Value>) returns (r: Result<seq<nat>>)
    ensures r == LevelsOf(values)
  {
    hide LevelsOf, VarintsIn, VarintIn;
    var levels: seq<nat> := [];
    LevelsStart(values);
    for i := 0 to |values|
      invariant LevelsOf(values) == AfterLevels(levels, LevelsOf(values[i..]))
    {
      LevelsStep(values, i, levels);
      if values[i].Number? {
        levels := levels + [values[i].n];
        continue;
      }
      var value, at: nat := values[i].bytes, 0;
      ghost var before := levels;
      VarintsStart(value, before);
      while at < |value|
        invariant at <= |value|
        invariant AfterLevels(before, VarintsIn(value)) == AfterLevels(levels, VarintsIn(value[at..]))
      {
        VarintsStep(value, at, levels);
        var level := Varint(value, at);
        if level.Err? {
          return Err(level.error);
        }
        levels, at := levels + [level.value.0], level.value.1;
      }
      assert AfterLevels(before, VarintsIn(value)) == Ok(levels) by { VarintsEnd(value, at, levels); }
    }
    LevelsEnd(values, levels);
    return Ok(levels);
  }

  lemma LevelsEnd(values: seq<Value>, levels: seq<nat>)
    ensures AfterLevels(levels, LevelsOf(values[|values|..])) == Ok(levels)
  {
    assert levels + [] == levels;
  }

  lemma LevelsStart(values: seq<Value>)
    ensures LevelsOf(values) == AfterLevels([], LevelsOf(values[0..]))
  {
    assert values[0..] == values;
    if LevelsOf(values).Ok? {
      assert [] + LevelsOf(values).value == LevelsOf(values).value;
    }
  }

  /** What one value of `levels_of` comes to. */
  function LevelsAt(value: Value): Result<seq<nat>> {
    if value.Number? then Ok([value.n]) else VarintsIn(value.bytes)
  }

  lemma LevelsStep(values: seq<Value>, i: nat, levels: seq<nat>)
    requires i < |values|
    ensures LevelsAt(values[i]).Err? ==> AfterLevels(levels, LevelsOf(values[i..])) == Err(LevelsAt(values[i]).error)
    ensures LevelsAt(values[i]).Ok? ==>
              AfterLevels(levels, LevelsOf(values[i..])) ==
              AfterLevels(levels + LevelsAt(values[i]).value, LevelsOf(values[i + 1..]))
  {
    hide VarintsIn;
    assert values[i..][1..] == values[i + 1..];
    var here, rest := LevelsAt(values[i]), LevelsOf(values[i + 1..]);
    if here.Ok? && rest.Ok? {
      assert levels + (here.value + rest.value) == levels + here.value + rest.value;
    }
  }

  lemma VarintsStart(value: seq<Byte>, levels: seq<nat>)
    ensures AfterLevels(levels, VarintsIn(value)) == AfterLevels(levels, VarintsIn(value[0..]))
  {
    assert value[0..] == value;
  }

  lemma VarintsStep(value: seq<Byte>, at: nat, levels: seq<nat>)
    requires at < |value|
    ensures match VarintIn(Drop(value, at))
            case Err(e) => AfterLevels(levels, VarintsIn(value[at..])) == Err(e)
            case Ok((n, used)) =>
              && at + used <= |value|
              && AfterLevels(levels, VarintsIn(value[at..])) == AfterLevels(levels + [n], VarintsIn(value[at + used..]))
  {
    hide VarintIn;
    var one := VarintIn(value[at..]);
    if one.Ok? {
      assert value[at..][one.value.1..] == value[at + one.value.1..];
      var rest := VarintsIn(value[at + one.value.1..]);
      if rest.Ok? {
        assert levels + ([one.value.0] + rest.value) == levels + [one.value.0] + rest.value;
      }
    }
  }

  lemma VarintsEnd(value: seq<Byte>, at: nat, levels: seq<nat>)
    requires at == |value|
    ensures AfterLevels(levels, VarintsIn(value[at..])) == Ok(levels)
  {
    assert value[at..] == [];
    assert levels + [] == levels;
  }

  // ---- the encoder ----

  /** "Base 128 Varints": seven bits a byte, least significant first, all but the last byte marked. */
  function EncodedVarint(n: nat): (bs: seq<Byte>)
    ensures |bs| > 0
  {
    if n < 128 then [n] else [n % 128 + 128] + EncodedVarint(n / 128)
  }

  /** "Message Structure": a record of each wire type the reader reads. */
  datatype Record =
    | VarintRecord(number: nat, n: nat)
    | Fixed64(number: nat, eight: seq<Byte>)
    | Len(number: nat, bytes: seq<Byte>)
    | Fixed32(number: nat, four: seq<Byte>)
  {
    predicate Valid() {
      (Fixed64? ==> |eight| == 8) && (Fixed32? ==> |four| == 4)
    }

    function Wire(): nat {
      match this
      case VarintRecord(_, _) => 0
      case Fixed64(_, _) => 1
      case Len(_, _) => 2
      case Fixed32(_, _) => 5
    }

    function Payload(): seq<Byte> {
      match this
      case VarintRecord(_, n) => EncodedVarint(n)
      case Fixed64(_, eight) => eight
      case Len(_, bytes) => EncodedVarint(|bytes|) + bytes
      case Fixed32(_, four) => four
    }

    function Encoded(): seq<Byte> {
      EncodedVarint(number * 8 + Wire()) + Payload()
    }

    function Meant(): Field {
      match this
      case VarintRecord(_, n) => Field(number, Number(n))
      case Fixed64(_, eight) => Field(number, Raw(eight))
      case Len(_, bytes) => Field(number, Raw(bytes))
      case Fixed32(_, four) => Field(number, Raw(four))
    }
  }

  function Message(records: seq<Record>): seq<Byte> {
    if |records| == 0 then [] else records[0].Encoded() + Message(records[1..])
  }

  function Meanings(records: seq<Record>): (fields: seq<Field>)
    ensures |fields| == |records|
    ensures forall i :: 0 <= i < |records| ==> fields[i] == records[i].Meant()
  {
    if |records| == 0 then [] else [records[0].Meant()] + Meanings(records[1..])
  }

  /** "Packed Repeated Fields": the numbers' varints end to end. */
  function Packed(ns: seq<nat>): seq<Byte> {
    if |ns| == 0 then [] else EncodedVarint(ns[0]) + Packed(ns[1..])
  }

  /** A number with its lowest `k` groups of seven bits off. */
  function Groups(n: nat, k: nat): nat {
    if k == 0 then n else Groups(n / 128, k - 1)
  }

  /** The `k`th byte of a varint: the `k`th group of seven bits, marked unless it is the last; and no group but
      those the number takes. */
  lemma {:induction false} EncodedVarintSays(n: nat, k: nat)
    ensures var bs := EncodedVarint(n);
            && (k < |bs| ==> bs[k] == Groups(n, k) % 128 + if k < |bs| - 1 then 128 else 0)
            && (k >= |bs| ==> Groups(n, k) == 0)
            && (0 < k < |bs| ==> Groups(n, k) > 0)
  {
    if k > 0 {
      if n >= 128 {
        EncodedVarintSays(n / 128, k - 1);
      } else {
        GroupsOfNone(k - 1);
      }
    }
  }

  lemma {:induction false} GroupsOfNone(k: nat)
    ensures Groups(0, k) == 0
  {
    if k > 0 {
      GroupsOfNone(k - 1);
    }
  }

  /** A record outright: its field's number in a key above three bits of wire type, then a varint, eight
      bytes, a length and as many bytes, or four bytes. */
  lemma RecordSays(record: Record)
    ensures record.Encoded() ==
            match record
            case VarintRecord(number, n) => EncodedVarint(8 * number) + EncodedVarint(n)
            case Fixed64(number, eight) => EncodedVarint(8 * number + 1) + eight
            case Len(number, bytes) => EncodedVarint(8 * number + 2) + (EncodedVarint(|bytes|) + bytes)
            case Fixed32(number, four) => EncodedVarint(8 * number + 5) + four
  {
    hide EncodedVarint;
  }

  /** Groups of seven bits, least first, as a number. */
  function FromGroups(bs: seq<Byte>): nat {
    if |bs| == 0 then 0 else bs[0] % 128 + 128 * FromGroups(bs[1..])
  }

  /** Any varint, the shortest of its number or not, is read up to the first byte not marked. */
  lemma {:induction false} VarintExactly(data: seq<Byte>, k: nat)
    requires k < |data| && data[k] < 128 && forall j :: 0 <= j < k ==> data[j] >= 128
    ensures VarintIn(data) == Ok((FromGroups(data[..k + 1]), k + 1))
  {
    if k > 0 {
      var rest := data[1..];
      assert forall j :: 0 <= j < k - 1 ==> rest[j] == data[j + 1];
      VarintExactly(rest, k - 1);
      assert data[..k + 1][1..] == rest[..k];
      assert data[..k + 1][0] == data[0] && data[0] % 128 == data[0] - 128;
    } else {
      assert data[..1][1..] == [];
    }
  }

  /** With every byte marked it is an IndexError. */
  lemma {:induction false} VarintUnended(data: seq<Byte>)
    requires forall j :: 0 <= j < |data| ==> data[j] >= 128
    ensures VarintIn(data) == Err(EndOfMessage)
  {
    if |data| > 0 {
      VarintUnended(data[1..]);
    }
  }

  /** What follows a key: a varint; a length and as many bytes as that or as there are; eight or four bytes or
      as many as there are; or an error for any other wire type. */
  lemma ValueSays(wire: nat, data: seq<Byte>)
    ensures wire == 0 && VarintIn(data).Ok? ==>
              ValueIn(wire, data) == Ok((Number(VarintIn(data).value.0), VarintIn(data).value.1))
    ensures wire == 1 ==> ValueIn(wire, data) == Ok((Raw(if |data| >= 8 then data[..8] else data), 8))
    ensures wire == 2 && VarintIn(data).Ok? ==>
              var (length, used) := VarintIn(data).value;
              var rest := data[used..];
              ValueIn(wire, data) == Ok((Raw(if |rest| >= length then rest[..length] else rest), used + length))
    ensures (wire == 0 || wire == 2) && VarintIn(data).Err? ==> ValueIn(wire, data) == Err(VarintIn(data).error)
    ensures wire == 5 ==> ValueIn(wire, data) == Ok((Raw(if |data| >= 4 then data[..4] else data), 4))
    ensures wire !in {0, 1, 2, 5} ==> ValueIn(wire, data) == Err(WireType(wire))
  {
    hide VarintIn;
  }

  // ---- the reader inverts the encoder ----

  /** Every natural number's varint reads back as it, whatever follows. */
  lemma {:induction false} VarintInverts(n: nat, rest: seq<Byte>)
    ensures VarintIn(EncodedVarint(n) + rest) == Ok((n, |EncodedVarint(n)|))
  {
    var whole := EncodedVarint(n) + rest;
    if n >= 128 {
      VarintInverts(n / 128, rest);
      assert whole[1..] == EncodedVarint(n / 128) + rest;
    }
  }

  lemma PayloadInverts(record: Record, rest: seq<Byte>)
    requires record.Valid()
    ensures ValueIn(record.Wire(), record.Payload() + rest) == Ok((record.Meant().value, |record.Payload()|))
  {
    hide VarintIn, EncodedVarint;
    var behind := record.Payload() + rest;
    match record
    case VarintRecord(_, n) => VarintInverts(n, rest);
    case Len(_, bytes) =>
      VarintInverts(|bytes|, bytes + rest);
      assert behind == EncodedVarint(|bytes|) + (bytes + rest);
      assert behind[|EncodedVarint(|bytes|)|..] == bytes + rest;
      assert Take(bytes + rest, |bytes|) == bytes;
    case Fixed64(_, eight) => assert Take(behind, 8) == eight;
    case Fixed32(_, four) => assert Take(behind, 4) == four;
  }

  lemma RecordInverts(record: Record, rest: seq<Byte>)
    requires record.Valid()
    ensures FieldIn(record.Encoded() + rest) == Ok((record.Meant(), |record.Encoded()|))
  {
    hide VarintIn, EncodedVarint, ValueIn, record.Payload;
    var n := record.number * 8 + record.Wire();
    var behind := record.Payload() + rest;
    assert record.Encoded() + rest == EncodedVarint(n) + behind;
    VarintInverts(n, behind);
    assert (EncodedVarint(n) + behind)[|EncodedVarint(n)|..] == behind;
    assert n / 8 == record.number && n % 8 == record.Wire();
    PayloadInverts(record, rest);
  }

  lemma {:induction false} MessageInverts(records: seq<Record>)
    requires forall r :: r in records ==> r.Valid()
    ensures FieldsIn(Message(records)) == Ok((Meanings(records), 0))
  {
    hide FieldIn;
    if |records| > 0 {
      var rest := Message(records[1..]);
      RecordInverts(records[0], rest);
      MessageInverts(records[1..]);
      assert Message(records)[|records[0].Encoded()|..] == rest;
    }
  }

  /** `fields_of` gives back, for every list of records, each field number's values in order and no
      number besides. */
  lemma FieldsOfInverts(records: seq<Record>)
    requires forall r :: r in records ==> r.Valid()
    ensures FieldsOf(Message(records)) == Ok(Grouped(Meanings(records)))
    ensures Grouped(Meanings(records)).Keys == set r | r in records :: r.number
  {
    hide Message, FieldsIn, Meanings, ValuesOf;
    MessageInverts(records);
    MeantNumbers(records);
  }

  /** How many of the first `k` fields are of a number. */
  function Earlier(fields: seq<Field>, number: nat, k: nat): nat
    requires k <= |fields|
  {
    if k == 0 then 0 else Earlier(fields, number, k - 1) + if fields[k - 1].number == number then 1 else 0
  }

  lemma {:induction false} ValuesUpTo(fields: seq<Field>, number: nat, k: nat)
    requires k <= |fields|
    ensures |ValuesOf(fields[..k], number)| == Earlier(fields, number, k)
    decreases k
  {
    if k > 0 {
      ValuesUpTo(fields, number, k - 1);
      assert fields[..k] == fields[..k - 1] + [fields[k - 1]];
      ValuesAppend(fields[..k - 1], [fields[k - 1]], number);
      assert [fields[k - 1]][1..] == [];
    }
  }

  lemma FirstValue(fields: seq<Field>, number: nat)
    requires |fields| > 0 && fields[0].number == number
    ensures |ValuesOf(fields, number)| > 0 && ValuesOf(fields, number)[0] == fields[0].value
  {
  }

  lemma GroupedHolds(fields: seq<Field>, field: Field)
    requires field in fields
    ensures field.number in Grouped(fields) && Grouped(fields)[field.number] == ValuesOf(fields, field.number)
  {
    hide ValuesOf;
  }

  /** In the dictionary, a field's value stands behind those of the fields of its number before it, and there
      are no others. */
  lemma ValueStands(fields: seq<Field>, k: nat)
    requires k < |fields|
    ensures var number := fields[k].number;
            && number in Grouped(fields) && |Grouped(fields)[number]| == Earlier(fields, number, |fields|)
            && Earlier(fields, number, k) < |Grouped(fields)[number]|
            && Grouped(fields)[number][Earlier(fields, number, k)] == fields[k].value
  {
    hide Earlier, ValuesOf, Grouped;
    var number, before, rest := fields[k].number, fields[..k], fields[k..];
    assert fields == before + rest && fields[..|fields|] == fields && rest[0] == fields[k];
    GroupedHolds(fields, fields[k]);
    ValuesUpTo(fields, number, k);
    ValuesUpTo(fields, number, |fields|);
    ValuesAppend(before, rest, number);
    FirstValue(rest, number);
  }

  lemma {:induction false} MeantNumbers(records: seq<Record>)
    ensures Numbers(Meanings(records)) == set r | r in records :: r.number
  {
    if |records| > 0 {
      MeantNumbers(records[1..]);
      var fields := Meanings(records);
      assert fields == [records[0].Meant()] + Meanings(records[1..]);
      assert forall f :: f in fields <==> f == fields[0] || f in fields[1..];
      assert forall r :: r in records <==> r == records[0] || r in records[1..];
      assert Numbers(fields) == {fields[0].number} + Numbers(fields[1..]);
    }
  }

  // ---- a message read in two halves ----

  /** A message whose last field is whole. */
  predicate Complete(message: seq<Byte>) {
    FieldsIn(message).Ok? && FieldsIn(message).value.1 == 0
  }

  /** Two dictionaries, each number's values of the first before those of the second. */
  function Merged(a: Fields, b: Fields): Fields {
    map n | n in a.Keys + b.Keys :: (if n in a then a[n] else []) + (if n in b then b[n] else [])
  }

  function MergedResults(a: Result<Fields>, b: Result<Fields>): Result<Fields> {
    match a
    case Err(e) => Err(e)
    case Ok(fa) =>
      match b
      case Err(e) => Err(e)
      case Ok(fb) => Ok(Merged(fa, fb))
  }

  lemma {:induction false} VarintPrefix(a: seq<Byte>, b: seq<Byte>)
    requires VarintIn(a).Ok?
    ensures VarintIn(a + b) == VarintIn(a)
  {
    if a[0] >= 128 {
      VarintPrefix(a[1..], b);
      assert (a + b)[1..] == a[1..] + b;
    }
  }

  lemma TakePrefix(a: seq<Byte>, b: seq<Byte>, n: nat)
    requires n <= |a|
    ensures Take(a + b, n) == Take(a, n)
  {
  }

  lemma ValuePrefix(wire: nat, a: seq<Byte>, b: seq<Byte>)
    requires ValueIn(wire, a).Ok?
    ensures ValueIn(wire, a + b).Ok? && ValueIn(wire, a + b).value.1 == ValueIn(wire, a).value.1
    ensures ValueIn(wire, a).value.1 <= |a| ==> ValueIn(wire, a + b) == ValueIn(wire, a)
  {
    hide VarintIn, Take;
    if wire == 0 {
      VarintPrefix(a, b);
    } else if wire == 2 {
      VarintPrefix(a, b);
      var (length, used) := VarintIn(a).value;
      assert (a + b)[used..] == a[used..] + b;
      if used + length <= |a| {
        TakePrefix(a[used..], b, length);
      }
    } else if wire == 1 && 8 <= |a| {
      TakePrefix(a, b, 8);
    } else if wire == 5 && 4 <= |a| {
      TakePrefix(a, b, 4);
    }
  }

  lemma FieldPrefix(a: seq<Byte>, b: seq<Byte>)
    requires FieldIn(a).Ok?
    ensures FieldIn(a + b).Ok? && FieldIn(a + b).value.1 == FieldIn(a).value.1
    ensures FieldIn(a).value.1 <= |a| ==> FieldIn(a + b) == FieldIn(a)
  {
    hide VarintIn;
    hide ValueIn;
    VarintPrefix(a, b);
    var (key, used) := VarintIn(a).value;
    assert (a + b)[used..] == a[used..] + b;
    ValuePrefix(key % 8, a[used..], b);
  }

  lemma {:induction false} FieldsConcat(a: seq<Byte>, b: seq<Byte>)
    requires Complete(a)
    ensures FieldsIn(a + b) == After(FieldsIn(a).value.0, FieldsIn(b))
    decreases |a|
  {
    hide FieldIn;
    if |a| == 0 {
      assert a + b == b;
      if FieldsIn(b).Ok? {
        assert [] + FieldsIn(b).value.0 == FieldsIn(b).value.0;
      }
    } else {
      FieldPrefix(a, b);
      var (field, used) := FieldIn(a).value;
      FieldsConcat(a[used..], b);
      assert (a + b)[used..] == a[used..] + b;
      if FieldsIn(b).Ok? {
        var rest, more := FieldsIn(a[used..]).value.0, FieldsIn(b).value.0;
        assert [field] + (rest + more) == [field] + rest + more;
      }
    }
  }

  lemma GroupedConcat(a: seq<Field>, b: seq<Field>)
    ensures Grouped(a + b) == Merged(Grouped(a), Grouped(b))
  {
    assert forall f :: f in a + b <==> f in a || f in b;
    assert Numbers(a + b) == Numbers(a) + Numbers(b);
    forall n | n in Numbers(a + b)
      ensures Grouped(a + b)[n] == Merged(Grouped(a), Grouped(b))[n]
    {
      ValuesAppend(a, b, n);
      NoValues(a, n);
      NoValues(b, n);
    }
  }

  /** Two dictionaries merged, number by number: the first's values, then the second's. */
  lemma MergedSays(a: Fields, b: Fields, number: nat)
    ensures number in Merged(a, b) <==> number in a || number in b
    ensures number in a && number in b ==> Merged(a, b)[number] == a[number] + b[number]
    ensures number in a && number !in b ==> Merged(a, b)[number] == a[number]
    ensures number !in a && number in b ==> Merged(a, b)[number] == b[number]
  {
  }

  /** A message cut short still reads whole with one byte more, its last field's bytes that byte longer. */
  lemma {:induction false} CutShortReadsOn(a: seq<Byte>)
    requires FieldsIn(a).Ok? && FieldsIn(a).value.1 > 0
    ensures FieldsIn(a + [0]).Ok?
    decreases |a|
  {
    hide FieldIn;
    FieldPrefix(a, [0]);
    var (field, used) := FieldIn(a).value;
    if used <= |a| {
      assert (a + [0])[used..] == a[used..] + [0];
      CutShortReadsOn(a[used..]);
    }
  }

  /** `fields_of(a ++ b)` is, for every `b`, the dictionary of `a` with that of `b` appended number by
      number, and fails as `b` does, exactly when the message `a` is complete. */
  lemma ConcatenationExactly(a: seq<Byte>)
    requires FieldsOf(a).Ok?
    ensures (forall b: seq<Byte> :: FieldsOf(a + b) == MergedResults(FieldsOf(a), FieldsOf(b))) <==> Complete(a)
  {
    hide Grouped, FieldIn, FieldsIn;
    if Complete(a) {
      forall b: seq<Byte>
        ensures FieldsOf(a + b) == MergedResults(FieldsOf(a), FieldsOf(b))
      {
        FieldsConcat(a, b);
        if FieldsIn(b).Ok? {
          GroupedConcat(FieldsIn(a).value.0, FieldsIn(b).value.0);
        }
      }
    } else {
      CutShortReadsOn(a);
      LoneKey();
      assert FieldsOf(a + [0]) != MergedResults(FieldsOf(a), FieldsOf([0]));
    }
  }

  /** A record of two bytes cut short before the first, then a whole record of one number: read as one record
      holding the second's bytes, where the two messages apart are an empty value and the number. */
  lemma CutShortTakesOn()
    ensures FieldsIn([0x0a, 2]) == Ok(([Field(1, Raw([]))], 2)) && FieldsIn([8, 1]) == Ok(([Field(1, Number(1))], 0))
    ensures FieldsIn([0x0a, 2] + [8, 1]) == Ok(([Field(1, Raw([8, 1]))], 0))
    ensures !Complete([0x0a, 2])
    ensures FieldsOf([0x0a, 2] + [8, 1]) != MergedResults(FieldsOf([0x0a, 2]), FieldsOf([8, 1]))
  {
    CutShortFields();
    WholeRecord();
    TakenOnRecord();
    FieldsOfOne(Field(1, Raw([])));
    FieldsOfOne(Field(1, Number(1)));
    FieldsOfOne(Field(1, Raw([8, 1])));
    hide FieldsIn, Grouped;
    var merged := Merged(map[1 := [Raw([])]], map[1 := [Number(1)]]);
    assert merged[1] == [Raw([])] + [Number(1)];
    var taken: Fields := map[1 := [Raw([8, 1])]];
    assert |merged[1]| == 2 && |taken[1]| == 1;
  }

  lemma CutShortFields()
    ensures FieldsIn([0x0a, 2]) == Ok(([Field(1, Raw([]))], 2))
  {
    var data := [0x0a, 2];
    assert data[1..] == [2] && [2][1..] == [];
    assert VarintIn(data) == Ok((10, 1)) && VarintIn([2]) == Ok((2, 1));
    assert Take([], 2) == [];
    assert ValueIn(2, [2]) == Ok((Raw([]), 3));
    assert FieldIn(data) == Ok((Field(1, Raw([])), 4));
    hide FieldIn;
  }

  lemma WholeRecord()
    ensures FieldsIn([8, 1]) == Ok(([Field(1, Number(1))], 0))
  {
    hide FieldsIn;
    var record := VarintRecord(1, 1);
    assert record.Encoded() == [8, 1];
    OneRecord(record);
  }

  lemma TakenOnRecord()
    ensures FieldsIn([0x0a, 2] + [8, 1]) == Ok(([Field(1, Raw([8, 1]))], 0))
  {
    hide FieldsIn;
    var record := Len(1, [8, 1]);
    assert record.Encoded() == [0x0a] + ([2] + [8, 1]);
    assert record.Encoded() == [0x0a, 2] + [8, 1];
    OneRecord(record);
  }

  lemma OneRecord(record: Record)
    requires record.Valid()
    ensures FieldsIn(record.Encoded()) == Ok(([record.Meant()], 0))
  {
    hide FieldsIn;
    MessageInverts([record]);
    assert [record][1..] == [];
    assert Message([]) == [] && Meanings([]) == [];
    assert Message([record]) == record.Encoded();
    assert Meanings([record]) == [record.Meant()];
  }

  lemma FieldsOfOne(field: Field)
    ensures Grouped([field]) == map[field.number := [field.value]]
  {
    NothingSeen([]);
    GroupedAppends([], field);
    assert [] + [field] == [field] && [] + [field.value] == [field.value];
  }

  lemma LoneKey()
    ensures FieldsOf([0]) == Err(EndOfMessage)
  {
    assert VarintIn([0]) == Ok((0, 1));
    assert [0][1..] == [];
  }

  // ---- packed, unpacked and mixed forms ----

  /** A part of a repeated enum: one value in a record of its own, or several packed in one. */
  datatype Part = One(n: nat) | Several(ns: seq<nat>) {
    function Levels(): seq<nat> {
      if One? then [n] else ns
    }

    function AsRecord(number: nat): (r: Record)
      ensures r.Valid() && r.number == number
    {
      if One? then VarintRecord(number, n) else Len(number, Packed(ns))
    }
  }

  /** What a message holds: parts of the enum, and records of other fields between them. */
  datatype Item = Enum(part: Part) | Beside(record: Record) {
    predicate Fits(number: nat) {
      Beside? ==> record.Valid() && record.number != number
    }

    function AsRecord(number: nat): Record {
      if Enum? then part.AsRecord(number) else record
    }
  }

  function PartsOf(items: seq<Item>): seq<Part> {
    if |items| == 0 then []
    else (if items[0].Enum? then [items[0].part] else []) + PartsOf(items[1..])
  }

  function AllLevels(parts: seq<Part>): seq<nat> {
    if |parts| == 0 then [] else parts[0].Levels() + AllLevels(parts[1..])
  }

  function AsRecords(items: seq<Item>, number: nat): (rs: seq<Record>)
    ensures |rs| == |items|
    ensures forall i :: 0 <= i < |items| ==> rs[i] == items[i].AsRecord(number)
  {
    if |items| == 0 then [] else [items[0].AsRecord(number)] + AsRecords(items[1..], number)
  }

  lemma {:induction false} PackedInverts(ns: seq<nat>)
    ensures VarintsIn(Packed(ns)) == Ok(ns)
  {
    hide VarintIn;
    if |ns| > 0 {
      VarintInverts(ns[0], Packed(ns[1..]));
      PackedInverts(ns[1..]);
      assert [ns[0]] + ns[1..] == ns;
      assert Packed(ns)[|EncodedVarint(ns[0])|..] == Packed(ns[1..]);
    }
  }

  /** The values the enum's field has in a message: a part each. */
  function PartValues(parts: seq<Part>): seq<Value> {
    if |parts| == 0 then [] else [parts[0].AsRecord(0).Meant().value] + PartValues(parts[1..])
  }

  lemma {:induction false} ItemValues(items: seq<Item>, number: nat)
    requires forall i :: i in items ==> i.Fits(number)
    ensures ValuesOf(Meanings(AsRecords(items, number)), number) == PartValues(PartsOf(items))
  {
    hide Packed;
    if |items| > 0 {
      ItemValues(items[1..], number);
      var records := AsRecords(items, number);
      var fields := Meanings(records);
      assert records[1..] == AsRecords(items[1..], number);
      assert fields[1..] == Meanings(AsRecords(items[1..], number));
      assert items[0] in items;
      assert fields[0] == records[0].Meant();
      PartValueAlike(items[0], number);
      if items[0].Enum? {
        assert PartsOf(items) == [items[0].part] + PartsOf(items[1..]);
        assert PartsOf(items)[1..] == PartsOf(items[1..]);
      } else {
        assert PartsOf(items) == PartsOf(items[1..]);
        assert ValuesOf(fields, number) == ValuesOf(fields[1..], number);
      }
    }
  }

  lemma PartValueAlike(item: Item, number: nat)
    ensures item.Enum? ==> item.AsRecord(number).Meant() == Field(number, item.part.AsRecord(0).Meant().value)
    ensures item.Beside? ==> item.AsRecord(number).Meant().number == item.record.number
  {
    hide Packed;
  }

  lemma LevelsOfOne(value: Value)
    ensures LevelsOf([]) == Ok([])
    ensures LevelsOf([value]) == LevelsAt(value)
  {
    hide VarintsIn;
    assert [value][1..] == [];
    var one := LevelsAt(value);
    assert one.Ok? ==> one.value + [] == one.value;
  }

  /** One value alone is its number, or its packed numbers; and the values of two lists end to end are those
      of the first and then of the second. */
  lemma LevelsSay(n: nat, ns: seq<nat>, a: seq<Value>, b: seq<Value>)
    ensures LevelsOf([Number(n)]) == Ok([n]) && LevelsOf([Raw(Packed(ns))]) == Ok(ns)
    ensures LevelsOf(a).Ok? && LevelsOf(b).Ok? ==> LevelsOf(a + b) == Ok(LevelsOf(a).value + LevelsOf(b).value)
  {
    LevelsOfOne(Number(n));
    LevelsOfOne(Raw(Packed(ns)));
    PackedInverts(ns);
    hide VarintsIn, Packed, LevelsOf;
    if LevelsOf(a).Ok? && LevelsOf(b).Ok? {
      LevelsConcat(a, b);
    }
  }

  lemma LevelsHead(values: seq<Value>)
    requires |values| > 0
    ensures LevelsOf(values).Ok? <==> LevelsAt(values[0]).Ok? && LevelsOf(values[1..]).Ok?
    ensures LevelsOf(values).Ok? ==> LevelsOf(values).value == LevelsAt(values[0]).value + LevelsOf(values[1..]).value
  {
    hide VarintsIn;
  }

  lemma NoLevels(a: seq<Value>, b: seq<Value>)
    requires |a| == 0
    ensures a + b == b && LevelsOf(a) == Ok([])
  {
  }

  lemma Regrouped(a: seq<nat>, b: seq<nat>, c: seq<nat>)
    ensures a + (b + c) == a + b + c && [] + c == c
  {
  }

  lemma HeadOfBoth(a: seq<Value>, b: seq<Value>)
    requires |a| > 0
    ensures (a + b)[0] == a[0] && (a + b)[1..] == a[1..] + b
  {
  }

  lemma {:induction false} LevelsConcat(a: seq<Value>, b: seq<Value>)
    requires LevelsOf(a).Ok? && LevelsOf(b).Ok?
    ensures LevelsOf(a + b).Ok? && LevelsOf(a + b).value == LevelsOf(a).value + LevelsOf(b).value
  {
    hide LevelsOf, LevelsAt;
    if |a| == 0 {
      NoLevels(a, b);
      Regrouped([], [], LevelsOf(b).value);
    } else {
      LevelsHead(a);
      LevelsConcat(a[1..], b);
      HeadOfBoth(a, b);
      LevelsHead(a + b);
      Regrouped(LevelsAt(a[0]).value, LevelsOf(a[1..]).value, LevelsOf(b).value);
    }
  }

  lemma {:induction false} PartsInvert(parts: seq<Part>)
    ensures LevelsOf(PartValues(parts)) == Ok(AllLevels(parts))
  {
    hide VarintsIn, Packed;
    if |parts| > 0 {
      PartsInvert(parts[1..]);
      if parts[0].Several? {
        PackedInverts(parts[0].ns);
      }
      var values := PartValues(parts);
      assert values[1..] == PartValues(parts[1..]);
    }
  }

  lemma ItemsAreValid(items: seq<Item>, number: nat)
    requires forall i :: i in items ==> i.Fits(number)
    ensures forall r :: r in AsRecords(items, number) ==> r.Valid()
  {
    var records := AsRecords(items, number);
    forall k | 0 <= k < |records|
      ensures records[k].Valid()
    {
      assert items[k] in items;
      PartsAreValid(items[k], number);
    }
  }

  lemma PartsAreValid(item: Item, number: nat)
    requires item.Fits(number)
    ensures item.AsRecord(number).Valid()
  {
  }

  /** A repeated enum's values, written packed, unpacked or partly each, among records of any other fields, are
      read back in order from the message that holds them: by `fields_of`, then by `levels_of`; and the field
      is not there exactly where no part of it is. */
  lemma LevelsInvert(items: seq<Item>, number: nat)
    requires forall i :: i in items ==> i.Fits(number)
    ensures var read := FieldsOf(Message(AsRecords(items, number)));
            && read.Ok?
            && (number in read.value <==> PartsOf(items) != [])
            && (number in read.value ==> LevelsOf(read.value[number]) == Ok(AllLevels(PartsOf(items))))
  {
    hide FieldsOf, Message, LevelsOf, Meanings, AsRecords, ValuesOf, PartValues, PartsOf;
    ItemsAreValid(items, number);
    FieldsOfInverts(AsRecords(items, number));
    NoValues(Meanings(AsRecords(items, number)), number);
    ItemValues(items, number);
    PartsInvert(PartsOf(items));
    PartValuesLength(PartsOf(items));
  }

  lemma PartValuesLength(parts: seq<Part>)
    ensures |PartValues(parts)| == |parts|
  {
  }
}
