/** Decoding Firestore's tagged values into plain JSON, and putting an unordered batch back in order. */
module Firestore {
  import opened Common

  // ---------------------------------------------------------------------------------------------
  // Plain and tagged values

  /** JSON as the decoder sees it. An object lists its members in iteration order; a number that is not an
      integer keeps its text. */
  datatype Json =
    | Null
    | Bool(b: bool)
    | Int(i: int)
    | Float(text: string)
    | Str(s: string)
    | Arr(items: seq<Json>)
    | Obj(members: seq<Member>)

  datatype Member = Member(name: string, value: Json)

  function Get(members: seq<Member>, name: string): Option<Json> {
    if members == [] then None
    else if members[0].name == name then Some(members[0].value)
    else Get(members[1..], name)
  }

  const MIN_I64: int := -0x8000_0000_0000_0000
  const MAX_I64: int := 0x7FFF_FFFF_FFFF_FFFF

  predicate IsDigit(c: char) {
    '0' <= c <= '9'
  }

  function DigitValue(c: char): int {
    c as int - '0' as int
  }

  /** The number some digits spell, if that is all there is and there is at least one. */
  function ParseDigits(s: string): Option<nat>
    decreases |s|
  {
    if s == "" then None
    else
      var c := s[|s| - 1];
      if !IsDigit(c) then None
      else if |s| == 1 then Some(DigitValue(c) as nat)
      else match ParseDigits(s[..|s| - 1])
        case None => None
        case Some(n) => Some(10 * n + DigitValue(c))
  }

  /** `str::parse::<i64>`. */
  function ParseI64(s: string): Option<int> {
    if s == "" then None
    else
      var magnitude := ParseDigits(if s[0] == '-' || s[0] == '+' then s[1..] else s);
      if magnitude.None? then None
      else
        var m: int := magnitude.value;
        var i := if s[0] == '-' then -m else m;
        if MIN_I64 <= i <= MAX_I64 then Some(i) else None
  }

  /** `one`: a tagged value, decoded by its first tag. */
  function One(value: Json): Json
    decreases value
  {
    if !value.Obj? || value.members == [] then Null
    else
      var tag, inner := value.members[0].name, value.members[0].value;
      if tag == "nullValue" then Null
      else if tag == "integerValue" then
        if inner.Str? && ParseI64(inner.s).Some? then Int(ParseI64(inner.s).value) else inner
      else if tag == "arrayValue" then
        if inner.Obj? && Get(inner.members, "values").Some? && Get(inner.members, "values").value.Arr?
        then GetSmaller(inner, "values"); Arr(Each(Get(inner.members, "values").value.items)) else Arr([])
      else if tag == "mapValue" then
        if inner.Obj? && Get(inner.members, "fields").Some?
        then GetSmaller(inner, "fields"); ToJson(Get(inner.members, "fields").value) else Obj([])
      else inner
  }

  function Each(items: seq<Json>): seq<Json>
    decreases items
  {
    if items == [] then [] else [One(items[0])] + Each(items[1..])
  }

  /** `to_json`: a `fields` map, member by member. */
  function ToJson(fields: Json): Json
    decreases fields
  {
    if fields.Obj? then Obj(EachMember(fields.members)) else Obj([])
  }

  function EachMember(members: seq<Member>): seq<Member>
    decreases members
  {
    if members == [] then [] else [Member(members[0].name, One(members[0].value))] + EachMember(members[1..])
  }

  lemma {:induction false} GetSmaller(value: Json, name: string)
    requires value.Obj? && Get(value.members, name).Some?
    ensures Get(value.members, name).value < value
  {
    GetIs(value.members, name);
  }

  lemma {:induction false} GetIs(members: seq<Member>, name: string)
    requires Get(members, name).Some?
    ensures exists i :: 0 <= i < |members| && members[i].value == Get(members, name).value
  {
    if members[0].name != name {
      GetIs(members[1..], name);
      var i :| 0 <= i < |members[1..]| && members[1..][i].value == Get(members, name).value;
      assert members[i + 1].value == Get(members, name).value;
    }
  }

  /** `to_json`'s own loop over the members. */
  method DecodeFields(fields: Json) returns (decoded: Json)
    ensures decoded == ToJson(fields)
  {
    if !fields.Obj? {
      return Obj([]);
    }
    var out: seq<Member> := [];
    for i := 0 to |fields.members|
      invariant out + EachMember(fields.members[i..]) == EachMember(fields.members)
    {
      var member := fields.members[i];
      assert fields.members[i..][0] == member && fields.members[i..][1..] == fields.members[i + 1..];
      out := out + [Member(member.name, One(member.value))];
    }
    decoded := Obj(out);
  }

  // ---------------------------------------------------------------------------------------------
  // What is encoded

  datatype Value =
    | NullValue
    | BooleanValue(b: bool)
    | IntegerValue(i: int)
    | DoubleValue(text: string)
    | StringValue(s: string)
    | ArrayValue(items: seq<Value>)
    | MapValue(fields: seq<Field>)
    | OtherValue(tag: string, form: Json)

  datatype Field = Field(name: string, value: Value)

  const Tags := {"nullValue", "booleanValue", "integerValue", "doubleValue", "stringValue", "arrayValue", "mapValue"}

  /** Integers are 64-bit, and a value of another type has a tag of its own. */
  predicate Valid(v: Value) {
    match v
    case IntegerValue(i) => MIN_I64 <= i <= MAX_I64
    case ArrayValue(items) => forall i :: 0 <= i < |items| ==> Valid(items[i])
    case MapValue(fields) => forall i :: 0 <= i < |fields| ==> Valid(fields[i].value)
    case OtherValue(tag, _) => tag !in Tags
    case _ => true
  }

  function Digit(n: nat): char
    requires n < 10
  {
    ('0' as int + n) as char
  }

  function Digits(n: nat): (s: string)
    ensures s != "" && forall i :: 0 <= i < |s| ==> IsDigit(s[i])
  {
    if n < 10 then [Digit(n)] else Digits(n / 10) + [Digit(n % 10)]
  }

  function Decimal(i: int): string {
    if i < 0 then "-" + Digits(-i) else Digits(i)
  }

  function Tagged(tag: string, inner: Json): Json {
    Obj([Member(tag, inner)])
  }

  /** The REST encoding. `terse` leaves an empty array or map without its inner member. */
  function Encode(v: Value, terse: bool): Json
    decreases v
  {
    match v
    case NullValue => Tagged("nullValue", Null)
    case BooleanValue(b) => Tagged("booleanValue", Bool(b))
    case IntegerValue(i) => Tagged("integerValue", Str(Decimal(i)))
    case DoubleValue(text) => Tagged("doubleValue", Float(text))
    case StringValue(text) => Tagged("stringValue", Str(text))
    case ArrayValue(items) =>
      Tagged("arrayValue", Obj(if terse && items == [] then [] else [Member("values", Arr(EncodeEach(items, terse)))]))
    case MapValue(fields) =>
      Tagged("mapValue", Obj(if terse && fields == [] then [] else [Member("fields", Obj(EncodeFields(fields, terse)))]))
    case OtherValue(tag, form) => Tagged(tag, form)
  }

  function EncodeEach(items: seq<Value>, terse: bool): seq<Json>
    decreases items
  {
    if items == [] then [] else [Encode(items[0], terse)] + EncodeEach(items[1..], terse)
  }

  function EncodeFields(fields: seq<Field>, terse: bool): seq<Member>
    decreases fields
  {
    if fields == [] then []
    else [Member(fields[0].name, Encode(fields[0].value, terse))] + EncodeFields(fields[1..], terse)
  }

  /** The value as a configuration file would have held it. */
  function Plain(v: Value): Json
    decreases v
  {
    match v
    case NullValue => Null
    case BooleanValue(b) => Bool(b)
    case IntegerValue(i) => Int(i)
    case DoubleValue(text) => Float(text)
    case StringValue(text) => Str(text)
    case ArrayValue(items) => Arr(PlainEach(items))
    case MapValue(fields) => Obj(PlainFields(fields))
    case OtherValue(_, form) => form
  }

  function PlainEach(items: seq<Value>): seq<Json>
    decreases items
  {
    if items == [] then [] else [Plain(items[0])] + PlainEach(items[1..])
  }

  function PlainFields(fields: seq<Field>): seq<Member>
    decreases fields
  {
    if fields == [] then [] else [Member(fields[0].name, Plain(fields[0].value))] + PlainFields(fields[1..])
  }

  // ---------------------------------------------------------------------------------------------
  // Decoding inverts encoding

  lemma {:induction false} DigitsParse(n: nat)
    ensures ParseDigits(Digits(n)) == Some(n)
  {
    if n >= 10 {
      DigitsParse(n / 10);
      var s := Digits(n);
      assert s[..|s| - 1] == Digits(n / 10) && s[|s| - 1] == Digit(n % 10);
    }
  }

  predicate AllDigits(s: string) {
    s != "" && forall i :: 0 <= i < |s| ==> IsDigit(s[i])
  }

  lemma {:induction false} ParsesDigits(s: string)
    ensures ParseDigits(s).Some? <==> AllDigits(s)
    decreases |s|
  {
    if s != "" {
      var front := s[..|s| - 1];
      assert s == front + [s[|s| - 1]];
      if front != "" {
        ParsesDigits(front);
      }
    }
  }

  /** The sign taken off, if there is one. */
  function Magnitude(s: string): string {
    if s != "" && (s[0] == '-' || s[0] == '+') then s[1..] else s
  }

  /** A string is an integer exactly when it is an optional sign and digits, and what they spell fits 64 bits. */
  lemma ParsesExactly(s: string)
    ensures ParseI64(s).Some? <==>
      && AllDigits(Magnitude(s))
      && ParseDigits(Magnitude(s)).Some?
      && (if s[0] == '-' then ParseDigits(Magnitude(s)).value <= 0x8000_0000_0000_0000
          else ParseDigits(Magnitude(s)).value < 0x8000_0000_0000_0000)
  {
    ParsesDigits(Magnitude(s));
  }

  /** What is not the tagged encoding: no object or an empty one is null, an integer that does not parse stays as
      it is, and an array or a map without its inner member is empty. */
  lemma OffTheFormat(value: Json)
    ensures !value.Obj? || value.members == [] ==> One(value) == Null
    ensures value.Obj? && value.members != [] ==>
      var tag, inner := value.members[0].name, value.members[0].value;
      && (tag == "integerValue" && !(inner.Str? && ParseI64(inner.s).Some?) ==> One(value) == inner)
      && (tag == "arrayValue" && !(inner.Obj? && Get(inner.members, "values").Some? && Get(inner.members, "values").value.Arr?)
          ==> One(value) == Arr([]))
      && (tag == "mapValue" && !(inner.Obj? && Get(inner.members, "fields").Some? && Get(inner.members, "fields").value.Obj?)
          ==> One(value) == Obj([]))
      && (tag !in {"nullValue", "integerValue", "arrayValue", "mapValue"} ==> One(value) == inner)
  {
  }

  /** Every 64-bit integer survives its decimal string. */
  lemma DecimalParses(i: int)
    requires MIN_I64 <= i <= MAX_I64
    ensures ParseI64(Decimal(i)) == Some(i)
  {
    if i < 0 {
      var digits := Digits(-i);
      DigitsParse(-i);
      assert ("-" + digits)[0] == '-' && ("-" + digits)[1..] == digits;
    } else {
      DigitsParse(i);
      assert IsDigit(Digits(i)[0]);
    }
  }

  /** Decoding a tagged value gives the plain value, however deeply it is nested. */
  lemma {:induction false} DecodeInvertsEncode(v: Value, terse: bool)
    requires Valid(v)
    ensures One(Encode(v, terse)) == Plain(v)
    decreases v
  {
    match v {
      case IntegerValue(i) => DecimalParses(i);
      case ArrayValue(items) =>
        EachInverts(items, terse);
        if !(terse && items == []) {
          var inner := Encode(v, terse).members[0].value;
          assert Get(inner.members, "values") == Some(Arr(EncodeEach(items, terse)));
        }
      case MapValue(fields) =>
        FieldsInvert(fields, terse);
        if !(terse && fields == []) {
          var inner := Encode(v, terse).members[0].value;
          assert Get(inner.members, "fields") == Some(Obj(EncodeFields(fields, terse)));
        }
      case _ =>
    }
  }

  lemma {:induction false} EachInverts(items: seq<Value>, terse: bool)
    requires forall i :: 0 <= i < |items| ==> Valid(items[i])
    ensures Each(EncodeEach(items, terse)) == PlainEach(items)
    decreases items
  {
    if items != [] {
      DecodeInvertsEncode(items[0], terse);
      EachInverts(items[1..], terse);
      assert EncodeEach(items, terse)[1..] == EncodeEach(items[1..], terse);
    }
  }

  lemma {:induction false} FieldsInvert(fields: seq<Field>, terse: bool)
    requires forall i :: 0 <= i < |fields| ==> Valid(fields[i].value)
    ensures EachMember(EncodeFields(fields, terse)) == PlainFields(fields)
    decreases fields
  {
    if fields != [] {
      DecodeInvertsEncode(fields[0].value, terse);
      FieldsInvert(fields[1..], terse);
      assert EncodeFields(fields, terse)[1..] == EncodeFields(fields[1..], terse);
    }
  }
}
