/** JSON values as the Python program holds them, and what they mean. */
module Json {
  import opened Prelude
  import opened Decimal
  import opened Binary64

  /** A Python float. */
  datatype Double = NaN | Infinite(neg: bool) | Zero(neg: bool) | Finite(neg: bool, size: Magnitude) {
    ghost predicate Valid() {
      Finite? ==> size.Valid() && size.mant > 0
    }
  }

  /** A dict is the sequence of its members in insertion order. */
  datatype Json =
    | Null
    | Bool(b: bool)
    | Int(n: int)
    | Float(x: Double)
    | Str(s: string)
    | Arr(items: seq<Json>)
    | Obj(members: seq<Member>)

  datatype Member = Member(key: string, value: Json)

  ghost predicate DistinctKeys(members: seq<Member>)
  {
    forall i, j | 0 <= i < j < |members| :: members[i].key != members[j].key
  }

  /** A value the program can really hold: valid floats, and dict keys that do not repeat. */
  ghost predicate WellFormed(v: Json)
  {
    match v
    case Float(x) => x.Valid()
    case Arr(items) => forall i | 0 <= i < |items| :: WellFormed(items[i])
    case Obj(members) => DistinctKeys(members) && forall i | 0 <= i < |members| :: WellFormed(members[i].value)
    case _ => true
  }

  /** No NaN and no infinity anywhere inside. */
  predicate Serializable(v: Json)
  {
    match v
    case Float(x) => !x.NaN? && !x.Infinite?
    case Arr(items) => forall i | 0 <= i < |items| :: Serializable(items[i])
    case Obj(members) => forall i | 0 <= i < |members| :: Serializable(members[i].value)
    case _ => true
  }

  /** What a JSON value says, numbers as reals and objects without member order. */
  datatype Value =
    | VNull
    | VBool(b: bool)
    | VNum(r: real)
    | VStr(s: string)
    | VArr(items: seq<Value>)
    | VObj(members: map<string, Value>)

  /** The exact value of a float. */
  ghost function NumberOf(x: Double): real
  {
    if x.Finite? then Signed(x.neg, x.size.Value()) else 0.0
  }

  /** The number that the digits of a float denote. */
  ghost function DecimalOf(repr: Repr, x: Double): real
  {
    if x.Finite? then Signed(x.neg, repr(x.size).Value()) else 0.0
  }

  ghost function Written(repr: Repr): Double -> real
  {
    x => DecimalOf(repr, x)
  }

  /** The value with floats read by num: as they are, or as they are written. */
  ghost function ValueOf(num: Double -> real, v: Json): Value
    requires Serializable(v)
    decreases v
  {
    match v
    case Null => VNull
    case Bool(b) => VBool(b)
    case Int(n) => VNum(n as real)
    case Float(x) => VNum(num(x))
    case Str(s) => VStr(s)
    case Arr(items) => VArr(ItemValues(num, v, items))
    case Obj(members) => VObj(MemberValues(num, v, members))
  }

  ghost function ItemValues(num: Double -> real, context: Json, items: seq<Json>): seq<Value>
    requires forall x | x in items :: x < context && Serializable(x)
    decreases context, |items|
  {
    if items == [] then []
    else
      assert forall x | x in items[1..] :: x in items;
      [ValueOf(num, items[0])] + ItemValues(num, context, items[1..])
  }

  ghost function MemberValues(num: Double -> real, context: Json, members: seq<Member>): map<string, Value>
    requires forall m | m in members :: m.value < context && Serializable(m.value)
    decreases context, |members|
  {
    if members == [] then map[]
    else
      assert forall m | m in members[1..] :: m in members;
      MemberValues(num, context, members[1..])[members[0].key := ValueOf(num, members[0].value)]
  }
}
