/** Values shared by every part of the model: an optional value standing for
    Java's nullable references, and a small model of the Java objects the
    middleware passes around (boxed scalars, strings, dates, beans, lists). */
module Base {

  datatype Option<+T> = None | Some(value: T)

  /** The outcome of a Java call that either returns a value or throws. */
  datatype Try<+T, +E> = Ok(value: T) | Err(error: E)

  /** An octet. */
  type byte = x: int | 0 <= x < 256

  const INT32_MIN: int := -0x8000_0000
  const INT32_MAX: int := 0x7FFF_FFFF
  const TWO32: int := 0x1_0000_0000

  /** The range of a Java `int`. */
  predicate IsInt32(v: int)
  {
    INT32_MIN <= v <= INT32_MAX
  }

  /** Java's `int` arithmetic: the exact result reduced to 32-bit two's
      complement. */
  function Wrap32(x: int): (v: int)
    ensures IsInt32(v) && (v - x) % TWO32 == 0
    ensures IsInt32(x) ==> v == x
  {
    var m := x % TWO32;
    if m > INT32_MAX then m - TWO32 else m
  }

  /** A Java object as the middleware sees it.  `Null` is Java's `null`;
      `DateV` is a `java.util.Date`, and `sqlDate` tells whether it is the
      `java.sql.Date` subclass; `ObjV` is a bean of class `cls` with its
      declared fields in declaration order. */
  datatype Value =
    | Null
    | ShortV(s: int)
    | IntV(i: int)
    | LongV(l: int)
    | BoolV(b: bool)
    | StrV(str: string)
    | DateV(sqlDate: bool, millis: int)
    | LocalDateTimeV(epoch: int)
    | ObjV(cls: string, fields: seq<(string, Value)>)
    | ListV(elems: seq<Value>)

  /** The name `getClass().getName()` reports for a non-null value. */
  function ClassName(v: Value): string
  {
    match v
    case Null => ""
    case ShortV(_) => "java.lang.Short"
    case IntV(_) => "java.lang.Integer"
    case LongV(_) => "java.lang.Long"
    case BoolV(_) => "java.lang.Boolean"
    case StrV(_) => "java.lang.String"
    case DateV(sql, _) => if sql then "java.sql.Date" else "java.util.Date"
    case LocalDateTimeV(_) => "java.time.LocalDateTime"
    case ObjV(c, _) => c
    case ListV(_) => "java.util.List"
  }

  /** The value a map built by successive `put`s over `pairs` holds: the
      last binding of each key wins. */
  function Assoc<K, V>(pairs: seq<(K, V)>): (m: map<K, V>)
  {
    if |pairs| == 0 then map[]
    else Assoc(pairs[..|pairs| - 1])[pairs[|pairs| - 1].0 := pairs[|pairs| - 1].1]
  }

  /** Index of the last pair whose key is `k`. */
  function LastIndexOfKey<K(==), V>(pairs: seq<(K, V)>, k: K): (i: int)
    ensures -1 <= i < |pairs|
    ensures i >= 0 ==> pairs[i].0 == k
    ensures forall j :: i < j < |pairs| ==> pairs[j].0 != k
  {
    if |pairs| == 0 then -1
    else if pairs[|pairs| - 1].0 == k then |pairs| - 1
    else LastIndexOfKey(pairs[..|pairs| - 1], k)
  }

  /** A key is bound exactly when some pair carries it, and it is bound to
      the value of the last such pair. */
  lemma {:induction false} AssocLookup<K, V>(pairs: seq<(K, V)>, k: K)
    ensures k in Assoc(pairs) <==> LastIndexOfKey(pairs, k) >= 0
    ensures k in Assoc(pairs) ==> Assoc(pairs)[k] == pairs[LastIndexOfKey(pairs, k)].1
  {
    if |pairs| > 0 {
      AssocLookup(pairs[..|pairs| - 1], k);
    }
  }

  /** One more `put`. */
  lemma AssocSnoc<K, V>(pairs: seq<(K, V)>, k: K, v: V)
    ensures Assoc(pairs + [(k, v)]) == Assoc(pairs)[k := v]
  {
    assert (pairs + [(k, v)])[..|pairs|] == pairs;
  }

  lemma AssocKeys<K, V>(pairs: seq<(K, V)>)
    ensures Assoc(pairs).Keys == set i | 0 <= i < |pairs| :: pairs[i].0
  {
    if |pairs| > 0 {
      var init := pairs[..|pairs| - 1];
      AssocKeys(init);
      assert forall i :: 0 <= i < |init| ==> init[i] == pairs[i];
      assert (set i | 0 <= i < |pairs| :: pairs[i].0)
          == (set i | 0 <= i < |init| :: init[i].0) + {pairs[|pairs| - 1].0};
    }
  }
}
