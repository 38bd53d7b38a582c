/** Database and table sharding: the router hashes the routing attribute of
    the first argument, spreads and masks the hash to an index over
    dbCount × tbCount slots, splits that index into a database number
    (1-based) and a table number (0-based), formats both as two-digit keys and
    keeps them in thread-local slots while the intercepted call runs.  All
    arithmetic is Java's 32-bit `int` arithmetic. */
module DbRouter {
  import opened Base

  /** Java's `/` on `int`: the quotient truncated toward zero; only
      `INT32_MIN / -1` leaves the range, and wraps back to `INT32_MIN`. */
  function Div32(a: int, b: int): (q: int)
    requires IsInt32(a) && IsInt32(b) && b != 0
    ensures IsInt32(q)
    ensures a >= 0 && b > 0 ==> q == a / b
  {
    if a == INT32_MIN && b == -1 then INT32_MIN
    else
      var m := Abs(a) / Abs(b);
      QuotientAtMost(Abs(a), Abs(b));
      if (a >= 0) == (b > 0) then m else -m
  }

  function Abs(x: int): nat
  {
    if x < 0 then -x else x
  }

  lemma QuotientAtMost(x: nat, y: nat)
    requires y >= 1
    ensures x / y <= x
  {
  }

  /** Bitwise `&` of two non-negative numbers, bit by bit from the lowest. */
  function BitAnd(x: nat, y: nat): nat
    decreases x
  {
    if x == 0 || y == 0 then 0
    else 2 * BitAnd(x / 2, y / 2) + (if x % 2 == 1 && y % 2 == 1 then 1 else 0)
  }

  /** Bitwise `^` of two non-negative numbers. */
  function BitXor(x: nat, y: nat): nat
    decreases x + y
  {
    if x == 0 then y
    else if y == 0 then x
    else 2 * BitXor(x / 2, y / 2) + (if x % 2 != y % 2 then 1 else 0)
  }

  lemma {:induction false} BitAndBelow(x: nat, y: nat)
    ensures BitAnd(x, y) <= x
    decreases x
  {
    if x != 0 && y != 0 {
      BitAndBelow(x / 2, y / 2);
    }
  }

  /** The 32 bits of a Java `int`, read as an unsigned number: reading
      them back as an `int` gives the same `int`, and a non-negative `int`
      reads as itself. */
  function Unsigned(x: int): (u: nat)
    ensures u < TWO32
    ensures IsInt32(x) ==> Wrap32(u) == x
    ensures 0 <= x < TWO32 ==> u == x
  {
    x % TWO32
  }

  /** `h ^ (h >>> 16)`: the high half of the hash folded into the low half
      (`>>>` shifts in zeros, so it divides the unsigned bits by 2^16). */
  function Spread(h: int): nat
  {
    BitXor(Unsigned(h), Unsigned(h) / 0x1_0000)
  }

  /** `(size - 1) & (h ^ (h >>> 16))`. */
  function SlotIndex(size: int, h: int): int
  {
    Wrap32(BitAnd(Unsigned(Wrap32(size - 1)), Spread(h)))
  }

  /** For at least one slot the index is a slot: 0 <= idx <= size - 1. */
  lemma SlotIndexBounds(size: int, h: int)
    requires IsInt32(size) && size >= 1
    ensures 0 <= SlotIndex(size, h) <= size - 1
  {
    assert Unsigned(Wrap32(size - 1)) == size - 1;
    BitAndBelow(size - 1, Spread(h));
  }

  /** `hashCode()` of the routing attribute.  Strings, boxed shorts,
      integers, longs, booleans and dates hash as in the JDK; for any other
      object `other` stands for its (identity or overridden) hash. */
  function HashCode(v: Value, other: Value -> int): (h: int)
    ensures IsInt32(h)
    ensures (v.ShortV? && IsInt32(v.s)) ==> h == v.s
    ensures (v.IntV? && IsInt32(v.i)) ==> h == v.i
    ensures v.BoolV? ==> h == if v.b then 1231 else 1237
    ensures v.StrV? ==> h == Wrap32(Poly31(Utf16(v.str)))
    ensures (v.LongV? && 0 <= v.l <= INT32_MAX) ==> h == v.l
    ensures (v.LongV? && INT32_MIN <= v.l < 0) ==> h == -v.l - 1
  {
    match v
    case ShortV(s) => Wrap32(s)
    case IntV(i) => Wrap32(i)
    case LongV(l) => (if IsInt32(l) then LongHashInt(l); LongHash(l) else LongHash(l))
    case DateV(_, millis) => LongHash(millis)
    case BoolV(b) => if b then 1231 else 1237
    case StrV(s) => StringHashPoly(s); StringHash(s)
    case _ => Wrap32(other(v))
  }

  /** `Long.hashCode`: `(int) (value ^ (value >>> 32))`, the low 32 bits of
      the 64-bit value xor-ed with its high 32 bits.  A non-negative value in
      `int` range hashes to itself, a negative one to its bitwise complement. */
  function LongHash(l: int): (h: int)
    ensures IsInt32(h)
  {
    var u := l % 0x1_0000_0000_0000_0000;
    Wrap32(BitXor(u % TWO32, u / TWO32))
  }

  /** A `long` in `int` range: a non-negative value hashes to itself, a
      negative one to its bitwise complement `-l - 1`. */
  lemma LongHashInt(l: int)
    requires IsInt32(l)
    ensures 0 <= l ==> LongHash(l) == l
    ensures l < 0 ==> LongHash(l) == -l - 1
  {
    var u := l % 0x1_0000_0000_0000_0000;
    if l < 0 {
      assert u == l + 0x1_0000_0000_0000_0000;
      assert u % TWO32 == l + TWO32 && u / TWO32 == TWO32 - 1;
      Pow2At32();
      XorAllOnes(u % TWO32, 32);
    }
  }

  lemma Pow2At32()
    ensures Pow2(32) == TWO32
  {
    assert Pow2(8) == 256;
    assert Pow2(16) == 65536;
    assert Pow2(24) == 256 * 65536;
  }

  function Pow2(k: nat): nat
  {
    if k == 0 then 1 else 2 * Pow2(k - 1)
  }

  /** `x ^ (2^k - 1)` flips the k low bits of x. */
  lemma {:induction false} XorAllOnes(x: nat, k: nat)
    requires x < Pow2(k)
    ensures BitXor(x, Pow2(k) - 1) == Pow2(k) - 1 - x
  {
    if k > 0 && x > 0 && Pow2(k) - 1 > 0 {
      XorAllOnes(x / 2, k - 1);
      assert (Pow2(k) - 1) / 2 == Pow2(k - 1) - 1;
    } else if k > 0 && x == 0 {
    }
  }

  /** The UTF-16 code units of a string: a character up to U+FFFF is one
      unit, a supplementary character is its surrogate pair. */
  function Utf16(s: string): (u: seq<int>)
    ensures |u| >= |s|
    ensures forall k :: 0 <= k < |u| ==> 0 <= u[k] < 0x1_0000
    ensures (forall k :: 0 <= k < |s| ==> (s[k] as int) < 0x1_0000) ==> |u| == |s|
  {
    if s == [] then []
    else
      var c := s[|s| - 1] as int;
      Utf16(s[..|s| - 1]) + (if c < 0x1_0000 then [c]
                            else [0xD800 + (c - 0x1_0000) / 0x400, 0xDC00 + (c - 0x1_0000) % 0x400])
  }

  /** A string of characters up to U+FFFF is its own code units. */
  lemma {:induction false} Utf16Bmp(s: string)
    requires forall k :: 0 <= k < |s| ==> (s[k] as int) < 0x1_0000
    ensures forall k :: 0 <= k < |s| ==> Utf16(s)[k] == s[k] as int
  {
    if s != [] {
      Utf16Bmp(s[..|s| - 1]);
    }
  }

  /** Horner's rule `h = 31 * h + c` in `int` arithmetic. */
  function UnitsHash(u: seq<int>): int
  {
    if u == [] then 0 else Wrap32(31 * UnitsHash(u[..|u| - 1]) + u[|u| - 1])
  }

  /** `String.hashCode`: Horner's rule over the UTF-16 code units. */
  function StringHash(s: string): (h: int)
    ensures IsInt32(h)
  {
    UnitsHash(Utf16(s))
  }

  function Pow31(e: nat): nat
  {
    if e == 0 then 1 else 31 * Pow31(e - 1)
  }

  /** The JDK's definition: `u[0]*31^(n-1) + u[1]*31^(n-2) + ... + u[n-1]`. */
  function Poly31(u: seq<int>): int
  {
    if u == [] then 0 else u[0] * Pow31(|u| - 1) + Poly31(u[1..])
  }

  lemma {:induction false} Poly31Snoc(u: seq<int>, c: int)
    ensures Poly31(u + [c]) == 31 * Poly31(u) + c
  {
    if u != [] {
      assert (u + [c])[1..] == u[1..] + [c];
      Poly31Snoc(u[1..], c);
    }
  }

  /** Reducing to 32 bits before the next step changes nothing modulo 2^32. */
  lemma WrapStep(x: int, c: int)
    ensures Wrap32(31 * Wrap32(x) + c) == Wrap32(31 * x + c)
  {
    var w := Wrap32(x);
    var k := (w - x) / TWO32;
    assert w == x + k * TWO32;
    assert 31 * w + c == (31 * x + c) + (31 * k) * TWO32;
    Wrap32Periodic(31 * x + c, 31 * k);
  }

  lemma Wrap32Periodic(x: int, k: int)
    ensures Wrap32(x + k * TWO32) == Wrap32(x)
  {
    assert (x + k * TWO32) % TWO32 == x % TWO32;
  }

  /** Horner's rule in `int` arithmetic is the JDK's polynomial reduced to 32 bits. */
  lemma {:induction false} UnitsHashPoly(u: seq<int>)
    ensures UnitsHash(u) == Wrap32(Poly31(u))
  {
    if u != [] {
      var init := u[..|u| - 1];
      UnitsHashPoly(init);
      WrapStep(Poly31(init), u[|u| - 1]);
      assert u == init + [u[|u| - 1]];
      Poly31Snoc(init, u[|u| - 1]);
    }
  }

  /** `String.hashCode` is `s[0]*31^(n-1) + ... + s[n-1]` over the UTF-16
      code units, in `int` arithmetic. */
  lemma StringHashPoly(s: string)
    ensures StringHash(s) == Wrap32(Poly31(Utf16(s)))
  {
    UnitsHashPoly(Utf16(s));
  }

  /** A supplementary character hashes through its surrogate pair:
      "\U{1F600}" is the units 0xD83D, 0xDE00, so its hash is
      31 * 0xD83D + 0xDE00. */
  lemma StringHashSurrogates()
    ensures Utf16("\U{1F600}") == [0xD83D, 0xDE00]
    ensures StringHash("\U{1F600}") == 1772899
  {
    var s := "\U{1F600}";
    assert s[..0] == "";
    assert Utf16(s) == [0xD83D, 0xDE00];
    var u := [0xD83D, 0xDE00];
    assert u[..1] == [0xD83D];
    assert [0xD83D][..0] == [];
    assert UnitsHash([0xD83D]) == 0xD83D;
  }

  datatype RouterError =
    | NoArgument                 // jp.getArgs()[0] on a call without arguments
    | NullAttribute(key: string) // the attribute is null: hashCode() on null
    | DivisionByZero             // tbCount == 0
    | ProceedFailed(cause: string) // the call threw; rethrown as RuntimeException

  /** The database number and table number for an attribute hash. */
  function Shard(dbCount: int, tbCount: int, h: int): (r: Try<(int, int), RouterError>)
    requires IsInt32(dbCount) && IsInt32(tbCount) && IsInt32(h)
    ensures r.Err? <==> tbCount == 0
    ensures r.Err? ==> r.error == DivisionByZero
  {
    var size := Wrap32(dbCount * tbCount);
    var idx := SlotIndex(size, h);
    if tbCount == 0 then Err(DivisionByZero)
    else Ok(SplitIndex(idx, tbCount))
  }

  /** `dbIdx = idx / tbCount + 1` and `tbIdx = idx - (dbIdx - 1) * tbCount`,
      in `int` arithmetic. */
  function SplitIndex(idx: int, tbCount: int): (int, int)
    requires IsInt32(idx) && IsInt32(tbCount) && tbCount != 0
  {
    var dbIdx := Wrap32(Div32(idx, tbCount) + 1);
    var tbIdx := Wrap32(idx - Wrap32(Wrap32(dbIdx - 1) * tbCount));
    (dbIdx, tbIdx)
  }

  /** For a slot index below dbCount * tbCount, the split is the quotient
      plus one and the remainder, with no overflow. */
  lemma SplitIndexInRange(idx: int, dbCount: int, tbCount: int)
    requires 1 <= dbCount && 1 <= tbCount && IsInt32(tbCount)
    requires 0 <= idx < dbCount * tbCount <= INT32_MAX
    ensures var (d, t) := SplitIndex(idx, tbCount);
      && 1 <= d <= dbCount && 0 <= t < tbCount
      && t == idx % tbCount && d - 1 == idx / tbCount
      && (d - 1) * tbCount + t == idx
  {
    var q, t := idx / tbCount, idx % tbCount;
    QuotientBelow(idx, tbCount, dbCount);
    DivModSplit(idx, tbCount);
    var qt := q * tbCount;
    assert 0 <= qt <= idx;
    assert Div32(idx, tbCount) == q;
    assert Wrap32(q + 1) == q + 1;
    assert Wrap32(qt) == qt;
    assert Wrap32(idx - qt) == t;
  }

  /** With a sane configuration (both counts positive, their product a Java
      `int`) the database number lies in [1, dbCount], the table number in
      [0, tbCount - 1], table number = idx mod tbCount, and the pair
      reconstructs the slot index. */
  lemma ShardInRange(dbCount: int, tbCount: int, h: int)
    requires 1 <= dbCount && 1 <= tbCount && dbCount * tbCount <= INT32_MAX && IsInt32(h)
    ensures Shard(dbCount, tbCount, h).Ok?
    ensures var (d, t) := Shard(dbCount, tbCount, h).value;
      var idx := SlotIndex(dbCount * tbCount, h);
      && 1 <= d <= dbCount && 0 <= t < tbCount
      && t == idx % tbCount && d - 1 == idx / tbCount
      && (d - 1) * tbCount + t == idx
  {
    var size := dbCount * tbCount;
    ProductAtLeast(dbCount, tbCount);
    assert Wrap32(size) == size;
    SlotIndexBounds(size, h);
    SplitIndexInRange(SlotIndex(size, h), dbCount, tbCount);
  }

  lemma ProductAtLeast(a: int, b: int)
    requires a >= 1 && b >= 1
    ensures a * b >= a && a * b >= b
  {
  }

  lemma DivModSplit(idx: int, tb: int)
    requires 0 <= idx && tb >= 1
    ensures (idx / tb) * tb + idx % tb == idx && 0 <= idx % tb < tb && 0 <= idx / tb
  {
  }

  lemma QuotientBelow(idx: int, tb: int, db: int)
    requires 0 <= idx < db * tb && tb >= 1
    ensures 0 <= idx / tb < db
  {
    var q := idx / tb;
    assert q * tb <= idx;
  }

  /** The decimal digits of n. */
  function Digits(n: nat): (s: string)
    ensures |s| >= 1
    ensures n >= 10 ==> |s| >= 2
    decreases n
  {
    if n < 10 then [DigitChar(n)] else Digits(n / 10) + [DigitChar(n % 10)]
  }

  function DigitChar(d: nat): char
    requires d < 10
  {
    (('0' as int) + d) as char
  }

  /** `String.format("%02d", n)`: at least two characters, zero-padded; a
      negative number is its sign followed by its digits. */
  function Format02(n: int): string
  {
    if n < 0 then "-" + Digits(-n)
    else if n < 10 then "0" + Digits(n)
    else Digits(n)
  }

  /** The value of a string of decimal digits. */
  function ParseDecimal(s: string): int
  {
    if s == [] then 0 else 10 * ParseDecimal(s[..|s| - 1]) + (s[|s| - 1] as int - '0' as int)
  }

  function ParseKey(s: string): int
  {
    if |s| > 0 && s[0] == '-' then -ParseDecimal(s[1..]) else ParseDecimal(s)
  }

  lemma {:induction false} ParseDigits(n: nat)
    ensures ParseDecimal(Digits(n)) == n
    ensures forall k | 0 <= k < |Digits(n)| :: '0' <= Digits(n)[k] <= '9'
    decreases n
  {
    if n >= 10 {
      ParseDigits(n / 10);
      assert Digits(n)[..|Digits(n)| - 1] == Digits(n / 10);
    }
  }

  lemma ParseNegativeKey(n: int)
    requires n < 0
    ensures ParseKey(Format02(n)) == n
  {
    ParseDigits(-n);
    assert ("-" + Digits(-n))[1..] == Digits(-n);
  }

  lemma ParsePaddedKey(n: int)
    requires 0 <= n < 10
    ensures ParseKey(Format02(n)) == n
  {
    var f := "0" + Digits(n);
    assert f == ['0', DigitChar(n)];
    assert f[..1] == ['0'] && ['0'][..0] == [];
    assert ParseDecimal(['0']) == 0;
  }

  lemma ParseWideKey(n: int)
    requires n >= 10
    ensures ParseKey(Format02(n)) == n
  {
    ParseDigits(n);
    assert Digits(n)[0] != '-';
  }

  /** A shard key reads back as its number, so distinct numbers give
      distinct keys. */
  lemma Format02RoundTrip(n: int)
    ensures ParseKey(Format02(n)) == n
  {
    if n < 0 {
      ParseNegativeKey(n);
    } else if n < 10 {
      ParsePaddedKey(n);
    } else {
      ParseWideKey(n);
    }
  }

  /** Numbers below 100 become exactly two digits. */
  lemma Format02TwoDigits(n: int)
    requires 0 <= n < 100
    ensures Format02(n) == [DigitChar(n / 10), DigitChar(n % 10)]
  {
    if n >= 10 {
      assert Digits(n / 10) == [DigitChar(n / 10)];
    }
  }

  lemma Format02Injective(a: int, b: int)
    requires Format02(a) == Format02(b)
    ensures a == b
  {
    Format02RoundTrip(a);
    Format02RoundTrip(b);
  }

  datatype RouterConfig = RouterConfig(dbCount: int, tbCount: int)

  /** The two keys the router computes for a call, or why it fails before the
      call proceeds. */
  function RouteKeys(config: RouterConfig, key: string, args: seq<Value>,
                     getProperty: (Value, string) -> Value, other: Value -> int)
    : (r: Try<(string, string), RouterError>)
    requires IsInt32(config.dbCount) && IsInt32(config.tbCount)
    ensures args == [] <==> r == Err(NoArgument)
    ensures r.Ok? ==> |r.value.0| >= 2 && |r.value.1| >= 2
  {
    if args == [] then Err(NoArgument)
    else
      var attr := getProperty(args[0], key);
      if attr == Null then Err(NullAttribute(key))
      else match Shard(config.dbCount, config.tbCount, HashCode(attr, other))
        case Err(e) => Err(e)
        case Ok((d, t)) => Ok((Format02(d), Format02(t)))
  }

  /** The key `DynamicDatasource` looks the data source up by: "db" followed
      by the thread's db key ("null" when none is set). */
  function LookupKey(dbKey: Option<string>): string
  {
    "db" + (if dbKey.Some? then dbKey.value else "null")
  }

  /** The two thread-local slots of the calling thread. */
  class ThreadLocalContext {
    var dbKey: Option<string>
    var tbKey: Option<string>

    constructor ()
      ensures dbKey == None && tbKey == None
    {
      dbKey, tbKey := None, None;
    }

    method SetDbKey(key: string)
      modifies this
      ensures dbKey == Some(key) && tbKey == old(tbKey)
    {
      dbKey := Some(key);
    }

    method GetDbKey() returns (k: Option<string>)
      ensures k == dbKey
    {
      k := dbKey;
    }

    method SetTbKey(key: string)
      modifies this
      ensures tbKey == Some(key) && dbKey == old(dbKey)
    {
      tbKey := Some(key);
    }

    method GetTbKey() returns (k: Option<string>)
      ensures k == tbKey
    {
      k := tbKey;
    }

    method ClearDbKey()
      modifies this
      ensures dbKey == None && tbKey == old(tbKey)
    {
      dbKey := None;
    }

    method ClearTbKey()
      modifies this
      ensures tbKey == None && dbKey == old(dbKey)
    {
      tbKey := None;
    }
  }

  /** `doRouter`: compute the keys, set them, let the call proceed (it sees
      the data source key and the table key) and clear both keys whatever the
      call's outcome.  A failure before the keys are set leaves them as they
      were. */
  method DoRouter(ctx: ThreadLocalContext, config: RouterConfig, key: string, args: seq<Value>,
                  getProperty: (Value, string) -> Value, other: Value -> int,
                  proceed: (string, string) -> Try<Value, string>)
    returns (r: Try<Value, RouterError>)
    requires IsInt32(config.dbCount) && IsInt32(config.tbCount)
    modifies ctx
    ensures RouteKeys(config, key, args, getProperty, other).Err? ==>
      r == Err(RouteKeys(config, key, args, getProperty, other).error)
      && ctx.dbKey == old(ctx.dbKey) && ctx.tbKey == old(ctx.tbKey)
    ensures RouteKeys(config, key, args, getProperty, other).Ok? ==>
      var (db, tb) := RouteKeys(config, key, args, getProperty, other).value;
      && (proceed("db" + db, tb).Ok? ==> r == Ok(proceed("db" + db, tb).value))
      && (proceed("db" + db, tb).Err? ==> r == Err(ProceedFailed(proceed("db" + db, tb).error)))
      && ctx.dbKey == None && ctx.tbKey == None
  {
    if args == [] {
      return Err(NoArgument);
    }
    var attr := getProperty(args[0], key);
    if attr == Null {
      return Err(NullAttribute(key));
    }
    var shard := Shard(config.dbCount, config.tbCount, HashCode(attr, other));
    if shard.Err? {
      return Err(shard.error);
    }
    var (dbIdx, tbIdx) := shard.value;
    var dbKey := Format02(dbIdx);
    var tbKey := Format02(tbIdx);
    ctx.SetDbKey(dbKey);
    ctx.SetTbKey(tbKey);
    var current := ctx.GetDbKey();
    var table := ctx.GetTbKey();
    var outcome := proceed(LookupKey(current), table.value);
    if outcome.Ok? {
      r := Ok(outcome.value);
    } else {
      r := Err(ProceedFailed(outcome.error));
    }
    ctx.ClearDbKey();
    ctx.ClearTbKey();
  }
}
