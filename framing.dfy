/** Length-prefixed framing of the RPC byte stream: every frame is a signed
    32-bit big-endian length followed by that many payload bytes.  `Encode`
    appends one frame to an output buffer; `Decoder.Decode` extracts at most
    one frame from an input buffer, leaving the input untouched when the frame
    is not complete yet; `FrameDriver` is the cumulating loop that calls
    `Decode` until no progress is made.  The payload codec is a pair of
    functions: `ser` (total) and `de` (which fails on bytes it cannot read). */
module Framing {
  import opened Base

  /** The unsigned value of the 4 big-endian bytes at index i. */
  function BigEndian32(s: seq<byte>, i: nat): (u: int)
    requires i + 4 <= |s|
    ensures 0 <= u < TWO32
  {
    (s[i] as int) * 0x100_0000 + (s[i + 1] as int) * 0x1_0000 + (s[i + 2] as int) * 0x100 + (s[i + 3] as int)
  }

  /** `readInt` at index i: the two's complement value of the 4 bytes there. */
  function ReadInt32(s: seq<byte>, i: nat): (v: int)
    requires i + 4 <= |s|
    ensures IsInt32(v)
  {
    var u := BigEndian32(s, i);
    if u > INT32_MAX then u - TWO32 else u
  }

  /** The 4 bytes `writeInt(v)` appends: v modulo 2^32, most significant first. */
  function Int32Bytes(v: int): (b: seq<byte>)
    requires IsInt32(v)
    ensures |b| == 4
  {
    var u := v % TWO32;
    [u / 0x100_0000, (u / 0x1_0000) % 0x100, (u / 0x100) % 0x100, u % 0x100]
  }

  /** Reading back the bytes `writeInt` wrote, from any position, yields the value written. */
  lemma ReadInt32OfInt32Bytes(v: int, a: seq<byte>, b: seq<byte>)
    requires IsInt32(v)
    ensures ReadInt32(a + Int32Bytes(v) + b, |a|) == v
  {
    var s := a + Int32Bytes(v) + b;
    var u := v % TWO32;
    assert s[|a|..|a| + 4] == Int32Bytes(v);
    assert BigEndian32(s, |a|) == u by {
      assert s[|a|] == u / 0x100_0000;
      assert s[|a| + 1] == (u / 0x1_0000) % 0x100;
      assert s[|a| + 2] == (u / 0x100) % 0x100;
      assert s[|a| + 3] == u % 0x100;
      ByteDigits(u);
    }
  }

  lemma ByteDigits(u: int)
    requires 0 <= u < TWO32
    ensures (u / 0x100_0000) * 0x100_0000 + ((u / 0x1_0000) % 0x100) * 0x1_0000
          + ((u / 0x100) % 0x100) * 0x100 + u % 0x100 == u
  {
    var q1 := u / 0x100;
    var q2 := q1 / 0x100;
    var q3 := q2 / 0x100;
    assert u == q1 * 0x100 + u % 0x100;
    assert q1 == q2 * 0x100 + q1 % 0x100;
    assert q2 == q3 * 0x100 + q2 % 0x100;
    assert u / 0x1_0000 == q2;
    assert u / 0x100_0000 == q3;
    assert q2 % 0x100 == (u / 0x1_0000) % 0x100;
  }

  /** The frame the encoder writes for a payload. */
  function Frame(payload: seq<byte>): (f: seq<byte>)
    requires |payload| <= INT32_MAX
    ensures |f| == 4 + |payload|
    ensures f[..4] == Int32Bytes(|payload|) && f[4..] == payload
  {
    Int32Bytes(|payload|) + payload
  }

  /** What one call of `decode` finds at reader index i. */
  datatype Step =
    | Incomplete                           // nothing consumed, nothing emitted
    | NegativeLength(len: int, next: nat)  // header consumed, `new byte[len]` throws
    | Whole(payload: seq<byte>, next: nat) // one frame consumed

  function DecodeAt(s: seq<byte>, i: nat): (r: Step)
    requires i <= |s|
    ensures r.Incomplete? <==> |s| - i < 4 || |s| - (i + 4) < ReadInt32(s, i)
    ensures r.NegativeLength? ==> i + 4 <= |s| && r.next == i + 4 && r.len == ReadInt32(s, i) < 0
    ensures r.Whole? ==>
      (i + 4 <= |s| && |r.payload| == ReadInt32(s, i) &&
       r.next == i + 4 + |r.payload| <= |s| && r.payload == s[i + 4..r.next])
  {
    if |s| - i < 4 then Incomplete
    else
      var length := ReadInt32(s, i);
      if |s| - (i + 4) < length then Incomplete
      else if length < 0 then NegativeLength(length, i + 4)
      else Whole(s[i + 4..i + 4 + length], i + 4 + length)
  }

  datatype DecodeError = NegativeArraySize(len: int) | Undecodable(payload: seq<byte>)

  /** The result of decoding from index i until no progress is made or an
      error is thrown: the messages emitted, where the reader index stops and
      the error, if any. */
  datatype Parsed<T> = Parsed(msgs: seq<T>, pos: nat, err: Option<DecodeError>)

  function ParseFrom<T>(de: seq<byte> -> Option<T>, s: seq<byte>, i: nat): (p: Parsed<T>)
    requires i <= |s|
    ensures i <= p.pos <= |s|
    decreases |s| - i
  {
    match DecodeAt(s, i)
    case Incomplete => Parsed([], i, None)
    case NegativeLength(len, j) => Parsed([], j, Some(NegativeArraySize(len)))
    case Whole(payload, j) =>
      match de(payload)
      case None => Parsed([], j, Some(Undecodable(payload)))
      case Some(m) =>
        var rest := ParseFrom(de, s, j);
        Parsed([m] + rest.msgs, rest.pos, rest.err)
  }

  /** A step found in a stream stays the same step when more bytes arrive. */
  lemma DecodeAtExtend(s: seq<byte>, t: seq<byte>, i: nat)
    requires i <= |s|
    ensures !DecodeAt(s, i).Incomplete? ==> DecodeAt(s + t, i) == DecodeAt(s, i)
  {
    if !DecodeAt(s, i).Incomplete? {
      assert (s + t)[i..i + 4] == s[i..i + 4];
      assert ReadInt32(s + t, i) == ReadInt32(s, i);
      if DecodeAt(s, i).Whole? {
        var j := DecodeAt(s, i).next;
        assert (s + t)[i + 4..j] == s[i + 4..j];
      }
    }
  }

  /** Decoding a longer stream first yields what the shorter one yielded and
      then continues where the shorter one stopped; after an error the later
      bytes are never looked at. */
  lemma {:induction false} ParseExtend<T>(de: seq<byte> -> Option<T>, s: seq<byte>, t: seq<byte>, i: nat)
    requires i <= |s|
    ensures var p := ParseFrom(de, s, i);
            var q := ParseFrom(de, s + t, i);
            if p.err.Some? then q == p
            else
              var r := ParseFrom(de, s + t, p.pos);
              q == Parsed(p.msgs + r.msgs, r.pos, r.err)
    decreases |s| - i, 1
  {
    DecodeAtExtend(s, t, i);
    var step := DecodeAt(s, i);
    if step.Whole? && de(step.payload).Some? {
      ParseExtendWhole(de, s, t, i);
    }
  }

  /** The case of `ParseExtend` where a whole, decodable frame is found at i. */
  lemma {:induction false} ParseExtendWhole<T>(de: seq<byte> -> Option<T>, s: seq<byte>, t: seq<byte>, i: nat)
    requires i <= |s| && DecodeAt(s, i).Whole? && de(DecodeAt(s, i).payload).Some?
    requires DecodeAt(s + t, i) == DecodeAt(s, i)
    ensures var p := ParseFrom(de, s, i);
            var q := ParseFrom(de, s + t, i);
            if p.err.Some? then q == p
            else
              var r := ParseFrom(de, s + t, p.pos);
              q == Parsed(p.msgs + r.msgs, r.pos, r.err)
    decreases |s| - i, 0
  {
    var m := de(DecodeAt(s, i).payload).value;
    var j := DecodeAt(s, i).next;
    ParseFromWhole(de, s, i);
    ParseFromWhole(de, s + t, i);
    ParseExtend(de, s, t, j);
    var rest := ParseFrom(de, s, j);
    if rest.err.None? {
      var r := ParseFrom(de, s + t, rest.pos);
      ConsAppend(m, rest.msgs, r.msgs);
    }
  }

  lemma ConsAppend<T>(m: T, a: seq<T>, b: seq<T>)
    ensures [m] + (a + b) == ([m] + a) + b
  {
  }

  /** One unfolding of `ParseFrom` at a whole, decodable frame. */
  lemma ParseFromWhole<T>(de: seq<byte> -> Option<T>, s: seq<byte>, i: nat)
    requires i <= |s| && DecodeAt(s, i).Whole? && de(DecodeAt(s, i).payload).Some?
    ensures var rest := ParseFrom(de, s, DecodeAt(s, i).next);
            ParseFrom(de, s, i) == Parsed([de(DecodeAt(s, i).payload).value] + rest.msgs, rest.pos, rest.err)
  {
  }

  /** The state of the cumulating decoder: everything received so far, the
      reader index, every message handed on and, in order, the exception each
      read threw into the pipeline. */
  datatype DriverState<T> = DriverState(buf: seq<byte>, pos: nat, msgs: seq<T>, errs: seq<DecodeError>)

  function ErrorList(e: Option<DecodeError>): (l: seq<DecodeError>)
    ensures e.None? <==> l == []
    ensures e.Some? ==> l == [e.value]
  {
    if e.Some? then [e.value] else []
  }

  /** One `channelRead` of a chunk: append it to the cumulation and decode
      from the reader index until no progress or an exception.  The
      cumulation and its reader index survive an exception, so the next read
      resumes where this one stopped. */
  function Feed<T>(de: seq<byte> -> Option<T>, st: DriverState<T>, chunk: seq<byte>): (r: DriverState<T>)
    requires st.pos <= |st.buf|
    ensures r.buf == st.buf + chunk && st.pos <= r.pos <= |r.buf|
  {
    var buf := st.buf + chunk;
    var p := ParseFrom(de, buf, st.pos);
    DriverState(buf, p.pos, st.msgs + p.msgs, st.errs + ErrorList(p.err))
  }

  function Concat(chunks: seq<seq<byte>>): seq<byte>
  {
    if |chunks| == 0 then [] else Concat(chunks[..|chunks| - 1]) + chunks[|chunks| - 1]
  }

  function FeedAll<T>(de: seq<byte> -> Option<T>, chunks: seq<seq<byte>>): (st: DriverState<T>)
    ensures st.pos <= |st.buf|
  {
    if |chunks| == 0 then DriverState([], 0, [], [])
    else
      var prev := FeedAll(de, chunks[..|chunks| - 1]);
      assert prev.pos <= |prev.buf|;
      var next := Feed(de, prev, chunks[|chunks| - 1]);
      next
  }

  /** What the driver's state says about the one-piece decoding of the same
      bytes: an error exactly when the one-piece decoding has one; without it,
      the same messages and reader index; with it, the same first error and
      the one-piece messages handed on first. */
  ghost predicate Agrees<T>(st: DriverState<T>, p: Parsed<T>)
  {
    && (st.errs == [] <==> p.err.None?)
    && (p.err.None? ==> st.msgs == p.msgs && st.pos == p.pos)
    && (p.err.Some? ==> st.errs[0] == p.err.value && p.msgs <= st.msgs)
  }

  /** However the stream is cut into chunks, the driver has received exactly
      the whole stream and agrees with decoding it in one piece. */
  lemma {:induction false} FeedAllIsParse<T>(de: seq<byte> -> Option<T>, chunks: seq<seq<byte>>)
    ensures FeedAll(de, chunks).buf == Concat(chunks)
    ensures Agrees(FeedAll(de, chunks), ParseFrom(de, Concat(chunks), 0))
  {
    if |chunks| > 0 {
      var init := chunks[..|chunks| - 1];
      FeedAllIsParse(de, init);
      var prev := FeedAll(de, init);
      if prev.errs == [] {
        FeedStepClean(de, prev, chunks[|chunks| - 1]);
      } else {
        FeedStepFailed(de, prev, chunks[|chunks| - 1]);
      }
    }
  }

  /** A read after error-free reads continues the one-piece decoding. */
  lemma FeedStepClean<T>(de: seq<byte> -> Option<T>, prev: DriverState<T>, t: seq<byte>)
    requires prev.pos <= |prev.buf| && prev.errs == [] && Agrees(prev, ParseFrom(de, prev.buf, 0))
    ensures Agrees(Feed(de, prev, t), ParseFrom(de, prev.buf + t, 0))
  {
    ParseExtend(de, prev.buf, t, 0);
  }

  /** A read after a failed one keeps the first error and the messages before it. */
  lemma FeedStepFailed<T>(de: seq<byte> -> Option<T>, prev: DriverState<T>, t: seq<byte>)
    requires prev.pos <= |prev.buf| && prev.errs != [] && Agrees(prev, ParseFrom(de, prev.buf, 0))
    ensures Agrees(Feed(de, prev, t), ParseFrom(de, prev.buf + t, 0))
  {
    ParseExtend(de, prev.buf, t, 0);
    var next := Feed(de, prev, t);
    var q := ParseFrom(de, prev.buf + t, prev.pos);
    assert next.msgs == prev.msgs + q.msgs;
    assert next.errs == prev.errs + ErrorList(q.err);
    assert next.errs[0] == prev.errs[0];
  }

  /** Two ways of cutting the same stream agree on whether an error is
      raised; without one they hand on the same messages, and with one they
      agree on the first error. */
  lemma ChunkIndependence<T>(de: seq<byte> -> Option<T>, a: seq<seq<byte>>, b: seq<seq<byte>>)
    requires Concat(a) == Concat(b)
    ensures FeedAll(de, a).errs == [] <==> FeedAll(de, b).errs == []
    ensures FeedAll(de, a).errs == [] ==> FeedAll(de, a).msgs == FeedAll(de, b).msgs
    ensures FeedAll(de, a).errs != [] ==> FeedAll(de, a).errs[0] == FeedAll(de, b).errs[0]
  {
    FeedAllIsParse(de, a);
    FeedAllIsParse(de, b);
  }

  /** After an error the outcome depends on the chunking.  An undecodable
      frame followed by a good one: received as two chunks, the second read
      resumes and hands on the good message; received as one chunk, decoding
      stops at the exception and the good frame waits for the next read. */
  function OnlyOne(b: seq<byte>): Option<int>
  {
    if b == [1] then Some(7) else None
  }

  lemma ChunkingMattersAfterError()
    ensures var de := OnlyOne;
            var bad: seq<byte> := [0, 0, 0, 1, 0];
            var good: seq<byte> := [0, 0, 0, 1, 1];
            && FeedAll(de, [bad, good]).msgs == [7]
            && FeedAll(de, [bad + good]).msgs == []
            && FeedAll(de, [bad, good]).errs == FeedAll(de, [bad + good]).errs == [Undecodable([0])]
  {
    var bad: seq<byte> := [0, 0, 0, 1, 0];
    var good: seq<byte> := [0, 0, 0, 1, 1];
    BadThenGood(bad, good);
    BadAndGood(bad, good);
  }

  /** The bad frame on its own: the first read decodes nothing and records the exception. */
  lemma BadFirst(bad: seq<byte>)
    requires bad == [0, 0, 0, 1, 0]
    ensures FeedAll(OnlyOne, [bad]) == DriverState(bad, 5, [], [Undecodable([0])])
  {
    assert ReadInt32(bad, 0) == 1;
    assert DecodeAt(bad, 0) == Whole([0], 5);
    assert ParseFrom(OnlyOne, bad, 0) == Parsed([], 5, Some(Undecodable([0])));
    var none: seq<seq<byte>> := [];
    assert [bad][..0] == none;
    var start: DriverState<int> := DriverState([], 0, [], []);
    assert FeedAll(OnlyOne, none) == start;
    assert [] + bad == bad;
  }

  /** Two chunks: the second read resumes after the bad frame. */
  lemma BadThenGood(bad: seq<byte>, good: seq<byte>)
    requires bad == [0, 0, 0, 1, 0] && good == [0, 0, 0, 1, 1]
    ensures FeedAll(OnlyOne, [bad, good]) == DriverState(bad + good, 10, [7], [Undecodable([0])])
  {
    var both := bad + good;
    BadFirst(bad);
    assert [bad, good][..1] == [bad];
    assert ReadInt32(both, 5) == 1;
    assert DecodeAt(both, 5) == Whole([1], 10);
    assert DecodeAt(both, 10) == Incomplete;
    assert ParseFrom(OnlyOne, both, 5) == Parsed([7], 10, None);
  }

  /** One chunk: decoding stops at the bad frame, and the good one waits. */
  lemma BadAndGood(bad: seq<byte>, good: seq<byte>)
    requires bad == [0, 0, 0, 1, 0] && good == [0, 0, 0, 1, 1]
    ensures FeedAll(OnlyOne, [bad + good]) == DriverState(bad + good, 5, [], [Undecodable([0])])
  {
    var both := bad + good;
    assert ReadInt32(both, 0) == 1;
    assert DecodeAt(both, 0) == Whole([0], 5);
    assert ParseFrom(OnlyOne, both, 0) == Parsed([], 5, Some(Undecodable([0])));
    var none: seq<seq<byte>> := [];
    assert [both][..0] == none;
    var start: DriverState<int> := DriverState([], 0, [], []);
    assert FeedAll(OnlyOne, none) == start;
    assert [] + both == both;
  }

  /** One step at index |a| + i of a + b is the step at index i of b, shifted by |a|. */
  lemma DecodeAtShift(a: seq<byte>, b: seq<byte>, i: nat)
    requires i <= |b|
    ensures var r := DecodeAt(a + b, |a| + i);
            var q := DecodeAt(b, i);
            && (r.Incomplete? <==> q.Incomplete?)
            && (q.NegativeLength? ==> r == NegativeLength(q.len, |a| + q.next))
            && (q.Whole? ==> r == Whole(q.payload, |a| + q.next))
  {
    var s := a + b;
    if |b| - i >= 4 {
      assert s[|a| + i..|a| + i + 4] == b[i..i + 4];
      assert ReadInt32(s, |a| + i) == ReadInt32(b, i);
      var q := DecodeAt(b, i);
      if q.Whole? {
        assert s[|a| + i + 4..|a| + q.next] == b[i + 4..q.next];
      }
    }
  }

  /** Decoding from index |a| of a + b is decoding b, shifted by |a|. */
  lemma {:induction false} ParseShift<T>(de: seq<byte> -> Option<T>, a: seq<byte>, b: seq<byte>, i: nat)
    requires i <= |b|
    ensures var p := ParseFrom(de, a + b, |a| + i);
            var q := ParseFrom(de, b, i);
            p.msgs == q.msgs && p.err == q.err && p.pos == |a| + q.pos
    decreases |b| - i, 1
  {
    DecodeAtShift(a, b, i);
    var step := DecodeAt(b, i);
    if step.Whole? && de(step.payload).Some? {
      ParseShiftWhole(de, a, b, i);
    }
  }

  /** The case of `ParseShift` where a whole, decodable frame is found at i. */
  lemma {:induction false} ParseShiftWhole<T>(de: seq<byte> -> Option<T>, a: seq<byte>, b: seq<byte>, i: nat)
    requires i <= |b| && DecodeAt(b, i).Whole? && de(DecodeAt(b, i).payload).Some?
    requires DecodeAt(a + b, |a| + i) == Whole(DecodeAt(b, i).payload, |a| + DecodeAt(b, i).next)
    ensures var q := ParseFrom(de, b, i);
            ParseFrom(de, a + b, |a| + i) == Parsed(q.msgs, |a| + q.pos, q.err)
    decreases |b| - i, 0
  {
    var j := DecodeAt(b, i).next;
    var m := de(DecodeAt(b, i).payload).value;
    ParseFromWhole(de, b, i);
    ParseFromWhole(de, a + b, |a| + i);
    ParseShift(de, a, b, j);
    var p, q := ParseFrom(de, a + b, |a| + j), ParseFrom(de, b, j);
    assert ParseFrom(de, b, i) == Parsed([m] + q.msgs, q.pos, q.err);
    assert ParseFrom(de, a + b, |a| + i) == Parsed([m] + p.msgs, p.pos, p.err);
  }

  /** The frames of a sequence of messages, back to back. */
  function Frames<T>(ser: T -> seq<byte>, msgs: seq<T>): seq<byte>
    requires forall k :: 0 <= k < |msgs| ==> |ser(msgs[k])| <= INT32_MAX
  {
    if |msgs| == 0 then [] else Frame(ser(msgs[0])) + Frames(ser, msgs[1..])
  }

  /** Decoding what the encoder wrote for a sequence of messages yields
      exactly those messages, consumes every byte and raises no error,
      provided the codec reads back what it writes. */
  lemma {:induction false} FramesRoundTrip<T>(ser: T -> seq<byte>, de: seq<byte> -> Option<T>, msgs: seq<T>)
    requires forall k :: 0 <= k < |msgs| ==> |ser(msgs[k])| <= INT32_MAX && de(ser(msgs[k])) == Some(msgs[k])
    ensures ParseFrom(de, Frames(ser, msgs), 0) == Parsed(msgs, |Frames(ser, msgs)|, None)
  {
    if |msgs| > 0 {
      var f := Frame(ser(msgs[0]));
      var rest := Frames(ser, msgs[1..]);
      DecodeAtFrame(ser(msgs[0]), rest);
      assert Frames(ser, msgs) == f + rest;
      assert DecodeAt(f + rest, 0) == Whole(ser(msgs[0]), |f|);
      FramesRoundTrip(ser, de, msgs[1..]);
      ParseShift(de, f, rest, 0);
      assert [msgs[0]] + msgs[1..] == msgs;
    }
  }

  /** Decoding one frame finds exactly the payload that was framed. */
  lemma DecodeAtFrame(payload: seq<byte>, rest: seq<byte>)
    requires |payload| <= INT32_MAX
    ensures DecodeAt(Frame(payload) + rest, 0) == Whole(payload, 4 + |payload|)
  {
    var s := Frame(payload) + rest;
    ReadInt32OfInt32Bytes(|payload|, [], payload + rest);
    assert s == [] + Int32Bytes(|payload|) + (payload + rest);
    assert s[4..4 + |payload|] == payload;
  }

  /** A Netty `ByteBuf`: the bytes written so far, the reader index and the
      index saved by `markReaderIndex`. */
  class ByteBuf {
    var bytes: seq<byte>
    var readerIndex: nat
    var markedReaderIndex: nat

    ghost predicate Valid()
      reads this
    {
      readerIndex <= |bytes| && markedReaderIndex <= |bytes|
    }

    constructor ()
      ensures Valid() && bytes == [] && readerIndex == 0 && markedReaderIndex == 0
    {
      bytes, readerIndex, markedReaderIndex := [], 0, 0;
    }

    function ReadableBytes(): nat
      reads this
      requires Valid()
    {
      |bytes| - readerIndex
    }

    method MarkReaderIndex()
      requires Valid()
      modifies this
      ensures Valid() && markedReaderIndex == readerIndex
      ensures bytes == old(bytes) && readerIndex == old(readerIndex)
    {
      markedReaderIndex := readerIndex;
    }

    method ResetReaderIndex()
      requires Valid()
      modifies this
      ensures Valid() && readerIndex == old(markedReaderIndex)
      ensures bytes == old(bytes) && markedReaderIndex == old(markedReaderIndex)
    {
      readerIndex := markedReaderIndex;
    }

    method ReadInt() returns (v: int)
      requires Valid() && ReadableBytes() >= 4
      modifies this
      ensures bytes == old(bytes) && markedReaderIndex == old(markedReaderIndex)
      ensures readerIndex == old(readerIndex) + 4
      ensures Valid() && v == ReadInt32(bytes, old(readerIndex))
    {
      v := ReadInt32(bytes, readerIndex);
      readerIndex := readerIndex + 4;
    }

    method ReadBytes(n: nat) returns (data: seq<byte>)
      requires Valid() && n <= ReadableBytes()
      modifies this
      ensures bytes == old(bytes) && markedReaderIndex == old(markedReaderIndex)
      ensures readerIndex == old(readerIndex) + n
      ensures Valid() && data == bytes[old(readerIndex)..old(readerIndex) + n]
    {
      data := bytes[readerIndex..readerIndex + n];
      readerIndex := readerIndex + n;
    }

    method WriteInt(v: int)
      requires Valid() && IsInt32(v)
      modifies this
      ensures Valid() && bytes == old(bytes) + Int32Bytes(v)
      ensures readerIndex == old(readerIndex) && markedReaderIndex == old(markedReaderIndex)
    {
      bytes := bytes + Int32Bytes(v);
    }

    method WriteBytes(data: seq<byte>)
      requires Valid()
      modifies this
      ensures Valid() && bytes == old(bytes) + data
      ensures readerIndex == old(readerIndex) && markedReaderIndex == old(markedReaderIndex)
    {
      bytes := bytes + data;
    }
  }

  /** `Encoder.encode`: serialise the message and append its frame to `out`;
      what `out` held before is kept and nothing is read from it. */
  method Encode<T>(ser: T -> seq<byte>, msg: T, out: ByteBuf)
    requires out.Valid() && |ser(msg)| <= INT32_MAX
    modifies out
    ensures out.Valid() && out.bytes == old(out.bytes) + Frame(ser(msg))
    ensures out.readerIndex == old(out.readerIndex)
  {
    var data := ser(msg);
    out.WriteInt(|data|);
    out.WriteBytes(data);
  }

  /** The list `decode` appends decoded messages to. */
  class MessageList<T> {
    var items: seq<T>

    constructor ()
      ensures items == []
    {
      items := [];
    }

    method Add(m: T)
      modifies this
      ensures items == old(items) + [m]
    {
      items := items + [m];
    }
  }

  /** `Decoder`: a frame decoder for one message type, given by `de`. */
  class Decoder<T> {
    const de: seq<byte> -> Option<T>

    constructor (de: seq<byte> -> Option<T>)
      ensures this.de == de
    {
      this.de := de;
    }

    /** `decode`: consume and emit at most one frame; a thrown exception is
        returned as `err`. */
    method Decode(input: ByteBuf, out: MessageList<T>) returns (err: Option<DecodeError>)
      requires input.Valid()
      modifies input, out
      ensures input.Valid() && input.bytes == old(input.bytes)
      ensures match DecodeAt(old(input.bytes), old(input.readerIndex))
        case Incomplete =>
          input.readerIndex == old(input.readerIndex) && out.items == old(out.items) && err == None
        case NegativeLength(len, j) =>
          input.readerIndex == j && out.items == old(out.items) && err == Some(NegativeArraySize(len))
        case Whole(payload, j) =>
          input.readerIndex == j &&
          match de(payload)
          case None => out.items == old(out.items) && err == Some(Undecodable(payload))
          case Some(m) => out.items == old(out.items) + [m] && err == None
    {
      if input.ReadableBytes() < 4 {
        return None;
      }
      input.MarkReaderIndex();
      var length := input.ReadInt();
      if input.ReadableBytes() < length {
        input.ResetReaderIndex();
        return None;
      }
      if length < 0 {
        return Some(NegativeArraySize(length));
      }
      var data := input.ReadBytes(length);
      var decoded := de(data);
      if decoded.None? {
        return Some(Undecodable(data));
      }
      out.Add(decoded.value);
      return None;
    }
  }

  /** Encoding a message into an empty buffer and decoding that buffer once
      yields exactly the message, emits nothing else and consumes the frame. */
  method EncodeThenDecode<T>(ser: T -> seq<byte>, de: seq<byte> -> Option<T>, msg: T)
    returns (decoded: seq<T>, consumed: nat, err: Option<DecodeError>)
    requires |ser(msg)| <= INT32_MAX && de(ser(msg)) == Some(msg)
    ensures decoded == [msg] && consumed == 4 + |ser(msg)| && err == None
  {
    var buf := new ByteBuf();
    Encode(ser, msg, buf);
    assert buf.bytes == Frame(ser(msg)) + [];
    DecodeAtFrame(ser(msg), []);
    var decoder := new Decoder(de);
    var out := new MessageList();
    err := decoder.Decode(buf, out);
    decoded, consumed := out.items, buf.readerIndex;
  }

  /** The cumulating decoder around a `Decoder`: every received chunk is
      appended to `cumulation` and `decode` is called while it makes progress.
      An exception ends that read only: it is handed to the pipeline
      (recorded in `errors`), and the cumulation with its reader index is
      kept for the next read.  `chunks` records what was received. */
  class FrameDriver<T> {
    const decoder: Decoder<T>
    const cumulation: ByteBuf
    const out: MessageList<T>
    var errors: seq<DecodeError>
    ghost var chunks: seq<seq<byte>>

    ghost function State(): DriverState<T>
      reads this, cumulation, out
    {
      DriverState(cumulation.bytes, cumulation.readerIndex, out.items, errors)
    }

    /** The driver is in the state `FeedAll` describes for what it received. */
    ghost predicate Valid()
      reads this, cumulation, out
    {
      cumulation.Valid() && State() == FeedAll(decoder.de, chunks)
    }

    constructor (de: seq<byte> -> Option<T>)
      ensures Valid() && fresh(decoder) && fresh(cumulation) && fresh(out)
      ensures decoder.de == de && chunks == [] && out.items == [] && errors == []
    {
      decoder := new Decoder(de);
      cumulation := new ByteBuf();
      out := new MessageList();
      errors := [];
      chunks := [];
    }

    /** Receive one chunk: append it and decode from the reader index, also
        after an earlier read threw.  Afterwards the driver has thrown an
        error exactly when decoding everything received so far in one piece
        does; without one it has handed on exactly those messages. */
    method ChannelRead(chunk: seq<byte>)
      requires Valid()
      modifies this, cumulation, out
      ensures Valid() && chunks == old(chunks) + [chunk]
      ensures cumulation.bytes == old(cumulation.bytes) + chunk
      ensures var p := ParseFrom(decoder.de, old(cumulation.bytes) + chunk, old(cumulation.readerIndex));
              out.items == old(out.items) + p.msgs && errors == old(errors) + ErrorList(p.err)
              && cumulation.readerIndex == p.pos
      ensures var p := ParseFrom(decoder.de, Concat(chunks), 0);
              (errors == [] <==> p.err.None?) && (p.err.None? ==> out.items == p.msgs)
    {
      cumulation.WriteBytes(chunk);
      chunks := chunks + [chunk];
      assert chunks[..|chunks| - 1] == old(chunks);
      CallDecode();
      FeedAllIsParse(decoder.de, chunks);
    }

    /** Netty's decode loop: call `decode` while bytes are readable and the
        call made progress; stop at the first exception, which is recorded. */
    method CallDecode()
      requires cumulation.Valid()
      modifies this`errors, cumulation, out
      ensures cumulation.Valid() && cumulation.bytes == old(cumulation.bytes)
      ensures var p := ParseFrom(decoder.de, old(cumulation.bytes), old(cumulation.readerIndex));
              out.items == old(out.items) + p.msgs && errors == old(errors) + ErrorList(p.err)
              && cumulation.readerIndex == p.pos
    {
      ghost var s := cumulation.bytes;
      ghost var target := ParseFrom(decoder.de, s, cumulation.readerIndex);
      ghost var done := out.items;
      while cumulation.ReadableBytes() > 0
        invariant cumulation.Valid() && cumulation.bytes == s && errors == old(errors)
        invariant var rest := ParseFrom(decoder.de, s, cumulation.readerIndex);
                  out.items + rest.msgs == done + target.msgs
                  && rest.pos == target.pos && rest.err == target.err
        decreases cumulation.ReadableBytes()
      {
        var outSize := |out.items|;
        var oldInputLength := cumulation.ReadableBytes();
        ghost var at := cumulation.readerIndex;
        ghost var prefix := out.items;
        var err := decoder.Decode(cumulation, out);
        if err.Some? {
          errors := errors + [err.value];
          assert done + target.msgs == out.items + [];
          return;
        }
        if |out.items| == outSize {
          // nothing was decoded, and Decode consumes nothing in that case
          assert oldInputLength == cumulation.ReadableBytes();
          break;
        }
        DecodedOne(s, at, prefix, cumulation.readerIndex);
      }
      assert done + target.msgs == out.items + [];
    }

    /** Bookkeeping for one emitted message in `CallDecode`. */
    lemma DecodedOne(s: seq<byte>, at: nat, prefix: seq<T>, next: nat)
      requires at <= |s| && DecodeAt(s, at).Whole? && DecodeAt(s, at).next == next
      requires decoder.de(DecodeAt(s, at).payload).Some?
      ensures var m := decoder.de(DecodeAt(s, at).payload).value;
              var rest := ParseFrom(decoder.de, s, next);
              ParseFrom(decoder.de, s, at) == Parsed([m] + rest.msgs, rest.pos, rest.err)
              && (prefix + [m]) + rest.msgs == prefix + ParseFrom(decoder.de, s, at).msgs
    {
    }
  }
}
