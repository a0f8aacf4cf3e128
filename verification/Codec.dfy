/**
 * The two binary encodings of benchmarks/serializing/TestSerialisationPerf.java as functions: a
 * ByteBuffer writes its numbers with the most significant byte first, UnsafeMemory copies them as
 * the (little-endian) machine holds them; the layout is the same. A double is its 64 bits.
 */
module Codec {
  import opened Basics

  datatype Order = BigEndian | LittleEndian

  /** A 64-bit pattern, such as the one of a double. */
  type Bits = x: nat | x < 0x1_0000_0000_0000_0000
  type Long = x: int | -0x8000_0000_0000_0000 <= x < 0x8000_0000_0000_0000
  type Int32 = x: int | -0x8000_0000 <= x < 0x8000_0000

  datatype Error = Overflow | Underflow | NegativeSize

  datatype Result<T> = Ok(value: T) | Err(error: Error)

  /** What is read from a place in the bytes, and where reading stops. */
  datatype Decoded<T> = Got(value: T, end: nat) | Failed(error: Error, end: nat)

  /** ObjectToBeSerialised */
  datatype Object = Object(sourceId: Long, special: bool, orderCode: Int32, priority: Int32,
                           prices: seq<Bits>, quantities: seq<Long>)

  /** Java arrays have fewer than 2^31 elements. */
  predicate Storable(o: Object) {
    |o.prices| < 0x8000_0000 && |o.quantities| < 0x8000_0000
  }

  // ------------------------------------------------------------------------------------
  // Numbers as bytes
  // ------------------------------------------------------------------------------------

  function Pow(n: nat): (p: nat)
    ensures p > 0
  {
    if n == 0 then 1 else 256 * Pow(n - 1)
  }

  /** The `n` low bytes of `v`. */
  function Bytes(order: Order, v: nat, n: nat): (s: seq<Byte>)
    ensures |s| == n
  {
    if n == 0 then []
    else match order
         case BigEndian => Bytes(order, v / 256, n - 1) + [v % 256]
         case LittleEndian => [v % 256] + Bytes(order, v / 256, n - 1)
  }

  lemma Quotient(v: nat, d: nat, q: nat, r: nat)
    requires d > 0 && v == d * q + r && r < d
    ensures v / d == q
  {
    var k := v / d;
    assert v == d * k + v % d;
    assert d * (k + 1) == d * k + d && d * (q + 1) == d * q + d;
    if k < q {
      MulMono(d, k + 1, q);
    } else if k > q {
      MulMono(d, q + 1, k);
    }
  }

  /** Dividing by 256 and then by `b`, where `q` and `r` are what the second division leaves. */
  lemma DivTwice(v: nat, b: nat, q: nat, r: nat)
    requires b > 0 && v / 256 == b * q + r && r < b
    ensures v / (256 * b) == q
  {
    assert (256 * b) * q == 256 * (b * q);
    Quotient(v, 256 * b, q, 256 * r + v % 256);
  }

  lemma DivPow(v: nat, n: nat)
    ensures v / 256 / Pow(n) == v / Pow(n + 1)
  {
    var b, w := Pow(n), v / 256;
    DivMod(w, b);
    DivTwice(v, b, w / b, w % b);
  }

  lemma DivMod(w: nat, b: nat)
    requires b > 0
    ensures w == b * (w / b) + w % b && w % b < b
  {
  }

  /** Which end comes first: the most significant byte, or the least significant one. */
  lemma {:induction false} BytesAt(v: nat, n: nat, i: nat)
    requires i < n
    ensures Bytes(BigEndian, v, n)[i] == v / Pow(n - 1 - i) % 256
    ensures Bytes(LittleEndian, v, n)[i] == v / Pow(i) % 256
  {
    assert Pow(0) == 1;
    if i < n - 1 {
      BytesAt(v / 256, n - 1, i);
      DivPow(v, n - 2 - i);
    }
    if i > 0 {
      BytesAt(v / 256, n - 1, i - 1);
      DivPow(v, i - 1);
    }
  }

  /** The value of the `n` bytes from `at` on. */
  function ValueAt(order: Order, s: seq<Byte>, at: nat, n: nat): (v: nat)
    requires at + n <= |s|
    ensures v < Pow(n)
    decreases n
  {
    if n == 0 then 0
    else match order
         case BigEndian => 256 * ValueAt(order, s, at, n - 1) + s[at + n - 1]
         case LittleEndian => s[at] + 256 * ValueAt(order, s, at + 1, n - 1)
  }

  /** The first `n` bytes of `part` stand in `s` at `at`. */
  predicate Agree(part: seq<Byte>, n: nat, s: seq<Byte>, at: nat)
    requires n <= |part| && at + n <= |s|
  {
    n == 0 || (Agree(part, n - 1, s, at) && s[at + n - 1] == part[n - 1])
  }

  /** `part` stands in `s` at `at`. */
  predicate At(part: seq<Byte>, s: seq<Byte>, at: nat) {
    at + |part| <= |s| && Agree(part, |part|, s, at)
  }

  lemma {:induction false} AgreeAll(part: seq<Byte>, n: nat, s: seq<Byte>, at: nat)
    requires n <= |part| && at + n <= |s|
    ensures Agree(part, n, s, at) <==> forall i :: 0 <= i < n ==> s[at + i] == part[i]
  {
    if n > 0 {
      AgreeAll(part, n - 1, s, at);
    }
  }

  lemma AtSlice(part: seq<Byte>, s: seq<Byte>, at: nat)
    requires at + |part| <= |s|
    ensures At(part, s, at) <==> s[at..at + |part|] == part
  {
    AgreeAll(part, |part|, s, at);
    var slice := s[at..at + |part|];
    if slice == part {
      forall i | 0 <= i < |part| ensures s[at + i] == part[i] {
        assert slice[i] == s[at + i];
      }
    }
  }

  lemma {:induction false} AgreeLeft(a: seq<Byte>, b: seq<Byte>, n: nat, s: seq<Byte>, at: nat)
    requires n <= |a| && at + n <= |s|
    ensures Agree(a + b, n, s, at) <==> Agree(a, n, s, at)
  {
    if n > 0 {
      AgreeLeft(a, b, n - 1, s, at);
    }
  }

  lemma {:induction false} AgreeBoth(a: seq<Byte>, b: seq<Byte>, n: nat, s: seq<Byte>, at: nat)
    requires n <= |b| && at + |a| + n <= |s|
    ensures Agree(a + b, |a| + n, s, at) <==> At(a, s, at) && Agree(b, n, s, at + |a|)
  {
    if n > 0 {
      AgreeBoth(a, b, n - 1, s, at);
    } else {
      AgreeLeft(a, b, |a|, s, at);
    }
  }

  lemma AtSplit(a: seq<Byte>, b: seq<Byte>, s: seq<Byte>, at: nat)
    ensures At(a + b, s, at) <==> At(a, s, at) && At(b, s, at + |a|)
  {
    if at + |a| + |b| <= |s| {
      AgreeBoth(a, b, |b|, s, at);
    }
  }

  lemma AtByte(b: Byte, s: seq<Byte>, at: nat)
    requires at < |s|
    ensures At([b], s, at) <==> s[at] == b
  {
    assert Agree([b], 1, s, at) <==> Agree([b], 0, s, at) && s[at] == [b][0];
  }

  /** Bytes and value determine each other. */
  lemma {:induction false} ValueBack(order: Order, v: nat, n: nat, s: seq<Byte>, at: nat)
    requires v < Pow(n) && at + n <= |s|
    ensures At(Bytes(order, v, n), s, at) <==> ValueAt(order, s, at, n) == v
  {
    if n > 0 {
      var rest := Bytes(order, v / 256, n - 1);
      match order {
        case BigEndian =>
          ValueBack(order, v / 256, n - 1, s, at);
          AtSplit(rest, [v % 256], s, at);
          AtByte(v % 256, s, at + n - 1);
        case LittleEndian =>
          ValueBack(order, v / 256, n - 1, s, at + 1);
          AtSplit([v % 256], rest, s, at);
          AtByte(v % 256, s, at);
      }
    }
  }

  lemma Pows()
    ensures Pow(4) == 0x1_0000_0000 && Pow(8) == 0x1_0000_0000_0000_0000
  {
    assert Pow(2) == 0x1_0000;
    assert Pow(4) == 256 * (256 * Pow(2));
    assert Pow(6) == 256 * (256 * Pow(4));
  }

  function Unsigned32(x: Int32): (u: nat)
    ensures u < 0x1_0000_0000 && (u == x || u == x + 0x1_0000_0000)
  {
    if x >= 0 then x else x + 0x1_0000_0000
  }

  function Signed32(u: nat): (x: Int32)
    requires u < 0x1_0000_0000
    ensures x == u || x == u - 0x1_0000_0000
  {
    if u < 0x8000_0000 then u else u - 0x1_0000_0000
  }

  function Unsigned64(x: Long): (u: Bits)
    ensures u == x || u == x + 0x1_0000_0000_0000_0000
  {
    if x >= 0 then x else x + 0x1_0000_0000_0000_0000
  }

  function Signed64(u: Bits): (x: Long)
    ensures x == u || x == u - 0x1_0000_0000_0000_0000
  {
    if u < 0x8000_0000_0000_0000 then u else u - 0x1_0000_0000_0000_0000
  }

  function Int32Bytes(order: Order, x: Int32): (s: seq<Byte>)
    ensures |s| == 4
  {
    Bytes(order, Unsigned32(x), 4)
  }

  function WordBytes(order: Order, w: Bits): (s: seq<Byte>)
    ensures |s| == 8
  {
    Bytes(order, w, 8)
  }

  function Int32At(order: Order, s: seq<Byte>, at: nat): Int32
    requires at + 4 <= |s|
  {
    Pows();
    Signed32(ValueAt(order, s, at, 4))
  }

  function WordAt(order: Order, s: seq<Byte>, at: nat): Bits
    requires at + 8 <= |s|
  {
    Pows();
    ValueAt(order, s, at, 8)
  }

  lemma Int32Back(order: Order, x: Int32, s: seq<Byte>, at: nat)
    requires at + 4 <= |s|
    ensures At(Int32Bytes(order, x), s, at) <==> Int32At(order, s, at) == x
  {
    Pows();
    ValueBack(order, Unsigned32(x), 4, s, at);
  }

  lemma WordBack(order: Order, w: Bits, s: seq<Byte>, at: nat)
    requires at + 8 <= |s|
    ensures At(WordBytes(order, w), s, at) <==> WordAt(order, s, at) == w
  {
    Pows();
    ValueBack(order, w, 8, s, at);
  }

  // ------------------------------------------------------------------------------------
  // Arrays of 64-bit words behind their length
  // ------------------------------------------------------------------------------------

  /** The first `n` words. */
  function Cat(order: Order, ws: seq<Bits>, n: nat): (s: seq<Byte>)
    requires n <= |ws|
    ensures |s| == 8 * n
  {
    if n == 0 then [] else Cat(order, ws, n - 1) + WordBytes(order, ws[n - 1])
  }

  function EncodeWords(order: Order, ws: seq<Bits>): (s: seq<Byte>)
    requires |ws| < 0x8000_0000
    ensures |s| == 4 + 8 * |ws|
  {
    Int32Bytes(order, |ws|) + Cat(order, ws, |ws|)
  }

  /** `n` words from `at` on. */
  function WordsAt(order: Order, s: seq<Byte>, at: nat, n: nat): (ws: seq<Bits>)
    requires at + 8 * n <= |s|
    ensures |ws| == n
  {
    if n == 0 then [] else WordsAt(order, s, at, n - 1) + [WordAt(order, s, at + 8 * (n - 1))]
  }

  lemma WordsOneMore(order: Order, s: seq<Byte>, at: nat, ws: seq<Bits>, w: Bits)
    requires at + 8 * |ws| + 8 <= |s| && ws == WordsAt(order, s, at, |ws|)
    requires w == WordAt(order, s, at + 8 * |ws|)
    ensures ws + [w] == WordsAt(order, s, at, |ws| + 1)
  {
  }

  /** The bytes that whole words take when `room` are left. */
  function Whole(room: nat): (n: nat)
    ensures n <= room < n + 8
  {
    if room < 8 then 0 else 8 + Whole(room - 8)
  }

  lemma {:induction false} WholeIs(room: nat, k: nat)
    requires 8 * k <= room < 8 * k + 8
    ensures Whole(room) == 8 * k
  {
    if k > 0 {
      WholeIs(room - 8, k - 1);
    }
  }

  function DecodeWords(order: Order, s: seq<Byte>, at: nat): (d: Decoded<seq<Bits>>)
    requires at <= |s|
    ensures at <= d.end <= |s|
  {
    if at + 4 > |s| then Failed(Underflow, at)
    else
      var n := Int32At(order, s, at);
      if n < 0 then Failed(NegativeSize, at + 4)
      else if at + 4 + 8 * n > |s| then Failed(Underflow, at + 4 + Whole(|s| - at - 4))
      else Got(WordsAt(order, s, at + 4, n), at + 4 + 8 * n)
  }

  lemma SnocEqual(a: seq<Bits>, x: Bits, ws: seq<Bits>, n: nat)
    requires 0 < n <= |ws| && |a| == n - 1
    ensures a + [x] == ws[..n] <==> a == ws[..n - 1] && x == ws[n - 1]
  {
    assert ws[..n] == ws[..n - 1] + [ws[n - 1]];
    assert (a + [x])[..n - 1] == a && (a + [x])[n - 1] == x;
    assert ws[..n][..n - 1] == ws[..n - 1];
  }

  lemma CatStep(order: Order, ws: seq<Bits>, n: nat, s: seq<Byte>, at: nat)
    requires 0 < n <= |ws| && at + 8 * n <= |s|
    ensures At(Cat(order, ws, n), s, at) <==>
            At(Cat(order, ws, n - 1), s, at) && WordAt(order, s, at + 8 * (n - 1)) == ws[n - 1]
  {
    AtSplit(Cat(order, ws, n - 1), WordBytes(order, ws[n - 1]), s, at);
    WordBack(order, ws[n - 1], s, at + 8 * (n - 1));
  }

  lemma WordsStep(order: Order, ws: seq<Bits>, n: nat, s: seq<Byte>, at: nat)
    requires 0 < n <= |ws| && at + 8 * n <= |s|
    ensures WordsAt(order, s, at, n) == ws[..n] <==>
            && WordsAt(order, s, at, n - 1) == ws[..n - 1]
            && WordAt(order, s, at + 8 * (n - 1)) == ws[n - 1]
  {
    SnocEqual(WordsAt(order, s, at, n - 1), WordAt(order, s, at + 8 * (n - 1)), ws, n);
  }

  /** The bytes of words, and the words of bytes. */
  lemma {:induction false} CatAt(order: Order, ws: seq<Bits>, n: nat, s: seq<Byte>, at: nat)
    requires n <= |ws| && at + 8 * n <= |s|
    ensures At(Cat(order, ws, n), s, at) <==> WordsAt(order, s, at, n) == ws[..n]
  {
    if n > 0 {
      CatAt(order, ws, n - 1, s, at);
      CatStep(order, ws, n, s, at);
      WordsStep(order, ws, n, s, at);
    }
  }

  lemma DecodeWordsIs(order: Order, ws: seq<Bits>, s: seq<Byte>, at: nat, end: nat)
    requires end == at + 4 + 8 * |ws| <= |s|
    requires Int32At(order, s, at) == |ws| && WordsAt(order, s, at + 4, |ws|) == ws
    ensures DecodeWords(order, s, at) == Got(ws, end)
  {
  }

  /** An array is decoded where it is encoded... */
  lemma WordsBack(order: Order, ws: seq<Bits>, s: seq<Byte>, at: nat, end: nat)
    requires |ws| < 0x8000_0000 && At(EncodeWords(order, ws), s, at) && end == at + 4 + 8 * |ws|
    ensures DecodeWords(order, s, at) == Got(ws, end)
  {
    var n := |ws|;
    AtSplit(Int32Bytes(order, n), Cat(order, ws, n), s, at);
    Int32Back(order, n, s, at);
    CatAt(order, ws, n, s, at + 4);
    assert ws[..n] == ws;
    DecodeWordsIs(order, ws, s, at, end);
  }

  /** ...and nowhere else. */
  lemma WordsForth(order: Order, s: seq<Byte>, at: nat)
    requires at <= |s| && DecodeWords(order, s, at).Got?
    ensures var d := DecodeWords(order, s, at);
            && |d.value| < 0x8000_0000 && d.end == at + 4 + 8 * |d.value|
            && At(EncodeWords(order, d.value), s, at)
  {
    var n: nat := Int32At(order, s, at);
    var ws := WordsAt(order, s, at + 4, n);
    Int32Back(order, n, s, at);
    CatAt(order, ws, n, s, at + 4);
    assert ws[..n] == ws;
    AtSplit(Int32Bytes(order, n), Cat(order, ws, n), s, at);
  }

  // ------------------------------------------------------------------------------------
  // Objects
  // ------------------------------------------------------------------------------------

  function AllUnsigned(qs: seq<Long>): (ws: seq<Bits>)
    ensures |ws| == |qs| && forall i :: 0 <= i < |qs| ==> ws[i] == Unsigned64(qs[i])
  {
    seq(|qs|, i requires 0 <= i < |qs| => Unsigned64(qs[i]))
  }

  function AllSigned(ws: seq<Bits>): (qs: seq<Long>)
    ensures |qs| == |ws| && forall i :: 0 <= i < |ws| ==> qs[i] == Signed64(ws[i])
  {
    seq(|ws|, i requires 0 <= i < |ws| => Signed64(ws[i]))
  }

  function Flag(b: bool): Byte {
    if b then 1 else 0
  }

  function EncodeHead(order: Order, o: Object): (s: seq<Byte>)
    ensures |s| == 17
  {
    WordBytes(order, Unsigned64(o.sourceId)) + [Flag(o.special)]
    + Int32Bytes(order, o.orderCode) + Int32Bytes(order, o.priority)
  }

  function Encode(order: Order, o: Object): (s: seq<Byte>)
    requires Storable(o)
    ensures |s| == 25 + 8 * (|o.prices| + |o.quantities|)
  {
    EncodeHead(order, o) + EncodeWords(order, o.prices)
    + EncodeWords(order, AllUnsigned(o.quantities))
  }

  datatype Arrays = Arrays(prices: seq<Bits>, quantities: seq<Bits>)

  /** The two arrays, one behind the other. */
  function DecodeArrays(order: Order, s: seq<Byte>, at: nat): (d: Decoded<Arrays>)
    requires at <= |s|
    ensures at <= d.end <= |s|
  {
    match DecodeWords(order, s, at)
    case Failed(e, end) => Failed(e, end)
    case Got(ps, mid) =>
      match DecodeWords(order, s, mid)
      case Failed(e, end) => Failed(e, end)
      case Got(us, end) => Got(Arrays(ps, us), end)
  }

  /** The fields before the arrays take 8, 1, 4 and 4 bytes: how many of these can be read when
      only `room` are left. */
  function HeadRead(room: nat): (n: nat)
    ensures n <= room && (room < 17 ==> room - n < 8)
  {
    if room < 8 then 0 else if room < 9 then 8 else if room < 13 then 9 else if room < 17 then 13 else 17
  }

  function Decode(order: Order, s: seq<Byte>, at: nat): (d: Decoded<Object>)
    requires at <= |s|
    ensures at <= d.end <= |s|
  {
    if at + 17 > |s| then Failed(Underflow, at + HeadRead(|s| - at))
    else
      match DecodeArrays(order, s, at + 17)
      case Failed(e, end) => Failed(e, end)
      case Got(a, end) =>
        Got(Object(Signed64(WordAt(order, s, at)), s[at + 8] != 0,
                   Int32At(order, s, at + 9), Int32At(order, s, at + 13),
                   a.prices, AllSigned(a.quantities)),
            end)
  }

  /** Where an array that cannot be read leaves off. */
  lemma WordsFail(order: Order, s: seq<Byte>, at: nat)
    requires at <= |s| && DecodeWords(order, s, at).Failed?
    ensures var d := DecodeWords(order, s, at);
            if d.error == NegativeSize then d.end >= at + 4 && Int32At(order, s, d.end - 4) < 0
            else d.error == Underflow && |s| - d.end < 8
  {
  }

  lemma ArraysFail(order: Order, s: seq<Byte>, at: nat)
    requires at <= |s| && DecodeArrays(order, s, at).Failed?
    ensures var d := DecodeArrays(order, s, at);
            if d.error == NegativeSize then d.end >= at + 4 && Int32At(order, s, d.end - 4) < 0
            else d.error == Underflow && |s| - d.end < 8
  {
    var d := DecodeWords(order, s, at);
    if d.Failed? {
      WordsFail(order, s, at);
    } else {
      WordsFail(order, s, d.end);
    }
  }

  /** A reading that fails has either run out of bytes, with less than a number left, or has just
      read a negative array length. */
  lemma DecodeFails(order: Order, s: seq<Byte>, at: nat)
    requires at <= |s| && Decode(order, s, at).Failed?
    ensures var d := Decode(order, s, at);
            if d.error == NegativeSize then d.end >= at + 21 && Int32At(order, s, d.end - 4) < 0
            else d.error == Underflow && |s| - d.end < 8
  {
    if at + 17 <= |s| {
      ArraysFail(order, s, at + 17);
    }
  }

  /** What stands in the first 17 bytes. */
  predicate HeadIs(order: Order, o: Object, s: seq<Byte>, at: nat)
    requires at + 17 <= |s|
  {
    && Signed64(WordAt(order, s, at)) == o.sourceId && (s[at + 8] != 0) == o.special
    && Int32At(order, s, at + 9) == o.orderCode && Int32At(order, s, at + 13) == o.priority
  }

  lemma HeadSplit(order: Order, o: Object, s: seq<Byte>, at: nat)
    requires at + 17 <= |s|
    ensures At(EncodeHead(order, o), s, at) <==>
            && At(WordBytes(order, Unsigned64(o.sourceId)), s, at)
            && s[at + 8] == Flag(o.special)
            && At(Int32Bytes(order, o.orderCode), s, at + 9)
            && At(Int32Bytes(order, o.priority), s, at + 13)
  {
    var a, b := WordBytes(order, Unsigned64(o.sourceId)), [Flag(o.special)];
    var c, d := Int32Bytes(order, o.orderCode), Int32Bytes(order, o.priority);
    AtSplit(a + b + c, d, s, at);
    AtSplit(a + b, c, s, at);
    AtSplit(a, b, s, at);
    AtByte(Flag(o.special), s, at + 8);
  }

  lemma HeadBack(order: Order, o: Object, s: seq<Byte>, at: nat)
    requires at + 17 <= |s|
    ensures At(EncodeHead(order, o), s, at) <==> HeadIs(order, o, s, at) && s[at + 8] < 2
  {
    HeadSplit(order, o, s, at);
    WordBack(order, Unsigned64(o.sourceId), s, at);
    Int32Back(order, o.orderCode, s, at + 9);
    Int32Back(order, o.priority, s, at + 13);
  }

  lemma SignedBack(qs: seq<Long>)
    ensures AllSigned(AllUnsigned(qs)) == qs
  {
  }

  lemma UnsignedBack(ws: seq<Bits>)
    ensures AllUnsigned(AllSigned(ws)) == ws
  {
  }

  lemma ObjectSplit(order: Order, o: Object, s: seq<Byte>, at: nat)
    requires Storable(o)
    ensures At(Encode(order, o), s, at) <==>
            && At(EncodeHead(order, o), s, at)
            && At(EncodeWords(order, o.prices), s, at + 17)
            && At(EncodeWords(order, AllUnsigned(o.quantities)), s, at + 21 + 8 * |o.prices|)
  {
    var h, p := EncodeHead(order, o), EncodeWords(order, o.prices);
    AtSplit(h + p, EncodeWords(order, AllUnsigned(o.quantities)), s, at);
    AtSplit(h, p, s, at);
  }

  lemma DecodeIs(order: Order, s: seq<Byte>, at: nat, o: Object, a: Arrays, end: nat)
    requires at + 17 <= |s| && HeadIs(order, o, s, at)
    requires DecodeArrays(order, s, at + 17) == Got(a, end)
    requires a.prices == o.prices && AllSigned(a.quantities) == o.quantities
    ensures Decode(order, s, at) == Got(o, end)
  {
  }

  lemma ArraysBack(order: Order, a: Arrays, s: seq<Byte>, at: nat, mid: nat, end: nat)
    requires |a.prices| < 0x8000_0000 && |a.quantities| < 0x8000_0000
    requires mid == at + 4 + 8 * |a.prices| && end == mid + 4 + 8 * |a.quantities|
    requires At(EncodeWords(order, a.prices), s, at) && At(EncodeWords(order, a.quantities), s, mid)
    ensures DecodeArrays(order, s, at) == Got(a, end)
  {
    WordsBack(order, a.prices, s, at, mid);
    WordsBack(order, a.quantities, s, mid, end);
  }

  /** Where every field of an object stands. */
  lemma EncodeLayout(order: Order, o: Object)
    requires Storable(o)
    ensures var s, mid := Encode(order, o), 21 + 8 * |o.prices|;
            && At(WordBytes(order, Unsigned64(o.sourceId)), s, 0)
            && s[8] == (if o.special then 1 else 0)
            && At(Int32Bytes(order, o.orderCode), s, 9) && At(Int32Bytes(order, o.priority), s, 13)
            && At(Int32Bytes(order, |o.prices|), s, 17) && At(Cat(order, o.prices, |o.prices|), s, 21)
            && At(Int32Bytes(order, |o.quantities|), s, mid)
            && At(Cat(order, AllUnsigned(o.quantities), |o.quantities|), s, mid + 4)
  {
    var s := Encode(order, o);
    assert s[0..0 + |s|] == s;
    AtSlice(s, s, 0);
    ObjectSplit(order, o, s, 0);
    HeadSplit(order, o, s, 0);
    var us := AllUnsigned(o.quantities);
    AtSplit(Int32Bytes(order, |o.prices|), Cat(order, o.prices, |o.prices|), s, 17);
    AtSplit(Int32Bytes(order, |us|), Cat(order, us, |us|), s, 21 + 8 * |o.prices|);
  }

  /** A written object is read back, whatever stands before and behind it, and the reading ends
      where the writing did. */
  lemma ObjectBack(order: Order, o: Object, s: seq<Byte>, at: nat, end: nat)
    requires Storable(o) && At(Encode(order, o), s, at) && end == at + |Encode(order, o)|
    ensures Decode(order, s, at) == Got(o, end)
  {
    var a := Arrays(o.prices, AllUnsigned(o.quantities));
    var mid := at + 21 + 8 * |o.prices|;
    ObjectSplit(order, o, s, at);
    HeadBack(order, o, s, at);
    ArraysBack(order, a, s, at + 17, mid, end);
    SignedBack(o.quantities);
    DecodeIs(order, s, at, o, a, end);
  }

  lemma ArraysForth(order: Order, s: seq<Byte>, at: nat)
    requires at <= |s| && DecodeArrays(order, s, at).Got?
    ensures var d := DecodeArrays(order, s, at);
            && |d.value.prices| < 0x8000_0000 && |d.value.quantities| < 0x8000_0000
            && d.end == at + 8 + 8 * (|d.value.prices| + |d.value.quantities|)
            && At(EncodeWords(order, d.value.prices), s, at)
            && At(EncodeWords(order, d.value.quantities), s, at + 4 + 8 * |d.value.prices|)
  {
    WordsForth(order, s, at);
    WordsForth(order, s, DecodeWords(order, s, at).end);
  }

  /** Bytes that are read as an object are its encoding exactly when the byte of the flag is 0
      or 1. */
  lemma ObjectForth(order: Order, s: seq<Byte>, at: nat)
    requires at <= |s| && Decode(order, s, at).Got?
    ensures var d := Decode(order, s, at);
            && Storable(d.value) && d.end == at + |Encode(order, d.value)|
            && at + 8 < |s| && (At(Encode(order, d.value), s, at) <==> s[at + 8] < 2)
  {
    var o := Decode(order, s, at).value;
    ArraysForth(order, s, at + 17);
    UnsignedBack(DecodeArrays(order, s, at + 17).value.quantities);
    ObjectSplit(order, o, s, at);
    HeadBack(order, o, s, at);
  }

  /** Two objects are never written as the same bytes. */
  lemma EncodeInjective(order: Order, o: Object, o': Object)
    requires Storable(o) && Storable(o') && Encode(order, o) == Encode(order, o')
    ensures o == o'
  {
    var s := Encode(order, o);
    assert s[0..0 + |s|] == s;
    AtSlice(s, s, 0);
    ObjectBack(order, o, s, 0, |s|);
    ObjectBack(order, o', s, 0, |s|);
  }
}
