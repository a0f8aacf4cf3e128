/**
 * The two buffers of benchmarks/serializing/TestSerialisationPerf.java, the methods of
 * ObjectToBeSerialised that write to and read from them, and the loops of the two test cases.
 * An exception is a false `ok` or an `Err`.
 */
module CodecBuffers {
  import opened Basics
  import opened Seqs
  import opened Codec

  // ------------------------------------------------------------------------------------
  // What writing does to a buffer
  // ------------------------------------------------------------------------------------

  /** From contents `s0` and position `p0` to `s1` and `p1`, `bs` was written as far as there is
      room: all of it when it fits, otherwise a beginning that leaves no room for a number. */
  ghost predicate Wrote(s0: seq<Byte>, p0: nat, s1: seq<Byte>, p1: nat, limit: nat,
                        bs: seq<Byte>, ok: bool)
  {
    && p0 <= p1 <= limit <= |s0| && p1 - p0 <= |bs|
    && s1 == Splice(s0, p0, bs[..p1 - p0])
    && ok == (|bs| <= limit - p0)
    && (if ok then p1 == p0 + |bs| else limit - p1 < 8)
  }

  lemma SpliceTwice(s: seq<Byte>, at: nat, a: seq<Byte>, b: seq<Byte>)
    requires at + |a| + |b| <= |s|
    ensures Splice(Splice(s, at, a), at + |a|, b) == Splice(s, at, a + b)
  {
    var t := Splice(s, at, a);
    assert t[..at + |a|] == s[..at] + a;
    assert t[at + |a| + |b|..] == s[at + |a| + |b|..];
    assert s[..at] + (a + b) == s[..at] + a + b;
  }

  lemma WroteNothing(s: seq<Byte>, p: nat, limit: nat)
    requires p <= limit <= |s|
    ensures Wrote(s, p, s, p, limit, [], true)
  {
    assert Splice(s, p, []) == s;
  }

  lemma ConcatPrefix(a: seq<Byte>, b: seq<Byte>, k: nat)
    requires k <= |b|
    ensures (a + b)[..|a| + k] == a + b[..k]
  {
  }

  /** One writing after another. */
  lemma WroteMore(s0: seq<Byte>, p0: nat, s1: seq<Byte>, p1: nat, s2: seq<Byte>, p2: nat,
                  limit: nat, a: seq<Byte>, b: seq<Byte>, ok: bool)
    requires Wrote(s0, p0, s1, p1, limit, a, true) && Wrote(s1, p1, s2, p2, limit, b, ok)
    ensures Wrote(s0, p0, s2, p2, limit, a + b, ok)
  {
    assert a[..|a|] == a;
    ConcatPrefix(a, b, p2 - p1);
    SpliceTwice(s0, p0, a, b[..p2 - p1]);
  }

  /** What follows a failed writing is not written. */
  lemma WroteStop(s0: seq<Byte>, p0: nat, s1: seq<Byte>, p1: nat, limit: nat,
                  a: seq<Byte>, b: seq<Byte>)
    requires Wrote(s0, p0, s1, p1, limit, a, false)
    ensures Wrote(s0, p0, s1, p1, limit, a + b, false)
  {
    assert (a + b)[..p1 - p0] == a[..p1 - p0];
  }

  /** What was written stands there. */
  lemma WroteAt(s0: seq<Byte>, p0: nat, s1: seq<Byte>, p1: nat, limit: nat, bs: seq<Byte>)
    requires Wrote(s0, p0, s1, p1, limit, bs, true)
    ensures |s1| == |s0| && p1 == p0 + |bs| && At(bs, s1, p0) && At(bs, s1[..p1], p0)
  {
    assert bs[..|bs|] == bs;
    assert s1[p0..p1] == bs && s1[..p1][p0..p1] == bs;
    AtSlice(bs, s1, p0);
    AtSlice(bs, s1[..p1], p0);
  }

  // ------------------------------------------------------------------------------------
  // java.nio.ByteBuffer
  // ------------------------------------------------------------------------------------

  class ByteBuffer {
    const hb: array<Byte>
    var position: nat
    var limit: nat

    ghost predicate Valid()
      reads this
    {
      position <= limit <= hb.Length
    }

    constructor (capacity: nat)
      ensures Valid() && fresh(hb) && hb.Length == capacity && position == 0 && limit == capacity
    {
      hb := new Byte[capacity](_ => 0);
      position, limit := 0, capacity;
    }

    method Clear()
      requires Valid()
      modifies this
      ensures Valid() && position == 0 && limit == hb.Length
    {
      position, limit := 0, hb.Length;
    }

    method Flip()
      requires Valid()
      modifies this
      ensures Valid() && position == 0 && limit == old(position)
    {
      limit := position;
      position := 0;
    }

    /** put, putInt, putLong and putDouble: the bytes of one number, or an overflow. */
    method Put(bs: seq<Byte>) returns (ok: bool)
      requires Valid() && |bs| <= 8
      modifies this`position, hb
      ensures Valid()
      ensures Wrote(old(hb[..]), old(position), hb[..], position, limit, bs, ok)
    {
      ok := |bs| <= limit - position;
      if ok {
        forall i | 0 <= i < |bs| {
          hb[position + i] := bs[i];
        }
        position := position + |bs|;
        assert bs[..|bs|] == bs;
        assert hb[..] == Splice(old(hb[..]), old(position), bs);
      } else {
        assert Splice(hb[..], position, []) == hb[..];
      }
    }

    /** getLong and getDouble. */
    method GetLong() returns (r: Result<Bits>)
      requires Valid()
      modifies this`position
      ensures Valid()
      ensures if old(position) + 8 <= limit
              then r == Ok(WordAt(BigEndian, hb[..limit], old(position)))
                   && position == old(position) + 8
              else r == Err(Underflow) && position == old(position)
    {
      if limit - position < 8 {
        return Err(Underflow);
      }
      r := Ok(WordAt(BigEndian, hb[..limit], position));
      position := position + 8;
    }

    method GetInt() returns (r: Result<Int32>)
      requires Valid()
      modifies this`position
      ensures Valid()
      ensures if old(position) + 4 <= limit
              then r == Ok(Int32At(BigEndian, hb[..limit], old(position)))
                   && position == old(position) + 4
              else r == Err(Underflow) && position == old(position)
    {
      if limit - position < 4 {
        return Err(Underflow);
      }
      r := Ok(Int32At(BigEndian, hb[..limit], position));
      position := position + 4;
    }

    method GetByte() returns (r: Result<Byte>)
      requires Valid()
      modifies this`position
      ensures Valid()
      ensures if old(position) + 1 <= limit
              then r == Ok(hb[old(position)]) && position == old(position) + 1
              else r == Err(Underflow) && position == old(position)
    {
      if limit - position < 1 {
        return Err(Underflow);
      }
      r := Ok(hb[position]);
      position := position + 1;
    }
  }

  /** The loops of ObjectToBeSerialised.write. */
  method WriteWords(b: ByteBuffer, ws: seq<Bits>) returns (ok: bool)
    requires b.Valid()
    modifies b`position, b.hb
    ensures b.Valid()
    ensures Wrote(old(b.hb[..]), old(b.position), b.hb[..], b.position, b.limit,
                  Cat(BigEndian, ws, |ws|), ok)
  {
    ghost var s0, p0 := b.hb[..], b.position;
    WroteNothing(s0, p0, b.limit);
    var i := 0;
    while i < |ws|
      invariant 0 <= i <= |ws| && b.Valid()
      invariant Wrote(s0, p0, b.hb[..], b.position, b.limit, Cat(BigEndian, ws, i), true)
    {
      ghost var s1, p1 := b.hb[..], b.position;
      ok := b.Put(WordBytes(BigEndian, ws[i]));
      WroteMore(s0, p0, s1, p1, b.hb[..], b.position, b.limit,
                Cat(BigEndian, ws, i), WordBytes(BigEndian, ws[i]), ok);
      i := i + 1;
      if !ok {
        CatStops(BigEndian, ws, i, s0, p0, b.hb[..], b.position, b.limit);
        return;
      }
    }
    ok := true;
  }

  /** The number of elements and the elements. */
  method WriteArray(b: ByteBuffer, ws: seq<Bits>) returns (ok: bool)
    requires b.Valid() && |ws| < 0x8000_0000
    modifies b`position, b.hb
    ensures b.Valid()
    ensures Wrote(old(b.hb[..]), old(b.position), b.hb[..], b.position, b.limit,
                  EncodeWords(BigEndian, ws), ok)
  {
    ghost var s0, p0 := b.hb[..], b.position;
    var count := Int32Bytes(BigEndian, |ws|);
    ghost var words := Cat(BigEndian, ws, |ws|);
    ok := b.Put(count);
    if !ok {
      WroteStop(s0, p0, b.hb[..], b.position, b.limit, count, words);
      return;
    }
    ghost var s1, p1 := b.hb[..], b.position;
    ok := WriteWords(b, ws);
    WroteMore(s0, p0, s1, p1, b.hb[..], b.position, b.limit, count, words, ok);
  }

  /** A failure in the middle of an array is a failure of the array. */
  lemma {:induction false} CatStops(order: Order, ws: seq<Bits>, i: nat, s0: seq<Byte>, p0: nat,
                                    s1: seq<Byte>, p1: nat, limit: nat)
    requires i <= |ws| && Wrote(s0, p0, s1, p1, limit, Cat(order, ws, i), false)
    ensures Wrote(s0, p0, s1, p1, limit, Cat(order, ws, |ws|), false)
    decreases |ws| - i
  {
    if i < |ws| {
      WroteStop(s0, p0, s1, p1, limit, Cat(order, ws, i), WordBytes(order, ws[i]));
      CatStops(order, ws, i + 1, s0, p0, s1, p1, limit);
    }
  }

  /** The next field, unless an earlier one did not fit. */
  method PutNext(b: ByteBuffer, bs: seq<Byte>, good: bool, ghost s0: seq<Byte>, ghost p0: nat,
                 ghost done: seq<Byte>)
    returns (ok: bool)
    requires b.Valid() && |bs| <= 8
    requires Wrote(s0, p0, b.hb[..], b.position, b.limit, done, good)
    modifies b`position, b.hb
    ensures b.Valid()
    ensures Wrote(s0, p0, b.hb[..], b.position, b.limit, done + bs, ok)
  {
    if !good {
      WroteStop(s0, p0, b.hb[..], b.position, b.limit, done, bs);
      return false;
    }
    ghost var s1, p1 := b.hb[..], b.position;
    ok := b.Put(bs);
    WroteMore(s0, p0, s1, p1, b.hb[..], b.position, b.limit, done, bs, ok);
  }

  /** The next array, unless an earlier field did not fit. */
  method WriteNext(b: ByteBuffer, ws: seq<Bits>, good: bool, ghost s0: seq<Byte>, ghost p0: nat,
                   ghost done: seq<Byte>)
    returns (ok: bool)
    requires b.Valid() && |ws| < 0x8000_0000
    requires Wrote(s0, p0, b.hb[..], b.position, b.limit, done, good)
    modifies b`position, b.hb
    ensures b.Valid()
    ensures Wrote(s0, p0, b.hb[..], b.position, b.limit, done + EncodeWords(BigEndian, ws), ok)
  {
    if !good {
      WroteStop(s0, p0, b.hb[..], b.position, b.limit, done, EncodeWords(BigEndian, ws));
      return false;
    }
    ghost var s1, p1 := b.hb[..], b.position;
    ok := WriteArray(b, ws);
    WroteMore(s0, p0, s1, p1, b.hb[..], b.position, b.limit,
              done, EncodeWords(BigEndian, ws), ok);
  }

  method WriteHead(b: ByteBuffer, o: Object) returns (ok: bool)
    requires b.Valid()
    modifies b`position, b.hb
    ensures b.Valid()
    ensures Wrote(old(b.hb[..]), old(b.position), b.hb[..], b.position, b.limit,
                  EncodeHead(BigEndian, o), ok)
  {
    ghost var s0, p0 := b.hb[..], b.position;
    ghost var done := WordBytes(BigEndian, Unsigned64(o.sourceId));
    ok := b.Put(WordBytes(BigEndian, Unsigned64(o.sourceId)));
    ok := PutNext(b, [Flag(o.special)], ok, s0, p0, done);
    done := done + [Flag(o.special)];
    ok := PutNext(b, Int32Bytes(BigEndian, o.orderCode), ok, s0, p0, done);
    done := done + Int32Bytes(BigEndian, o.orderCode);
    ok := PutNext(b, Int32Bytes(BigEndian, o.priority), ok, s0, p0, done);
  }

  /** ObjectToBeSerialised.write(ByteBuffer): the encoding is written exactly when it fits; when
      it does not, the exception leaves a beginning of it. */
  method Write(b: ByteBuffer, o: Object) returns (ok: bool)
    requires b.Valid() && Storable(o)
    modifies b`position, b.hb
    ensures b.Valid()
    ensures Wrote(old(b.hb[..]), old(b.position), b.hb[..], b.position, b.limit,
                  Encode(BigEndian, o), ok)
  {
    ghost var s0, p0 := b.hb[..], b.position;
    ghost var head := EncodeHead(BigEndian, o);
    ok := WriteHead(b, o);
    ok := WriteNext(b, o.prices, ok, s0, p0, head);
    ok := WriteNext(b, AllUnsigned(o.quantities), ok, s0, p0,
                    head + EncodeWords(BigEndian, o.prices));
  }

  /** The loops of ObjectToBeSerialised.read. */
  method ReadWords(b: ByteBuffer, n: nat) returns (r: Result<seq<Bits>>)
    requires b.Valid()
    modifies b`position
    ensures b.Valid()
    ensures if old(b.position) + 8 * n <= b.limit
            then && r == Ok(WordsAt(BigEndian, b.hb[..b.limit], old(b.position), n))
                 && b.position == old(b.position) + 8 * n
            else && r == Err(Underflow)
                 && b.position == old(b.position) + Whole(b.limit - old(b.position))
  {
    ghost var s, at := b.hb[..b.limit], b.position;
    var ws: seq<Bits> := [];
    while |ws| < n
      invariant |ws| <= n && b.Valid()
      invariant b.position == at + 8 * |ws| <= |s|
      invariant ws == WordsAt(BigEndian, s, at, |ws|)
      decreases n - |ws|
    {
      var w := b.GetLong();
      if w.Err? {
        WholeIs(b.limit - at, |ws|);
        return Err(w.error);
      }
      WordsOneMore(BigEndian, s, at, ws, w.value);
      ws := ws + [w.value];
    }
    r := Ok(ws);
  }

  method ReadArray(b: ByteBuffer) returns (r: Result<seq<Bits>>)
    requires b.Valid()
    modifies b`position
    ensures b.Valid()
    ensures match DecodeWords(BigEndian, b.hb[..b.limit], old(b.position))
            case Failed(e, end) => r == Err(e) && b.position == end
            case Got(ws, end) => r == Ok(ws) && b.position == end
  {
    var n := b.GetInt();
    if n.Err? {
      return Err(n.error);
    }
    if n.value < 0 {
      return Err(NegativeSize);
    }
    r := ReadWords(b, n.value);
  }

  /** The 17 bytes before the arrays; the object carries no arrays yet. */
  method ReadHead(b: ByteBuffer) returns (r: Result<Object>)
    requires b.Valid()
    modifies b`position
    ensures b.Valid()
    ensures if old(b.position) + 17 <= b.limit
            then && b.position == old(b.position) + 17 && r.Ok?
                 && HeadIs(BigEndian, r.value, b.hb[..b.limit], old(b.position))
            else && r == Err(Underflow)
                 && b.position == old(b.position) + HeadRead(b.limit - old(b.position))
  {
    var id := b.GetLong();
    if id.Err? {
      return Err(id.error);
    }
    var flag := b.GetByte();
    if flag.Err? {
      return Err(flag.error);
    }
    var code := b.GetInt();
    if code.Err? {
      return Err(code.error);
    }
    var priority := b.GetInt();
    if priority.Err? {
      return Err(priority.error);
    }
    r := Ok(Object(Signed64(id.value), flag.value != 0, code.value, priority.value, [], []));
  }

  method ReadArrays(b: ByteBuffer) returns (r: Result<Arrays>)
    requires b.Valid()
    modifies b`position
    ensures b.Valid()
    ensures match DecodeArrays(BigEndian, b.hb[..b.limit], old(b.position))
            case Failed(e, end) => r == Err(e) && b.position == end
            case Got(a, end) => r == Ok(a) && b.position == end
  {
    var prices := ReadArray(b);
    if prices.Err? {
      return Err(prices.error);
    }
    var quantities := ReadArray(b);
    if quantities.Err? {
      return Err(quantities.error);
    }
    r := Ok(Arrays(prices.value, quantities.value));
  }

  /** ObjectToBeSerialised.read(ByteBuffer): what is decoded at the position, and the position
      where decoding stops, also after an exception. */
  method Read(b: ByteBuffer) returns (r: Result<Object>)
    requires b.Valid()
    modifies b`position
    ensures b.Valid()
    ensures match Decode(BigEndian, b.hb[..b.limit], old(b.position))
            case Failed(e, end) => r == Err(e) && b.position == end
            case Got(item, end) => r == Ok(item) && b.position == end
  {
    var head := ReadHead(b);
    if head.Err? {
      return head;
    }
    var a := ReadArrays(b);
    if a.Err? {
      return Err(a.error);
    }
    r := Ok(head.value.(prices := a.value.prices, quantities := AllSigned(a.value.quantities)));
  }

  // ------------------------------------------------------------------------------------
  // The loops of the ByteBuffer test case
  // ------------------------------------------------------------------------------------

  /** The buffer holds the item and nothing else up to the position. */
  ghost predicate Loaded(b: ByteBuffer, item: Object)
    requires Storable(item)
    reads b, b.hb
  {
    && b.Valid() && b.position == |Encode(BigEndian, item)|
    && At(Encode(BigEndian, item), b.hb[..], 0)
  }

  /** The repeated writing succeeds exactly when the item fits the whole buffer. */
  method TestWrite(b: ByteBuffer, item: Object, repetitions: nat) returns (ok: bool)
    requires b.Valid() && Storable(item) && repetitions > 0
    modifies b, b.hb
    ensures b.Valid() && ok == (|Encode(BigEndian, item)| <= b.hb.Length)
    ensures ok ==> Loaded(b, item)
  {
    var i := 0;
    while i < repetitions
      invariant i <= repetitions && b.Valid()
      invariant i > 0 ==> |Encode(BigEndian, item)| <= b.hb.Length && Loaded(b, item)
    {
      b.Clear();
      ghost var s := b.hb[..];
      ok := Write(b, item);
      if !ok {
        return;
      }
      WroteAt(s, 0, b.hb[..], b.position, b.limit, Encode(BigEndian, item));
      i := i + 1;
    }
    ok := true;
  }

  lemma AtStart(e: seq<Byte>, s: seq<Byte>, t: seq<Byte>)
    requires At(e, s, 0) && t == s[..|e|]
    ensures |t| == |e| && At(e, t, 0)
  {
    AtSlice(e, s, 0);
    assert t[0..|e|] == t == s[0..|e|];
    AtSlice(e, t, 0);
  }

  /** Bytes behind the item make no difference: `t` are those up to its end. */
  lemma LoadedReads(order: Order, item: Object, s: seq<Byte>, t: seq<Byte>)
    requires Storable(item) && At(Encode(order, item), s, 0)
    requires t == s[..|Encode(order, item)|]
    ensures Decode(order, t, 0) == Got(item, |t|)
  {
    AtStart(Encode(order, item), s, t);
    ObjectBack(order, item, t, 0, |t|);
  }

  /** Every repetition reads the item, because reading leaves the position where flip expects it. */
  method TestRead(b: ByteBuffer, repetitions: nat, ghost item: Object) returns (r: Result<Object>)
    requires Storable(item) && Loaded(b, item) && repetitions > 0
    modifies b
    ensures r == Ok(item) && Loaded(b, item) && b.hb[..] == old(b.hb[..])
  {
    r := Err(Underflow);
    var i := 0;
    while i < repetitions
      invariant i <= repetitions && Loaded(b, item) && b.hb[..] == old(b.hb[..])
      invariant i > 0 ==> r == Ok(item)
    {
      b.Flip();
      assert b.hb[..][..b.limit] == b.hb[..b.limit];
      LoadedReads(BigEndian, item, b.hb[..], b.hb[..b.limit]);
      r := Read(b);
      i := i + 1;
    }
  }
}
