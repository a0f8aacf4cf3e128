/**
 * UnsafeMemory of benchmarks/serializing/TestSerialisationPerf.java: numbers and whole arrays are
 * copied as the machine holds them, without any check of the bounds, so that the caller answers
 * for the room. The machine is little-endian.
 */
module CodecUnsafe {
  import opened Basics
  import opened Seqs
  import opened Codec
  import opened CodecBuffers

  /** `length << 3` of a 32-bit int, before it is widened. */
  function Shl3(length: Int32): Int32 {
    Signed32((8 * length) % 0x1_0000_0000)
  }

  /** The shift is a multiplication for every array that a buffer has room for. */
  lemma Shl3Exact(length: Int32)
    requires 0 <= length < 0x1000_0000
    ensures Shl3(length) == 8 * length
  {
  }

  /** Reading would leave the buffer. */
  predicate Short<T>(d: Decoded<T>) {
    d.Failed? && d.error == Underflow
  }

  class UnsafeMemory {
    const buffer: array<Byte>
    var pos: nat

    /** A Java array has fewer than 2^31 elements. */
    ghost predicate Valid()
      reads this
    {
      pos <= buffer.Length < 0x8000_0000
    }

    constructor (b: array<Byte>)
      requires b.Length < 0x8000_0000
      ensures Valid() && buffer == b && pos == 0
    {
      buffer, pos := b, 0;
    }

    method Reset()
      requires Valid()
      modifies this
      ensures Valid() && pos == 0
    {
      pos := 0;
    }

    /** putBoolean, putInt, putLong and copyMemory into the buffer. */
    method Put(bs: seq<Byte>)
      requires Valid() && pos + |bs| <= buffer.Length
      modifies this, buffer
      ensures Valid()
      ensures Wrote(old(buffer[..]), old(pos), buffer[..], pos, buffer.Length, bs, true)
    {
      forall i | 0 <= i < |bs| {
        buffer[pos + i] := bs[i];
      }
      pos := pos + |bs|;
      assert bs[..|bs|] == bs;
      assert buffer[..] == Splice(old(buffer[..]), old(pos), bs);
    }

    /** putLongArray and putDoubleArray: the number of bytes to copy does not overflow for an
        array that fits. */
    method PutArray(ws: seq<Bits>)
      requires Valid() && pos + 4 + 8 * |ws| <= buffer.Length
      modifies this, buffer
      ensures Valid()
      ensures Wrote(old(buffer[..]), old(pos), buffer[..], pos, buffer.Length,
                    EncodeWords(LittleEndian, ws), true)
    {
      ghost var s0, p0 := buffer[..], pos;
      Put(Int32Bytes(LittleEndian, |ws|));
      ghost var s1, p1 := buffer[..], pos;
      Shl3Exact(|ws|);
      var bytesToCopy := Shl3(|ws|);
      var memory := Cat(LittleEndian, ws, |ws|);
      Put(memory[..bytesToCopy]);
      assert memory[..bytesToCopy] == memory;
      WroteMore(s0, p0, s1, p1, buffer[..], pos, buffer.Length,
                Int32Bytes(LittleEndian, |ws|), memory, true);
    }

    method GetLong() returns (w: Bits)
      requires Valid() && pos + 8 <= buffer.Length
      modifies this
      ensures Valid() && pos == old(pos) + 8 && w == WordAt(LittleEndian, buffer[..], old(pos))
    {
      w := WordAt(LittleEndian, buffer[..], pos);
      pos := pos + 8;
    }

    method GetInt() returns (x: Int32)
      requires Valid() && pos + 4 <= buffer.Length
      modifies this
      ensures Valid() && pos == old(pos) + 4 && x == Int32At(LittleEndian, buffer[..], old(pos))
    {
      x := Int32At(LittleEndian, buffer[..], pos);
      pos := pos + 4;
    }

    method GetBoolean() returns (value: bool)
      requires Valid() && pos + 1 <= buffer.Length
      modifies this
      ensures Valid() && pos == old(pos) + 1 && value == (buffer[old(pos)] != 0)
    {
      value := buffer[pos] != 0;
      pos := pos + 1;
    }

    /** getLongArray and getDoubleArray, of an array that lies in the buffer; a negative length
        is refused when the array is allocated. */
    method GetArray() returns (r: Result<seq<Bits>>)
      requires Valid() && !Short(DecodeWords(LittleEndian, buffer[..], pos))
      modifies this
      ensures Valid()
      ensures match DecodeWords(LittleEndian, buffer[..], old(pos))
              case Failed(e, end) => r == Err(e) && pos == end
              case Got(ws, end) => r == Ok(ws) && pos == end
    {
      var n := GetInt();
      if n < 0 {
        return Err(NegativeSize);
      }
      Shl3Exact(n);
      var bytesToCopy := Shl3(n);
      r := Ok(WordsAt(LittleEndian, buffer[..], pos, n));
      pos := pos + bytesToCopy;
    }
  }

  method WriteHead(m: UnsafeMemory, o: Object)
    requires m.Valid() && m.pos + 17 <= m.buffer.Length
    modifies m, m.buffer
    ensures m.Valid()
    ensures Wrote(old(m.buffer[..]), old(m.pos), m.buffer[..], m.pos, m.buffer.Length,
                  EncodeHead(LittleEndian, o), true)
  {
    ghost var s0, p0, n := m.buffer[..], m.pos, m.buffer.Length;
    var id := WordBytes(LittleEndian, Unsigned64(o.sourceId));
    m.Put(id);
    ghost var s1, p1 := m.buffer[..], m.pos;
    m.Put([Flag(o.special)]);
    WroteMore(s0, p0, s1, p1, m.buffer[..], m.pos, n, id, [Flag(o.special)], true);
    ghost var s2, p2 := m.buffer[..], m.pos;
    var code := Int32Bytes(LittleEndian, o.orderCode);
    m.Put(code);
    WroteMore(s0, p0, s2, p2, m.buffer[..], m.pos, n, id + [Flag(o.special)], code, true);
    ghost var s3, p3 := m.buffer[..], m.pos;
    var priority := Int32Bytes(LittleEndian, o.priority);
    m.Put(priority);
    WroteMore(s0, p0, s3, p3, m.buffer[..], m.pos, n, id + [Flag(o.special)] + code, priority,
              true);
  }

  /** ObjectToBeSerialised.write(UnsafeMemory) */
  method Write(m: UnsafeMemory, o: Object)
    requires m.Valid() && Storable(o)
    requires m.pos + |Encode(LittleEndian, o)| <= m.buffer.Length
    modifies m, m.buffer
    ensures m.Valid()
    ensures Wrote(old(m.buffer[..]), old(m.pos), m.buffer[..], m.pos, m.buffer.Length,
                  Encode(LittleEndian, o), true)
  {
    ghost var s0, p0, n := m.buffer[..], m.pos, m.buffer.Length;
    ghost var head := EncodeHead(LittleEndian, o);
    ghost var prices := EncodeWords(LittleEndian, o.prices);
    WriteHead(m, o);
    ghost var s1, p1 := m.buffer[..], m.pos;
    m.PutArray(o.prices);
    WroteMore(s0, p0, s1, p1, m.buffer[..], m.pos, n, head, prices, true);
    ghost var s2, p2 := m.buffer[..], m.pos;
    m.PutArray(AllUnsigned(o.quantities));
    WroteMore(s0, p0, s2, p2, m.buffer[..], m.pos, n, head + prices,
              EncodeWords(LittleEndian, AllUnsigned(o.quantities)), true);
  }

  /** The 17 bytes before the arrays; the object carries no arrays yet. */
  method ReadHead(m: UnsafeMemory) returns (o: Object)
    requires m.Valid() && m.pos + 17 <= m.buffer.Length
    modifies m
    ensures m.Valid() && m.pos == old(m.pos) + 17
    ensures HeadIs(LittleEndian, o, m.buffer[..], old(m.pos))
  {
    var id := m.GetLong();
    var special := m.GetBoolean();
    var code := m.GetInt();
    var priority := m.GetInt();
    o := Object(Signed64(id), special, code, priority, [], []);
  }

  method ReadArrays(m: UnsafeMemory) returns (r: Result<Arrays>)
    requires m.Valid() && !Short(DecodeArrays(LittleEndian, m.buffer[..], m.pos))
    modifies m
    ensures m.Valid()
    ensures match DecodeArrays(LittleEndian, m.buffer[..], old(m.pos))
            case Failed(e, end) => r == Err(e) && m.pos == end
            case Got(a, end) => r == Ok(a) && m.pos == end
  {
    var prices := m.GetArray();
    if prices.Err? {
      return Err(prices.error);
    }
    var quantities := m.GetArray();
    if quantities.Err? {
      return Err(quantities.error);
    }
    r := Ok(Arrays(prices.value, quantities.value));
  }

  /** ObjectToBeSerialised.read(UnsafeMemory), of an object that lies in the buffer. */
  method Read(m: UnsafeMemory) returns (r: Result<Object>)
    requires m.Valid() && !Short(Decode(LittleEndian, m.buffer[..], m.pos))
    modifies m
    ensures m.Valid()
    ensures match Decode(LittleEndian, m.buffer[..], old(m.pos))
            case Failed(e, end) => r == Err(e) && m.pos == end
            case Got(item, end) => r == Ok(item) && m.pos == end
  {
    var head := ReadHead(m);
    var a := ReadArrays(m);
    if a.Err? {
      return Err(a.error);
    }
    r := Ok(head.(prices := a.value.prices, quantities := AllSigned(a.value.quantities)));
  }

  // ------------------------------------------------------------------------------------
  // The loops of the UnsafeMemory test case
  // ------------------------------------------------------------------------------------

  method TestWrite(m: UnsafeMemory, item: Object, repetitions: nat)
    requires m.Valid() && Storable(item) && repetitions > 0
    requires |Encode(LittleEndian, item)| <= m.buffer.Length
    modifies m, m.buffer
    ensures m.Valid() && m.pos == |Encode(LittleEndian, item)|
    ensures At(Encode(LittleEndian, item), m.buffer[..], 0)
  {
    var i := 0;
    while i < repetitions
      invariant i <= repetitions && m.Valid()
      invariant i > 0 ==> m.pos == |Encode(LittleEndian, item)|
                          && At(Encode(LittleEndian, item), m.buffer[..], 0)
    {
      m.Reset();
      ghost var s := m.buffer[..];
      Write(m, item);
      WroteAt(s, 0, m.buffer[..], m.pos, m.buffer.Length, Encode(LittleEndian, item));
      i := i + 1;
    }
  }

  /** Every repetition reads the item and ends behind it. */
  method TestRead(m: UnsafeMemory, repetitions: nat, ghost item: Object)
    returns (r: Result<Object>)
    requires m.Valid() && Storable(item) && repetitions > 0
    requires At(Encode(LittleEndian, item), m.buffer[..], 0)
    modifies m
    ensures m.Valid() && m.pos == |Encode(LittleEndian, item)|
    ensures r == Ok(item)
  {
    r := Err(Underflow);
    var i := 0;
    while i < repetitions
      invariant i <= repetitions && m.Valid()
      invariant At(Encode(LittleEndian, item), m.buffer[..], 0)
      invariant i > 0 ==> r == Ok(item) && m.pos == |Encode(LittleEndian, item)|
    {
      ObjectBack(LittleEndian, item, m.buffer[..], 0, |Encode(LittleEndian, item)|);
      m.Reset();
      r := Read(m);
      i := i + 1;
    }
  }
}
