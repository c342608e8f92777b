/** The Pickle buffer and its iterator as they are updated in place. */
module Pickle {
  import opened Arithmetic
  import opened PickleFormat
  import opened PickleGrowth
  import opened PickleReader
  import opened Wrappers
  import Seqs

  /** The capacity of a Pickle that only views someone else's bytes: SIZE_MAX. */
  const READ_ONLY: nat := TWO64 - 1

  /** The payload size a header announces. */
  function Announced(bytes: seq<byte>): nat
    requires |bytes| >= 4
  {
    FromLe(bytes[..4])
  }

  lemma AnnouncedBound(bytes: seq<byte>)
    requires |bytes| >= 4
    ensures Announced(bytes) < TWO32
  {
    FromLeBound(bytes[..4]);
    Pow256Values();
  }

  /** The header size the read-only constructor settles on; zero rejects the data. */
  function ViewHeaderSize(bytes: seq<byte>): nat
    requires |bytes| < TWO31
  {
    // The subtraction mixes int and uint32_t and wraps modulo 2^32.
    var size := if |bytes| >= 4 then (|bytes| - Announced(bytes)) % TWO32 else 0;
    var inside := if size > |bytes| then 0 else size;
    if inside != Aligned(inside) then 0 else inside
  }

  predicate Acceptable(bytes: seq<byte>) {
    |bytes| >= 4 && Announced(bytes) < |bytes| && (|bytes| - Announced(bytes)) % 4 == 0
  }

  /** A view is kept exactly when what the announced payload leaves for the header is a whole number of words, not
      none. */
  lemma ViewAccepts(bytes: seq<byte>)
    requires |bytes| < TWO31
    ensures ViewHeaderSize(bytes) == if Acceptable(bytes) then |bytes| - Announced(bytes) else 0
  {
    if |bytes| >= 4 {
      AnnouncedBound(bytes);
      var left := |bytes| - Announced(bytes);
      if left >= 0 {
        DivIs(left, 0, left, TWO32);
        AlignedIsPadded(left);
      } else {
        DivIs(left, -1, left + TWO32, TWO32);
      }
    }
    AlignedIsPadded(0);
  }

  /** Where a field of `length` bytes at the given offset ends, padding included. */
  method FieldEnd(offset: nat, length: nat) returns (end: nat)
    requires length + 4 <= TWO64
    ensures end == offset + length + PadLength(length)
    ensures offset % 4 == 0 ==> end % 4 == 0
  {
    AlignedIsPadded(length);
    end := offset + Aligned(length);
  }

  lemma OneUnit()
    ensures Resized(PAYLOAD_UNIT) == PAYLOAD_UNIT
  {
    ResizedBounds(PAYLOAD_UNIT);
  }

  class Buffer {
    var header: array?<byte>
    var headerSize: nat
    var capacity: nat
    var writeOffset: nat
    /** The header fields of derived classes, behind the payload size, and the payload. */
    ghost var extra: seq<byte>
    ghost var payload: seq<byte>

    /** The memory holds the payload size, the rest of the header and the payload. */
    ghost predicate Readable()
      reads this, header
    {
      && header != null
      && headerSize == 4 + |extra|
      && headerSize % 4 == 0
      && |payload| < TWO32
      && headerSize + |payload| <= header.Length
      && (forall i | 0 <= i < 4 :: header[i] == ByteAt(|payload|, i))
      && (forall i | 0 <= i < |extra| :: extra[i] == header[4 + i])
      && (forall i | 0 <= i < |payload| :: payload[i] == header[headerSize + i])
    }

    ghost predicate Writable()
      reads this, header
    {
      && Readable()
      && capacity < 4 * TWO32
      && capacity % PAYLOAD_UNIT == 0
      && header.Length == headerSize + capacity
      && writeOffset <= |payload|
      && writeOffset % 4 == 0
    }

    ghost predicate Valid()
      reads this, header
    {
      if capacity == READ_ONLY then writeOffset == 0 && (header != null ==> Readable()) else Writable()
    }

    /** payload_size(). */
    method PayloadSize() returns (n: nat)
      requires header != null ==> Readable()
      ensures n == if header == null then 0 else |payload|
    {
      if header == null { return 0; }
      assert header[..4] == Le(|payload|, 4);
      Pow256Values();
      FromLeOfLe(|payload|, 4);
      n := FromLe(header[..4]);
    }

    /** data() and size(): the bytes a Pickle is sent as. */
    method Data() returns (bytes: seq<byte>)
      requires Readable()
      ensures bytes == Frame(extra, payload)
    {
      var n := PayloadSize();
      bytes := header[..headerSize + n];
    }

    // ----- Memory -----

    /** realloc: keeps the common prefix, leaves new bytes arbitrary. */
    method Resize(newCapacity: nat)
      requires capacity != READ_ONLY && newCapacity < TWO63
      modifies this`header, this`capacity
      ensures capacity == Resized(newCapacity)
      ensures header != null && fresh(header) && header.Length == headerSize + capacity
      ensures old(header) != null ==>
                forall i | 0 <= i < header.Length && i < old(header).Length :: header[i] == old(header[i])
    {
      capacity := Resized(newCapacity);
      var p := new byte[headerSize + capacity];
      if header != null {
        forall i | 0 <= i < p.Length && i < header.Length { p[i] := header[i]; }
      }
      header := p;
    }

    /** memcpy of another Pickle's header and payload, and its write offset. */
    method CopyFrom(other: Buffer, n: nat)
      requires other.Readable() && n == |other.payload| && this != other && headerSize == other.headerSize
      requires header != null && header != other.header && headerSize + n <= header.Length
      modifies header, this`extra, this`payload, this`writeOffset
      ensures Readable() && extra == other.extra && payload == other.payload && writeOffset == other.writeOffset
    {
      forall i | 0 <= i < headerSize + n { header[i] := other.header[i]; }
      extra, payload, writeOffset := other.extra, other.payload, other.writeOffset;
    }

    // ----- Construction -----

    /** A fresh writable Pickle whose header has room for `size` bytes. */
    constructor (size: nat)
      requires 4 <= size <= PAYLOAD_UNIT
      ensures Valid() && Writable() && fresh(header)
      ensures capacity == PAYLOAD_UNIT && headerSize == size + PadLength(size)
      ensures payload == [] && writeOffset == 0
    {
      var aligned := FieldEnd(0, size);
      header := null;
      headerSize := aligned;
      capacity := 0;
      writeOffset := 0;
      payload := [];
      new;
      OneUnit();
      Resize(PAYLOAD_UNIT);
      StoreSize(0);
      extra := header[4..headerSize];
    }

    /** A view of bytes received from elsewhere; rejected data leaves `header` null. */
    constructor View(data: array<byte>)
      requires data.Length < TWO31
      ensures Valid() && capacity == READ_ONLY
      ensures header == if Acceptable(data[..]) then data else null
      ensures
        header != null ==>
          && |payload| == Announced(data[..])
          && headerSize + |payload| == data.Length
          && payload == data[headerSize..]
    {
      ghost var bytes := data[..];
      ViewAccepts(bytes);
      var size := ViewHeaderSize(data[..]);
      headerSize := size;
      header := if size == 0 then null else data;
      capacity := READ_ONLY;
      writeOffset := 0;
      if size != 0 {
        LeOfFromLe(bytes[..4]);
        assert forall i | 0 <= i < 4 :: bytes[i] == bytes[..4][i] == ByteAt(Announced(bytes), i);
        AnnouncedBound(bytes);
        extra, payload := bytes[4..size], bytes[size..];
      }
    }

    /** A deep copy. The write offset is copied too: zero when `other` is a view, wherever its payload ends. */
    constructor Copy(other: Buffer)
      requires other.Valid() && other.header != null
      ensures Valid() && Writable() && fresh(header)
      ensures extra == other.extra && payload == other.payload
      ensures writeOffset == other.writeOffset
    {
      header := null;
      headerSize := other.headerSize;
      capacity := 0;
      new;
      var n := other.PayloadSize();
      ResizedBounds(n);
      Resize(n);
      CopyFrom(other, n);
    }

    /** Lets go of memory that is not ours or whose header has another size. */
    method Release(newHeaderSize: nat)
      requires Valid()
      modifies this`header, this`headerSize, this`capacity
      ensures headerSize == newHeaderSize && capacity != READ_ONLY && (header == old(header) || header == null)
    {
      if capacity == READ_ONLY { header, capacity := null, 0; }
      if headerSize != newHeaderSize { header, headerSize := null, newHeaderSize; }
    }

    /** operator=: the other Pickle's bytes in this one's memory, reallocated. */
    method Assign(other: Buffer)
      requires Valid() && other.Valid()
      requires this != other ==> other.header != null && (capacity == READ_ONLY || other.header != header)
      modifies this
      ensures if this == other then unchanged(this) else Writable() && fresh(header)
      ensures Valid() && extra == old(other.extra) && payload == old(other.payload)
      ensures writeOffset == old(other.writeOffset)
    {
      if this == other { return; }
      Release(other.headerSize);
      var n := other.PayloadSize();
      ResizedBounds(n);
      Resize(n);
      CopyFrom(other, n);
    }

    // ----- Writing -----

    /** Grows the memory, if it must, to hold `need` payload bytes. */
    method Grow(need: nat)
      requires Writable() && need < TWO32
      modifies this`header, this`capacity
      ensures Writable() && (header == old(header) || fresh(header))
      ensures need <= capacity == AfterWrite(old(capacity), need)
    {
      if need > capacity {
        WriteGrowth(capacity, need);
        DoubledBounds(capacity);
        Resize(Max(Doubled(capacity), need));
      }
    }

    method StoreSize(n: nat)
      requires header != null && header.Length >= 4
      modifies header
      ensures forall i | 0 <= i < 4 :: header[i] == ByteAt(n, i)
      ensures forall i | 4 <= i < header.Length :: header[i] == old(header[i])
    {
      forall i | 0 <= i < 4 { header[i] := ByteAt(n, i); }
    }

    method Zero(from: nat, to: nat)
      requires header != null && from <= to <= header.Length
      modifies header
      ensures forall i | from <= i < to :: header[i] == 0
      ensures forall i | 0 <= i < from || to <= i < header.Length :: header[i] == old(header[i])
    {
      forall i | from <= i < to { header[i] := 0; }
    }

    /** Cuts the payload at the write offset and claims the bytes up to `end`: arbitrary below `pad`, zeros from
        there. */
    method Announce(pad: nat, end: nat)
      requires Writable() && writeOffset <= pad <= end <= capacity && end < TWO32 && end % 4 == 0
      modifies header, this`writeOffset, this`payload
      ensures Writable() && writeOffset == |payload| == end
      ensures forall i | 0 <= i < old(writeOffset) :: payload[i] == old(payload)[i]
      ensures forall i | pad <= i < end :: payload[i] == 0
    {
      Zero(headerSize + pad, headerSize + end);
      StoreSize(end);
      payload := header[headerSize..headerSize + end];
      assert forall i | 0 <= i < end :: payload[i] == header[headerSize + i];
      writeOffset := end;
    }

    /** Makes room for `length` bytes at the write offset, zeroes their padding and announces the new payload. */
    method Claim(length: nat)
      requires Writable() && writeOffset + length + PadLength(length) < TWO32
      modifies this, header
      ensures Writable() && (header == old(header) || fresh(header))
      ensures headerSize == old(headerSize) && extra == old(extra)
      ensures writeOffset == |payload| == old(writeOffset) + length + PadLength(length)
      ensures capacity == AfterWrite(old(capacity), writeOffset)
      ensures forall i | 0 <= i < old(writeOffset) :: payload[i] == old(payload)[i]
      ensures forall i | old(writeOffset) + length <= i < |payload| :: payload[i] == 0
    {
      var newSize := FieldEnd(writeOffset, length);
      Grow(newSize);
      Announce(writeOffset + length, newSize);
    }

    /** Overwrites part of the payload through the pointer that Claim returned. */
    method Fill(at: nat, data: seq<byte>)
      requires Writable() && at + |data| <= |payload|
      modifies header, this`payload
      ensures Writable() && payload == old(payload[..at]) + data + old(payload[at + |data|..])
    {
      payload := payload[..at] + data + payload[at + |data|..];
      forall i | 0 <= i < |data| { header[headerSize + at + i] := data[i]; }
    }

    /** WriteBytes: the payload up to the write offset, then the bytes and their padding. */
    method WriteBytes(data: seq<byte>)
      requires Writable() && writeOffset + |Padded(data)| < TWO32
      modifies this, header
      ensures Writable() && (header == old(header) || fresh(header))
      ensures headerSize == old(headerSize) && extra == old(extra)
      ensures writeOffset == |payload| && capacity == AfterWrite(old(capacity), writeOffset)
      ensures payload == old(payload[..writeOffset]) + Padded(data)
    {
      var at := writeOffset;
      Claim(|data|);
      Fill(at, data);
    }

    /** ClaimBytes: zeros, for the caller to overwrite later. */
    method ClaimBytes(length: nat)
      requires Writable() && writeOffset + length + PadLength(length) < TWO32
      modifies this, header
      ensures Writable() && (header == old(header) || fresh(header))
      ensures headerSize == old(headerSize) && extra == old(extra)
      ensures writeOffset == |payload| && capacity == AfterWrite(old(capacity), writeOffset)
      ensures payload == old(payload[..writeOffset]) + Padded(Zeros(length))
    {
      var at := writeOffset;
      Claim(length);
      Fill(at, Zeros(length));
    }

    /** Reserve: more capacity, nothing else. */
    method Reserve(length: nat)
      requires Writable() && writeOffset + length + PadLength(length) < TWO32
      modifies this`header, this`capacity
      ensures Writable() && (header == old(header) || fresh(header))
      ensures writeOffset + length + PadLength(length) <= capacity
      ensures capacity == AfterReserve(old(capacity), writeOffset + length + PadLength(length))
    {
      var need := FieldEnd(writeOffset, length);
      if need > capacity {
        ReserveGrowth(capacity, need);
        Resize(capacity * 2 + need);
      }
    }

    /** WriteBytes at the payload's end. */
    method WriteField(data: seq<byte>)
      requires Writable() && writeOffset == |payload| && |payload| + |Padded(data)| < TWO32
      modifies this, header
      ensures Writable() && writeOffset == |payload| && (header == old(header) || fresh(header))
      ensures headerSize == old(headerSize) && extra == old(extra)
      ensures payload == old(payload) + Padded(data)
      ensures GrownTo(Space(old(capacity), old(writeOffset)), [WriteOp(|data|)], capacity, writeOffset)
    {
      OneWrite(capacity, writeOffset, |data|);
      WriteBytes(data);
    }

    /** WriteInt and then WriteBytes. */
    method WriteSized(n: nat, data: seq<byte>)
      requires Writable() && writeOffset == |payload| && |payload| + |Sized(n, data)| < TWO32
      modifies this, header
      ensures Writable() && writeOffset == |payload| && (header == old(header) || fresh(header))
      ensures headerSize == old(headerSize) && extra == old(extra)
      ensures payload == old(payload) + Sized(n, data)
      ensures
        GrownTo(Space(old(capacity), old(writeOffset)), [WriteOp(4), WriteOp(|data|)], capacity, writeOffset)
    {
      ghost var s, before := Space(capacity, writeOffset), payload;
      WriteField(Le(n % TWO32, 4));
      ghost var c, o := capacity, writeOffset;
      WriteField(data);
      MoreWrites(s, [WriteOp(4)], c, o, [WriteOp(|data|)], capacity, writeOffset);
      assert [WriteOp(4)] + [WriteOp(|data|)] == [WriteOp(4), WriteOp(|data|)];
      Seqs.Associates(before, Padded(Le(n % TWO32, 4)), Padded(data));
    }

    /** A typed Write appends the value's encoding. */
    method Write(v: Value)
      requires Typed(v) && Writable() && writeOffset == |payload| && |payload| + |Encoded(v)| < TWO32
      modifies this, header
      ensures Writable() && writeOffset == |payload| && (header == old(header) || fresh(header))
      ensures headerSize == old(headerSize) && extra == old(extra)
      ensures payload == old(payload) + Encoded(v)
      ensures GrownTo(Space(old(capacity), old(writeOffset)), Writes(v), capacity, writeOffset)
    {
      if Numeric(v) {
        WriteField(NumberBytes(v));
      } else {
        match v
        case String(b) => WriteSized(|b|, b);
        case String16(us) => WriteSized(|us|, UnitBytes(us));
        case Data(b) => WriteSized(|b|, b);
        case Bytes(b) => WriteField(b);
      }
    }
  }

  /** Writing to a copy appends exactly when the original's write offset is its payload's end; for a view it is zero. */
  method CopyThenWrite(other: Buffer, data: seq<byte>) returns (copy: Buffer)
    requires other.Valid() && other.header != null && other.writeOffset + |Padded(data)| < TWO32
    ensures fresh(copy) && copy.Writable() && copy.extra == other.extra
    ensures copy.payload == other.payload + Padded(data) <==> other.writeOffset == |other.payload|
    ensures other.capacity == READ_ONLY ==> copy.payload == Padded(data)
  {
    copy := new Buffer.Copy(other);
    copy.WriteBytes(data);
    assert copy.payload == other.payload[..other.writeOffset] + Padded(data);
    assert |other.payload + Padded(data)| == |other.payload| + |Padded(data)|;
  }

  /** PickleIterator. The payload it points into is not written while it reads. */
  class Iterator {
    const payload: seq<byte>
    /** Whether the payload pointer is null. */
    const absent: bool
    var readIndex: nat

    ghost predicate Valid()
      reads this
    {
      readIndex <= |payload| < TWO32 && (absent ==> payload == [])
    }

    ghost function Here(): Cursor
      reads this
    {
      Cursor(payload, readIndex, absent)
    }

    constructor (p: Buffer)
      requires p.header != null ==> p.Readable()
      ensures Valid() && Here() == if p.header == null then NOWHERE else Start(p.payload)
    {
      absent := p.header == null;
      var n := p.PayloadSize();
      payload := if p.header == null then [] else p.header[p.headerSize..p.headerSize + n];
      readIndex := 0;
    }

    method Advance(size: nat)
      requires Valid() && size <= |payload| - readIndex
      modifies this
      ensures Valid() && readIndex == Min(old(readIndex) + size + PadLength(size), |payload|)
    {
      var aligned := FieldEnd(0, size);
      if |payload| - readIndex < aligned { readIndex := |payload|; } else { readIndex := readIndex + aligned; }
    }

    /** GetReadPointerAndAdvance, for a type's size and for a signed length alike. */
    method TakeBytes(n: int) returns (bytes: Option<seq<byte>>)
      requires Valid()
      modifies this
      ensures Valid() && Outcome(bytes, Here()) == Take(old(Here()), n)
    {
      if n < 0 || |payload| - readIndex < n {
        readIndex := |payload|;
        return None;
      }
      bytes := if absent then None else Some(payload[readIndex..readIndex + n]);
      Advance(n);
    }

    method TakeCounted(n: int, size: nat) returns (bytes: Option<seq<byte>>)
      requires Valid() && 0 < size < TWO32
      modifies this
      ensures Valid() && Outcome(bytes, Here()) == TakeElements(old(Here()), n, size)
    {
      // CheckMul of an int and a size_t is a size_t product; it must then be an int.
      Multiples(size, n);
      if n * size < 0 || n * size >= TWO31 { return None; }
      bytes := TakeBytes(n * size);
    }

    /** Any of the Read methods. */
    method Next(t: Type) returns (v: Option<Value>)
      requires Valid()
      modifies this
      ensures Valid() && Outcome(v, Here()) == Read(old(Here()), t)
    {
      var bytes;
      match t {
        case BoolT => bytes := TakeBytes(1);
        case UInt16T => bytes := TakeBytes(2);
        case IntT | UInt32T | FloatT => bytes := TakeBytes(4);
        case LongT | Int64T | UInt64T | DoubleT => bytes := TakeBytes(8);
        case BytesT(n) => bytes := TakeBytes(n);
        case StringT | DataT =>
          bytes := TakeBytes(4);
          if bytes.Some? { bytes := TakeBytes(AsInt(bytes.value)); }
        case String16T =>
          bytes := TakeBytes(4);
          if bytes.Some? { bytes := TakeCounted(AsInt(bytes.value), 2); }
      }
      v := if bytes.None? then None else Some(Decoded(t, bytes.value));
    }
  }
}
