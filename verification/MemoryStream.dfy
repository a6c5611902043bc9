/** The growing output buffer and the bounds-checked input buffer of the serializer
    (`src/core/memory_stream.h`, `src/core/memory_stream.cpp`). */
module MemoryStreams {
  import opened ByteCodec

  class OutputMemoryStream {
    var buffer: Bytes

    constructor ()
      ensures buffer == []
    {
      buffer := [];
    }

    method Write(inData: Bytes)
      modifies this
      ensures buffer == old(buffer) + inData
    {
      buffer := buffer + inData;
    }

    /** A string is preceded by its 32-bit length, and cut to it. */
    method WriteString(inString: Bytes)
      modifies this
      ensures buffer == old(buffer) + EncodeString(inString)
    {
      var elementCount := Low32(|inString|);
      Write(Put32(elementCount));
      Write(inString[..elementCount]);
      assert old(buffer) + Put32(elementCount) + inString[..elementCount] ==
             old(buffer) + EncodeString(inString);
    }
  }

  function EncodeString(s: Bytes): Bytes {
    Put32(Low32(|s|)) + s[..Low32(|s|)]
  }

  /** What a read gives: the bytes, nothing where the source throws, or no telling what where
      its range check lets a read past the end of the buffer go through. */
  datatype ReadResult = Read(bytes: Bytes) | RangeError | OutOfBounds

  /** The range check adds in 32 bits. It stops exactly the reads that ask for more than is left
      as long as that sum does not wrap around, or the bytes are there even so. */
  lemma RangeCheckExactly(head: nat, capacity: nat, inByteCount: u32)
    requires head <= capacity
    ensures (Low32(head + inByteCount) > capacity <==> inByteCount > capacity - head) <==>
            head + inByteCount < 0x1_0000_0000 || head + inByteCount <= capacity
  {
  }

  class InputMemoryStream {
    const data: Bytes
    var head: nat
    var capacity: nat

    ghost predicate Valid()
      reads this
    {
      head <= capacity <= |data|
    }

    /** Small enough for the signed 32-bit remaining size. */
    ghost predicate Small()
      reads this
    {
      Valid() && |data| < 0x8000_0000
    }

    /** So long that the remaining size is negative. */
    ghost predicate Overlong()
      reads this
    {
      Valid() && 0x8000_0000 <= capacity - head < 0x1_0000_0000
    }

    constructor (inData: Bytes)
      ensures Valid() && data == inData && head == 0 && capacity == |inData|
    {
      data, head, capacity := inData, 0, |inData|;
    }

    /** An independent stream over the same data at the same place. */
    constructor Copy(other: InputMemoryStream)
      requires other.Valid()
      ensures Valid() && data == other.data && head == other.head && capacity == other.capacity
    {
      data, head, capacity := other.data, other.head, other.capacity;
    }

    /** The size is cut to a signed 32-bit number: from 2^31 bytes on it is negative. */
    function Remaining(): (n: i32)
      reads this
      requires Valid()
      ensures Small() ==> n == capacity - head
      ensures Overlong() ==> n < 0
    {
      Signed32(Low32(capacity - head))
    }

    /** The unread bytes. */
    ghost function Rest(): Bytes
      reads this
      requires Valid()
    {
      data[head..capacity]
    }

    /** The new head is computed in 32 bits. When that wraps around, the range check passes
        whatever is asked for, and the head moves backwards. */
    method ReadBytes(inByteCount: u32) returns (r: ReadResult)
      requires Valid()
      modifies this`head
      ensures Valid()
      ensures old(head) + inByteCount < 0x1_0000_0000 ==>
        if inByteCount <= old(|Rest()|)
        then r == Read(old(Rest())[..inByteCount]) && Rest() == old(Rest())[inByteCount..]
        else r == RangeError && head == old(head)
      ensures old(head) + inByteCount >= 0x1_0000_0000 ==>
        && head == Low32(old(head) + inByteCount) < old(head)
        && r == if inByteCount <= old(|Rest()|) then Read(old(Rest())[..inByteCount]) else OutOfBounds
    {
      var resultHead := Low32(head + inByteCount);
      if resultHead > capacity {
        r := RangeError;
      } else {
        if head + inByteCount > capacity {
          r := OutOfBounds;
        } else {
          assert data[head..head + inByteCount] == Rest()[..inByteCount];
          assert data[head + inByteCount..capacity] == Rest()[inByteCount..];
          r := Read(data[head..head + inByteCount]);
        }
        head := resultHead;
      }
    }

    method ReadU32() returns (r: ReadResult, v: u32)
      requires Small()
      modifies this`head
      ensures Small()
      ensures if 4 <= old(|Rest()|)
              then r.Read? && v == Get32(old(Rest())[..4]) && Rest() == old(Rest())[4..]
              else r == RangeError && head == old(head)
    {
      r := ReadBytes(4);
      v := if r.Read? then Get32(r.bytes) else 0;
    }

    /** Reading a number back after its writer; `rest` is whatever follows. */
    method ReadU32Back(ghost n: u32, ghost rest: Bytes) returns (v: u32)
      requires Small() && Rest() == Put32(n) + rest
      modifies this`head
      ensures Small() && v == n && Rest() == rest
    {
      var r;
      assert Rest()[..4] == Put32(n) && Rest()[4..] == rest;
      r, v := ReadU32();
      GetPut32(n);
    }

    method ReadI32Back(ghost n: i32, ghost rest: Bytes) returns (v: i32)
      requires Small() && Rest() == PutI32(n) + rest
      modifies this`head
      ensures Small() && v == n && Rest() == rest
    {
      var r := ReadBytes(4);
      v := GetI32(r.bytes);
      GetPutI32(n);
    }

    /** The integer at the head, which stays where it is. */
    method PeekI32(ghost n: i32, ghost rest: Bytes) returns (v: i32)
      requires Small() && Rest() == PutI32(n) + rest
      ensures v == n
    {
      assert data[head..head + 4] == Rest()[..4];
      v := GetI32(data[head..head + 4]);
      GetPutI32(n);
    }

    /** Reads a string from any bytes. A length that is not there leaves the head behind the
        length field when it throws, and reads out of bounds when it makes the sum wrap around. */
    method ReadString() returns (r: ReadResult)
      requires Small()
      modifies this`head
      ensures Small()
      ensures old(|Rest()|) < 4 ==> r == RangeError && head == old(head)
      ensures old(|Rest()|) >= 4 ==>
        var n, after := Get32(old(Rest())[..4]), old(Rest())[4..];
        if n <= |after| then r == Read(after[..n]) && Rest() == after[n..]
        else if old(head) + 4 + n < 0x1_0000_0000 then r == RangeError && head == old(head) + 4
        else r == OutOfBounds && head == old(head) + 4 + n - 0x1_0000_0000
    {
      var elementCount;
      r, elementCount := ReadU32();
      if r.Read? {
        assert |Rest()| == old(|Rest()|) - 4;
        r := ReadBytes(elementCount);
      }
    }

    /** Reading a string back after its writer; `rest` is whatever follows. */
    method ReadStringBack(ghost s: Bytes, ghost rest: Bytes) returns (r: ReadResult)
      requires Small() && |s| < 0x8000_0000 && Rest() == EncodeString(s) + rest
      modifies this`head
      ensures Small() && r == Read(s) && Rest() == rest
    {
      GetPut32(|s|);
      assert Rest() == Put32(|s|) + (s + rest);
      assert Rest()[..4] == Put32(|s|) && Rest()[4..] == s + rest;
      r := ReadString();
    }
  }

  /** A string whose length field is all ones, in a stream that holds four more bytes: the range
      check passes and the head ends in the middle of the length field. */
  method LengthOfAllOnes() returns (r: ReadResult, head: nat)
    ensures r == OutOfBounds && head == 3
  {
    GetPut32(0xFFFF_FFFF);
    var inp := new InputMemoryStream(Put32(0xFFFF_FFFF) + [0x61, 0x62, 0x63, 0x64]);
    assert inp.Rest() == Put32(0xFFFF_FFFF) + [0x61, 0x62, 0x63, 0x64];
    assert inp.Rest()[..4] == Put32(0xFFFF_FFFF);
    r := inp.ReadString();
    head := inp.head;
  }
}
