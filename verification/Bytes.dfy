/** Fixed-width little-endian integers, as the packed C++ structs and the memory
    streams lay them out.

    `Low16` and `Low32` keep the low bits of any integer, exactly as the C++ assignment of a
    wide value to a narrow unsigned field does. */
module ByteCodec {

  type byte = b: int | 0 <= b < 0x100
  type u16 = n: int | 0 <= n < 0x1_0000
  type u32 = n: int | 0 <= n < 0x1_0000_0000
  type i32 = n: int | -0x8000_0000 <= n < 0x8000_0000
  type Bytes = seq<byte>

  function Low16(n: int): (r: u16)
    ensures 0 <= n < 0x1_0000 ==> r == n
  {
    n % 0x1_0000
  }

  function Low32(n: int): (r: u32)
    ensures 0 <= n < 0x1_0000_0000 ==> r == n
  {
    n % 0x1_0000_0000
  }

  lemma Low16Plus(a: nat, k: nat)
    ensures Low16(Low16(a) + k) == Low16(a + k)
  {
  }

  lemma Low32Plus(a: nat, k: nat)
    ensures Low32(Low32(a) + k) == Low32(a + k)
  {
  }

  lemma Low32Minus(a: nat, k: nat)
    ensures Low32(Low32(a + k) - Low32(a)) == Low32(k)
  {
  }

  function Put16(n: u16): (b: Bytes)
    ensures |b| == 2
  {
    [n % 0x100, n / 0x100]
  }

  function Get16(b: Bytes): u16
    requires |b| == 2
  {
    b[0] as int + 0x100 * (b[1] as int)
  }

  function Put32(n: u32): (b: Bytes)
    ensures |b| == 4
  {
    Put16(n % 0x1_0000) + Put16(n / 0x1_0000)
  }

  function Get32(b: Bytes): u32
    requires |b| == 4
  {
    Get16(b[..2]) as int + 0x1_0000 * (Get16(b[2..]) as int)
  }

  /** A signed 32-bit value is stored as its two's complement bit pattern. */
  function PutI32(n: i32): (b: Bytes)
    ensures |b| == 4
  {
    Put32(if n < 0 then n + 0x1_0000_0000 else n)
  }

  function GetI32(b: Bytes): i32
    requires |b| == 4
  {
    Signed32(Get32(b))
  }

  /** The signed number with the same 32 bits. */
  function Signed32(n: u32): i32 {
    if n < 0x8000_0000 then n else n - 0x1_0000_0000
  }

  lemma GetPut16(n: u16)
    ensures Get16(Put16(n)) == n
  {
  }

  lemma PutGet16(b: Bytes)
    requires |b| == 2
    ensures Put16(Get16(b)) == b
  {
  }

  lemma GetPut32(n: u32)
    ensures Get32(Put32(n)) == n
  {
    var lo, hi := Put16(n % 0x1_0000), Put16(n / 0x1_0000);
    assert (lo + hi)[..2] == lo && (lo + hi)[2..] == hi;
    GetPut16(n % 0x1_0000);
    GetPut16(n / 0x1_0000);
  }

  lemma PutGet32(b: Bytes)
    requires |b| == 4
    ensures Put32(Get32(b)) == b
  {
    var lo, hi := Get16(b[..2]), Get16(b[2..]);
    PutGet16(b[..2]);
    PutGet16(b[2..]);
    assert Get32(b) % 0x1_0000 == lo && Get32(b) / 0x1_0000 == hi;
    assert b == b[..2] + b[2..];
  }

  lemma GetPutI32(n: i32)
    ensures GetI32(PutI32(n)) == n
  {
    GetPut32(if n < 0 then n + 0x1_0000_0000 else n);
  }

  /** Both directions at once: the 32-bit encoding is a bijection with 4-byte strings. */
  lemma Bijection32(n: u32, b: Bytes)
    requires |b| == 4
    ensures Put32(n) == b <==> Get32(b) == n
  {
    GetPut32(n);
    PutGet32(b);
  }

  /** `part` stands in `b` at position `at`. */
  ghost predicate HasAt(b: Bytes, at: nat, part: Bytes)
  {
    exists pre: Bytes, post: Bytes :: |pre| == at && b == Around(pre, part, post)
  }

  function Around(pre: Bytes, part: Bytes, post: Bytes): Bytes {
    pre + part + post
  }

  lemma HasAtSlice(b: Bytes, at: nat, part: Bytes)
    ensures HasAt(b, at, part) <==> at + |part| <= |b| && b[at..at + |part|] == part
  {
    if at + |part| <= |b| && b[at..at + |part|] == part {
      assert b == Around(b[..at], part, b[at + |part|..]);
    }
  }

  lemma HasAtWithin(b: Bytes, at: nat, part: Bytes, o: nat, piece: Bytes)
    requires HasAt(b, at, part) && HasAt(part, o, piece)
    ensures HasAt(b, at + o, piece) && at + o + |piece| <= at + |part| <= |b|
  {
    var pre: Bytes, post: Bytes :| |pre| == at && b == Around(pre, part, post);
    var pre', post' :| |pre'| == o && part == Around(pre', piece, post');
    assert b == Around(pre + pre', piece, post' + post);
  }

  lemma HasAtFront(b: Bytes, more: Bytes, o: nat, part: Bytes)
    requires HasAt(b, o, part)
    ensures HasAt(b + more, o, part)
  {
    var pre: Bytes, post: Bytes :| |pre| == o && b == Around(pre, part, post);
    assert b + more == Around(pre, part, post + more);
  }

  lemma HasAtBehind(a: Bytes, b: Bytes, o: nat, part: Bytes)
    requires HasAt(b, o, part)
    ensures HasAt(a + b, |a| + o, part)
  {
    var pre: Bytes, post: Bytes :| |pre| == o && b == Around(pre, part, post);
    assert a + b == Around(a + pre, part, post);
  }

  lemma HasAtEnd(b: Bytes, part: Bytes)
    ensures HasAt(b + part, |b|, part)
  {
    assert b + part == Around(b, part, []);
  }

  lemma HasAtPair(b: Bytes, o: nat, x: Bytes, y: Bytes)
    requires HasAt(b, o, x + y)
    ensures HasAt(b, o, x) && HasAt(b, o + |x|, y)
  {
    var pre: Bytes, post: Bytes :| |pre| == o && b == Around(pre, x + y, post);
    assert b == Around(pre, x, y + post);
    assert b == Around(pre + x, y, post);
  }

  lemma HasAtTriple(b: Bytes, o: nat, x: Bytes, y: Bytes, w: Bytes)
    requires HasAt(b, o, x + y + w)
    ensures HasAt(b, o, x)
    ensures HasAt(b, o + |x|, y + w)
    ensures HasAt(b, o + |x| + |y|, w)
  {
    assert x + y + w == x + (y + w);
    HasAtPair(b, o, x, y + w);
    HasAtPair(b, o + |x|, y, w);
  }
}
