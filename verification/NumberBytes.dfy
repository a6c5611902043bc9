/** Numbers and texts in bytes, low byte first, in plain arithmetic: what the encoders write and
    what the decoders find is stated with these and not with the encoders themselves. */
module NumberBytes {
  import opened ByteCodec

  ghost predicate U16At(b: Bytes, o: nat, n: int) {
    o + 2 <= |b| && b[o] == n % 256 && b[o + 1] == n / 256 % 256
  }

  ghost predicate U32At(b: Bytes, o: nat, n: int) {
    && o + 4 <= |b| && b[o] == n % 256 && b[o + 1] == n / 256 % 256
    && b[o + 2] == n / 65536 % 256 && b[o + 3] == n / 16777216 % 256
  }

  ghost predicate TextAt(b: Bytes, o: nat, t: Bytes) {
    o + |t| <= |b| && b[o..o + |t|] == t
  }

  lemma Put16Bytes(b: Bytes, o: nat, n: int)
    requires HasAt(b, o, Put16(Low16(n)))
    ensures U16At(b, o, n)
  {
    hide HasAt;
    HasAtSlice(b, o, Put16(Low16(n)));
    var s := b[o..o + 2];
    assert s[0] == b[o] && s[1] == b[o + 1];
    HalfDigits(n);
  }

  lemma Put32Bytes(b: Bytes, o: nat, n: int)
    requires HasAt(b, o, Put32(Low32(n)))
    ensures U32At(b, o, n)
  {
    var m := Low32(n);
    HasAtSlice(b, o, Put32(m));
    var s := b[o..o + 4];
    assert s == Put16(m % 0x1_0000) + Put16(m / 0x1_0000);
    assert s[0] == b[o] && s[1] == b[o + 1] && s[2] == b[o + 2] && s[3] == b[o + 3];
    Digits(n);
  }

  lemma HalfDigits(n: int)
    ensures n % 0x1_0000 % 0x100 == n % 0x100 && n % 0x1_0000 / 0x100 == n / 0x100 % 0x100
  {
  }

  lemma DivideBy(a: int, b: int, c: int)
    requires a == 0x1_0000 * b + c && 0 <= c < 0x1_0000
    ensures a / 0x1_0000 == b && a % 0x1_0000 == c
  {
  }

  lemma Halves(n: int)
    ensures n % 0x1_0000_0000 % 0x1_0000 == n % 0x1_0000
    ensures n % 0x1_0000_0000 / 0x1_0000 == n / 0x1_0000 % 0x1_0000
  {
    var q, r := n / 0x1_0000_0000, n % 0x1_0000_0000;
    var t, u := r / 0x1_0000, r % 0x1_0000;
    DivideBy(n, 0x1_0000 * q + t, u);
    DivideBy(0x1_0000 * q + t, q, t);
  }

  lemma TwoShifts(n: int)
    ensures n / 0x1_0000 / 0x100 == n / 0x100_0000
  {
  }

  lemma Digits(n: int)
    ensures n % 0x1_0000_0000 % 0x1_0000 % 0x100 == n % 256
    ensures n % 0x1_0000_0000 % 0x1_0000 / 0x100 == n / 256 % 256
    ensures n % 0x1_0000_0000 / 0x1_0000 % 0x100 == n / 65536 % 256
    ensures n % 0x1_0000_0000 / 0x1_0000 / 0x100 == n / 16777216 % 256
  {
    Halves(n);
    HalfDigits(n);
    HalfDigits(n / 0x1_0000);
    TwoShifts(n);
  }

  lemma LowDigits(n: int)
    ensures n % 0x1_0000_0000 % 256 == n % 256
    ensures n % 0x1_0000_0000 / 256 % 256 == n / 256 % 256
    ensures n % 0x1_0000_0000 / 65536 % 256 == n / 65536 % 256
    ensures n % 0x1_0000_0000 / 16777216 % 256 == n / 16777216 % 256
  {
    var m := n % 0x1_0000_0000;
    assert m % 0x1_0000_0000 == m;
    Digits(n);
    Digits(m);
  }

  lemma FourBytes(b: Bytes, o: nat, w: byte, x: byte, y: byte, v: byte)
    requires o + 4 <= |b| && b[o] == w && b[o + 1] == x && b[o + 2] == y && b[o + 3] == v
    ensures TextAt(b, o, [w, x, y, v])
  {
    assert b[o..o + 4] == [b[o], b[o + 1], b[o + 2], b[o + 3]];
  }

  lemma NarrowSame(b: Bytes, o: nat, n: int)
    ensures U16At(b, o, Low16(n)) ==> U16At(b, o, n)
    ensures U32At(b, o, Low32(n)) ==> U32At(b, o, n)
  {
    LowDigits(n);
    HalfDigits(n);
  }

  // ---- The number at a place

  function N16(b: Bytes, o: nat): nat
    requires o + 2 <= |b|
  {
    b[o] as int + 256 * (b[o + 1] as int)
  }

  function N32(b: Bytes, o: nat): nat
    requires o + 4 <= |b|
  {
    b[o] as int + 256 * (b[o + 1] as int) + 65536 * (b[o + 2] as int) + 16777216 * (b[o + 3] as int)
  }

  lemma ValueAt16(b: Bytes, o: nat, n: u16)
    requires U16At(b, o, n)
    ensures n == N16(b, o)
  {
  }

  lemma ValueAt32(b: Bytes, o: nat, n: u32)
    requires U32At(b, o, n)
    ensures n == N32(b, o)
  {
    var h := n / 65536;
    assert n == 65536 * h + n % 65536;
    HalfDigits(n);
    assert n / 16777216 == h / 256;
  }

  lemma SameLowDigit(a: byte, b: byte, p: int, q: int)
    ensures a as int + 256 * p == b as int + 256 * q <==> a == b && p == q
  {
  }

  lemma FourBytesRead(b: Bytes, o: nat, w: byte, x: byte, y: byte, v: byte)
    requires o + 4 <= |b|
    ensures N32(b, o) == w as int + 256 * (x as int) + 65536 * (y as int) + 16777216 * (v as int) <==>
            b[o..o + 4] == [w, x, y, v]
  {
    var p, q := b[o + 2] as int + 256 * (b[o + 3] as int), y as int + 256 * (v as int);
    SameLowDigit(b[o + 2], y, b[o + 3], v);
    SameLowDigit(b[o + 1], x, p, q);
    SameLowDigit(b[o], w, b[o + 1] as int + 256 * p, x as int + 256 * q);
    SameFour(b, o, w, x, y, v);
  }

  lemma SameFour(b: Bytes, o: nat, w: byte, x: byte, y: byte, v: byte)
    requires o + 4 <= |b|
    ensures b[o..o + 4] == [w, x, y, v] <==> b[o] == w && b[o + 1] == x && b[o + 2] == y && b[o + 3] == v
  {
    var s := b[o..o + 4];
    assert s[0] == b[o] && s[1] == b[o + 1] && s[2] == b[o + 2] && s[3] == b[o + 3];
  }
}
