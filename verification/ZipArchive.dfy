/** What a ZIP archive of a list of files is, byte by byte, and the theorems about the end
    record search and about appending.

    All sizes and offsets are narrowed to their header fields as the C++ code narrows them,
    so the definitions hold for lists and files of any size. */
module ZipArchive {
  import opened ByteCodec
  import opened ZipFormat
  import opened FileStreams
  import opened DosTime

  datatype File = File(name: Bytes, data: Bytes, time: Tm)

  /** zlib. `deflate(d)` is what one `Z_FINISH` call writes for input `d` into an output
      buffer of `|d|` bytes; `inflate(s, n)` what it writes for `s` into `n` bytes. */
  datatype Zlib = Zlib(deflate: Bytes -> Bytes, inflate: (Bytes, nat) -> Bytes, crc32: Bytes -> u32) {
    /** Output never exceeds the buffer; output that leaves room is complete (RFC 1951). */
    ghost predicate Correct() {
      forall d :: |deflate(d)| <= |d| && (|deflate(d)| < |d| ==> inflate(deflate(d), |d|) == d)
    }
  }

  // ---- One member

  function Raw(f: File): (r: Bytes)
    ensures |r| < 0x1_0000_0000
    ensures |f.data| < 0x1_0000_0000 ==> r == f.data
  {
    f.data[..Low32(|f.data|)]
  }

  predicate Deflates(z: Zlib, f: File) {
    |z.deflate(Raw(f))| < |Raw(f)|
  }

  function Stored(z: Zlib, f: File): (r: Bytes)
    ensures |r| <= |Raw(f)| && (|r| < |Raw(f)| <==> Deflates(z, f))
  {
    if Deflates(z, f) then z.deflate(Raw(f)) else Raw(f)
  }

  function Method(z: Zlib, f: File): u16 {
    if Deflates(z, f) then Z_DEFLATED else 0
  }

  function LocalHeader(z: Zlib, f: File): LocalFileHeader {
    LocalFileHeader(
      SIG_LFH, 0, 0, Method(z, f), TimeField(f.time), DateField(f.time), z.crc32(Raw(f)),
      |Stored(z, f)|, |Raw(f)|, Low16(|f.name|), 0)
  }

  function LocalPart(z: Zlib, f: File): (b: Bytes)
    ensures |b| == SIZE_LFH + |f.name| + |Stored(z, f)|
  {
    EncodeLfh(LocalHeader(z, f)) + f.name + Stored(z, f)
  }

  function CentralHeader(z: Zlib, f: File, offset: nat): CentralDirectoryFileHeader {
    CentralDirectoryFileHeader(
      SIG_CDFH, 0, 0, 0, Method(z, f), TimeField(f.time), DateField(f.time), z.crc32(Raw(f)),
      |Stored(z, f)|, |Raw(f)|, Low16(|f.name|), 0, 0, 0, 0, 0, Low32(offset))
  }

  /** The central directory repeats as much of the name as its length field can say. */
  function CentralName(f: File): (n: Bytes)
    ensures |n| == Low16(|f.name|)
  {
    f.name[..Low16(|f.name|)]
  }

  function CentralPart(z: Zlib, f: File, offset: nat): (b: Bytes)
    ensures |b| == SIZE_CDFH + Low16(|f.name|)
  {
    EncodeCdfh(CentralHeader(z, f, offset)) + CentralName(f)
  }

  // ---- The whole archive

  function Locals(z: Zlib, l: seq<File>): Bytes {
    if l == [] then [] else Locals(z, l[..|l| - 1]) + LocalPart(z, l[|l| - 1])
  }

  lemma NoLocals(z: Zlib)
    ensures Locals(z, []) == []
  {
  }

  lemma LocalsStep(z: Zlib, l: seq<File>, i: nat)
    requires i < |l|
    ensures Locals(z, l[..i + 1]) == Locals(z, l[..i]) + LocalPart(z, l[i])
  {
    assert l[..i + 1][..i] == l[..i];
  }

  /** Where the k-th member starts; for `k == |l|`, where the central directory starts. */
  function Offset(z: Zlib, l: seq<File>, k: nat): nat
    requires k <= |l|
  {
    |Locals(z, l[..k])|
  }

  function Centrals(z: Zlib, l: seq<File>): Bytes {
    if l == [] then []
    else
      var front := l[..|l| - 1];
      Centrals(z, front) + CentralPart(z, l[|l| - 1], |Locals(z, front)|)
  }

  function EndRecord(z: Zlib, l: seq<File>): EOCD {
    EOCD(0, 0, Low16(|l|), Low16(|l|), Low32(|Centrals(z, l)|), Low32(|Locals(z, l)|), 0)
  }

  const END_SIGNATURE: Bytes := Put32(SIG_EOCD)

  function Archive(z: Zlib, l: seq<File>): (b: Bytes)
    ensures |b| == |Locals(z, l)| + |Centrals(z, l)| + 4 + SIZE_EOCD
  {
    Locals(z, l) + Centrals(z, l) + END_SIGNATURE + EncodeEocd(EndRecord(z, l))
  }

  /** The offset and the size of the central directory fit their 32-bit fields. */
  predicate Addressable(z: Zlib, l: seq<File>) {
    |Locals(z, l)| < 0x1_0000_0000 && |Centrals(z, l)| < 0x1_0000_0000
  }

  // ---- Layout

  lemma {:induction false} LocalsAt(z: Zlib, l: seq<File>, k: nat)
    requires k < |l|
    ensures Offset(z, l, k + 1) == Offset(z, l, k) + SIZE_LFH + |l[k].name| + |Stored(z, l[k])|
    ensures HasAt(Locals(z, l), Offset(z, l, k), LocalPart(z, l[k]))
  {
    hide LocalPart, Stored;
    var front, part := l[..|l| - 1], LocalPart(z, l[|l| - 1]);
    if k == |l| - 1 {
      assert l[..k + 1] == l;
      HasAtEnd(Locals(z, front), part);
    } else {
      LocalsAt(z, front, k);
      assert front[..k] == l[..k] && front[..k + 1] == l[..k + 1];
      HasAtFront(Locals(z, front), part, Offset(z, l, k), LocalPart(z, l[k]));
    }
  }

  lemma {:induction false} CentralsAt(z: Zlib, l: seq<File>, k: nat)
    requires k < |l|
    ensures HasAt(Centrals(z, l), |Centrals(z, l[..k])|, CentralPart(z, l[k], Offset(z, l, k)))
  {
    hide CentralPart, Locals;
    var front := l[..|l| - 1];
    var part := CentralPart(z, l[|l| - 1], |Locals(z, front)|);
    if k == |l| - 1 {
      HasAtEnd(Centrals(z, front), part);
    } else {
      CentralsAt(z, front, k);
      assert front[..k] == l[..k];
      HasAtFront(Centrals(z, front), part, |Centrals(z, l[..k])|,
                 CentralPart(z, l[k], Offset(z, l, k)));
    }
  }

  lemma CentralsStep(z: Zlib, l: seq<File>, k: nat)
    requires k < |l|
    ensures |Centrals(z, l[..k + 1])| == |Centrals(z, l[..k])| + SIZE_CDFH + Low16(|l[k].name|)
  {
    assert l[..k + 1][..k] == l[..k];
  }

  /** The members of `l` followed by their central directory start the file `b`. */
  ghost predicate Holds(b: Bytes, z: Zlib, l: seq<File>) {
    HasAt(b, 0, Locals(z, l)) && HasAt(b, |Locals(z, l)|, Centrals(z, l))
  }

  lemma ArchiveHolds(z: Zlib, l: seq<File>)
    ensures Holds(Archive(z, l), z, l)
  {
    FirstTwoParts(Locals(z, l), Centrals(z, l), END_SIGNATURE, EncodeEocd(EndRecord(z, l)));
  }

  lemma FirstTwoParts(x: Bytes, y: Bytes, w: Bytes, e: Bytes)
    ensures HasAt(x + y + w + e, 0, x) && HasAt(x + y + w + e, |x|, y)
  {
    assert x + y + w + e == Around([], x, y + w + e) == Around(x, y, w + e);
  }

  lemma LocalRecordAt(b: Bytes, z: Zlib, l: seq<File>, k: nat)
    requires k < |l| && Holds(b, z, l)
    ensures var o := Offset(z, l, k);
            && o + SIZE_LFH + |l[k].name| + |Stored(z, l[k])| <= |Locals(z, l)|
            && HasAt(b, o, EncodeLfh(LocalHeader(z, l[k])))
            && HasAt(b, o + SIZE_LFH, l[k].name + Stored(z, l[k]))
            && HasAt(b, o + SIZE_LFH + |l[k].name|, Stored(z, l[k]))
  {
    LocalsAt(z, l, k);
    HasAtWithin(b, 0, Locals(z, l), Offset(z, l, k), LocalPart(z, l[k]));
    HasAtTriple(b, Offset(z, l, k), EncodeLfh(LocalHeader(z, l[k])), l[k].name, Stored(z, l[k]));
  }

  lemma CentralRecordAt(b: Bytes, z: Zlib, l: seq<File>, k: nat)
    requires k < |l| && Holds(b, z, l)
    ensures var at := |Locals(z, l)| + |Centrals(z, l[..k])|;
            && at + SIZE_CDFH + Low16(|l[k].name|) <= |Locals(z, l)| + |Centrals(z, l)|
            && HasAt(b, at, EncodeCdfh(CentralHeader(z, l[k], Offset(z, l, k))))
            && HasAt(b, at + SIZE_CDFH, CentralName(l[k]))
  {
    var n, c := |Locals(z, l)|, |Centrals(z, l[..k])|;
    CentralsAt(z, l, k);
    HasAtWithin(b, n, Centrals(z, l), c, CentralPart(z, l[k], Offset(z, l, k)));
    HasAtPair(b, n + c, EncodeCdfh(CentralHeader(z, l[k], Offset(z, l, k))), CentralName(l[k]));
  }

  function CdfhAt(b: Bytes, at: nat): CentralDirectoryFileHeader
    requires at + SIZE_CDFH <= |b|
  {
    DecodeCdfh(b[at..at + SIZE_CDFH])
  }

  function LfhAt(b: Bytes, at: nat): LocalFileHeader
    requires at + SIZE_LFH <= |b|
  {
    DecodeLfh(b[at..at + SIZE_LFH])
  }

  lemma CentralHeaderAt(b: Bytes, z: Zlib, l: seq<File>, k: nat)
    requires k < |l| && Holds(b, z, l)
    ensures |Locals(z, l)| + |Centrals(z, l[..k])| + SIZE_CDFH <= |b|
    ensures CdfhAt(b, |Locals(z, l)| + |Centrals(z, l[..k])|) ==
            CentralHeader(z, l[k], Offset(z, l, k))
  {
    hide *;
    CentralRecordAt(b, z, l, k);
    CdfhDecoded(b, |Locals(z, l)| + |Centrals(z, l[..k])|, CentralHeader(z, l[k], Offset(z, l, k)));
  }

  lemma LocalHeaderAt(b: Bytes, z: Zlib, l: seq<File>, k: nat)
    requires k < |l| && Holds(b, z, l)
    ensures Offset(z, l, k) + SIZE_LFH <= |b|
    ensures LfhAt(b, Offset(z, l, k)) == LocalHeader(z, l[k])
  {
    LocalRecordAt(b, z, l, k);
    LfhDecoded(b, Offset(z, l, k), LocalHeader(z, l[k]));
  }

  /** Following the central record of any member to its local header finds a header that
      agrees with it on method, time, date, checksum, sizes and name length, followed by the
      member's name and stored bytes. */
  lemma CentralAgreesWithLocal(b: Bytes, z: Zlib, l: seq<File>, k: nat)
    requires k < |l| && Holds(b, z, l) && Addressable(z, l)
    ensures |Locals(z, l)| + |Centrals(z, l[..k])| + SIZE_CDFH <= |b|
    ensures var c := CdfhAt(b, |Locals(z, l)| + |Centrals(z, l[..k])|);
            && c.localFileHeaderOffset + SIZE_LFH <= |b|
            && Agree(c, LfhAt(b, c.localFileHeaderOffset))
            && HasAt(b, c.localFileHeaderOffset + SIZE_LFH, l[k].name + Stored(z, l[k]))
  {
    LocalRecordAt(b, z, l, k);
    CentralHeaderAt(b, z, l, k);
    LocalHeaderAt(b, z, l, k);
  }

  predicate Agree(c: CentralDirectoryFileHeader, h: LocalFileHeader) {
    && c.signature == SIG_CDFH && h.signature == SIG_LFH
    && h.compressionMethod == c.compressionMethod
    && h.modificationTime == c.modificationTime && h.modificationDate == c.modificationDate
    && h.crc32 == c.crc32 && h.filenameLength == c.filenameLength
    && h.compressedSize == c.compressedSize && h.uncompressedSize == c.uncompressedSize
  }

  lemma CdfhDecoded(b: Bytes, at: nat, c: CentralDirectoryFileHeader)
    requires HasAt(b, at, EncodeCdfh(c))
    ensures at + SIZE_CDFH <= |b| && CdfhAt(b, at) == c
  {
    HasAtSlice(b, at, EncodeCdfh(c));
    CdfhRoundTrip(c, EncodeCdfh(c));
  }

  lemma LfhDecoded(b: Bytes, at: nat, h: LocalFileHeader)
    requires HasAt(b, at, EncodeLfh(h))
    ensures at + SIZE_LFH <= |b| && LfhAt(b, at) == h
  {
    HasAtSlice(b, at, EncodeLfh(h));
    LfhRoundTrip(h, EncodeLfh(h));
  }

  /** No archive is longer than its raw data plus 76 bytes and two names per member plus the
      end record. */
  function SizeBound(l: seq<File>): nat {
    if l == [] then 22
    else SizeBound(l[..|l| - 1]) + |l[|l| - 1].data| + 76 + 2 * |l[|l| - 1].name|
  }

  lemma {:induction false} ArchiveWithinBound(z: Zlib, l: seq<File>)
    ensures |Archive(z, l)| <= SizeBound(l)
    ensures SizeBound(l) < 0x1_0000_0000 ==> Addressable(z, l)
  {
    if l != [] {
      ArchiveWithinBound(z, l[..|l| - 1]);
    }
  }

  /** Under the bound every narrowed offset and size is the true one. */
  lemma OffsetsLossless(z: Zlib, l: seq<File>, k: nat)
    requires SizeBound(l) < 0x1_0000_0000 && k < |l|
    ensures CentralHeader(z, l[k], Offset(z, l, k)).localFileHeaderOffset == Offset(z, l, k)
    ensures EndRecord(z, l).centralDirectoryOffset == Offset(z, l, |l|)
    ensures EndRecord(z, l).sizeOfCentralDirectory == |Centrals(z, l)|
  {
    ArchiveWithinBound(z, l);
    ArchiveHolds(z, l);
    LocalRecordAt(Archive(z, l), z, l, k);
    assert l[..|l|] == l;
  }

  // ---- The backward search for the end record

  predicate SignatureAt(b: Bytes, o: nat)
    requires o + 4 <= |b|
  {
    Get32(b[o..o + 4]) == SIG_EOCD
  }

  /** `o` is the last position in `1..=|b| - 18` holding the end record's signature. */
  ghost predicate LastSignature(b: Bytes, o: nat) {
    && 1 <= o <= |b| - SIZE_EOCD
    && SignatureAt(b, o)
    && forall p :: o < p <= |b| - SIZE_EOCD ==> !SignatureAt(b, p)
  }

  lemma EocdHead(e: EOCD)
    ensures EncodeEocd(e)[..4] == Put16(e.diskNumber) + Put16(e.startDiskNumber)
  {
    var fs := EocdFields(e);
    assert Pack(fs) == fs[0].Put() + Pack(fs[1..]);
    assert Pack(fs[1..]) == fs[1].Put() + Pack(fs[1..][1..]);
  }

  /** Whatever precedes it, also payload bytes that contain the signature, the search stops
      at a final end record with zero disk numbers, unless that record starts the file. */
  lemma EndRecordFound(prefix: Bytes, e: EOCD)
    requires e.diskNumber == 0 && e.startDiskNumber == 0
    ensures var b := prefix + END_SIGNATURE + EncodeEocd(e);
            && (LastSignature(b, |prefix|) <==> prefix != [])
            && (forall o :: LastSignature(b, o) ==> o == |prefix|)
            && HasAt(b, |prefix| + 4, EncodeEocd(e))
  {
    var r := EncodeEocd(e);
    var b, n := prefix + END_SIGNATURE + r, |prefix|;
    EocdHead(e);
    GetPut32(SIG_EOCD);
    var sig: Bytes := [0x50, 0x4b, 0x05, 0x06];
    assert END_SIGNATURE == sig;
    assert b[n..n + 4] == sig;
    assert SignatureAt(b, n);
    assert r[0] == r[..4][0] == 0 && r[1] == r[..4][1] == 0;
    assert r[2] == r[..4][2] == 0 && r[3] == r[..4][3] == 0;
    forall p | n < p <= |b| - SIZE_EOCD
      ensures !SignatureAt(b, p)
    {
      assert p <= n + 4;
      // The last byte of the window is one of the four zero bytes.
      assert b[p..p + 4][3] == 0;
      Bijection32(SIG_EOCD, b[p..p + 4]);
    }
    assert b == Around(prefix + END_SIGNATURE, r, []);
  }

  /** The search loop: the position behind the signature, or 0. */
  function SearchFrom(b: Bytes, o: nat): nat
    requires o + 4 <= |b|
  {
    if o == 0 then 0 else if SignatureAt(b, o) then o + 4 else SearchFrom(b, o - 1)
  }

  function FindEndRecord(b: Bytes): nat {
    if |b| < SIZE_EOCD then 0 else SearchFrom(b, |b| - SIZE_EOCD)
  }

  lemma {:induction false} SearchFromLast(b: Bytes, o: nat)
    requires o + 4 <= |b|
    ensures var r := SearchFrom(b, o);
            if r == 0 then forall p :: 1 <= p <= o ==> !SignatureAt(b, p)
            else 5 <= r <= o + 4 && SignatureAt(b, r - 4) &&
                 forall p :: r - 4 < p <= o ==> !SignatureAt(b, p)
  {
    if o != 0 && !SignatureAt(b, o) {
      SearchFromLast(b, o - 1);
    }
  }

  /** The search finds the last signature, and nothing exactly when there is none. */
  lemma SearchIsLast(b: Bytes)
    ensures var r := FindEndRecord(b);
            if r == 0 then forall o :: !LastSignature(b, o)
            else r >= 4 && LastSignature(b, r - 4)
  {
    if |b| >= SIZE_EOCD {
      SearchFromLast(b, |b| - SIZE_EOCD);
      if FindEndRecord(b) == 0 {
        forall o: nat
          ensures !LastSignature(b, o)
        {
        }
      }
    }
  }

  /** Reading where the search stops recovers the end record of any nonempty archive. */
  lemma ArchiveEndRecord(z: Zlib, l: seq<File>)
    requires l != []
    ensures var b := Archive(z, l);
            && FindEndRecord(b) == |Locals(z, l)| + |Centrals(z, l)| + 4
            && ReadOver(b, Cursor(FindEndRecord(b), true), Zeros(SIZE_EOCD)) ==
               (EncodeEocd(EndRecord(z, l)), Cursor(|b|, true))
  {
    var b, x, e := Archive(z, l), Locals(z, l) + Centrals(z, l), EndRecord(z, l);
    hide Locals, Centrals, EncodeEocd, SearchFrom, SignatureAt;
    assert |x| > 0 by { LocalsNonempty(z, l); }
    EndRecordFound(x, e);
    SearchIsLast(b);
    HasAtSlice(b, |x| + 4, EncodeEocd(e));
  }

  lemma LocalsNonempty(z: Zlib, l: seq<File>)
    requires l != []
    ensures Locals(z, l) != []
  {
    assert Locals(z, l) == Locals(z, l[..|l| - 1]) + LocalPart(z, l[|l| - 1]);
  }

  // ---- Appending

  predicate DirectoryInside(b: Bytes, e: EOCD) {
    e.sizeOfCentralDirectory == 0 || e.centralDirectoryOffset + e.sizeOfCentralDirectory <= |b|
  }

  /** The bytes of the central directory `e` describes. */
  function Directory(b: Bytes, e: EOCD): (r: Bytes)
    requires DirectoryInside(b, e)
    ensures |r| == e.sizeOfCentralDirectory
  {
    if e.sizeOfCentralDirectory == 0 then []
    else b[e.centralDirectoryOffset..e.centralDirectoryOffset + e.sizeOfCentralDirectory]
  }

  /** The archive `b`, whose end record is `e`, after a file was written over its central
      directory and the old directory, one new entry and a new end record after that. */
  function Appended(z: Zlib, b: Bytes, e: EOCD, f: File): Bytes
    requires DirectoryInside(b, e)
  {
    Overwrite(b, e.centralDirectoryOffset, Tail(z, Directory(b, e), e, f))
  }

  /** The bytes from the new member's local header on. */
  function Tail(z: Zlib, directory: Bytes, e: EOCD, f: File): Bytes {
    LocalPart(z, f) + directory + CentralPart(z, f, e.centralDirectoryOffset) +
    END_SIGNATURE + EncodeEocd(NextEndRecord(z, e, f))
  }

  function NextEndRecord(z: Zlib, e: EOCD, f: File): EOCD {
    e.(centralDirectoryOffset := Low32(e.centralDirectoryOffset + |LocalPart(z, f)|),
       numberCentralDirectoryRecord := Low16(e.numberCentralDirectoryRecord + 1),
       totalCentralDirectoryRecord := Low16(e.totalCentralDirectoryRecord + 1),
       sizeOfCentralDirectory := Low32(e.sizeOfCentralDirectory + SIZE_CDFH + Low16(|f.name|)))
  }

  lemma ArchiveSnoc(z: Zlib, l: seq<File>, f: File)
    ensures Locals(z, l + [f]) == Locals(z, l) + LocalPart(z, f)
    ensures Centrals(z, l + [f]) == Centrals(z, l) + CentralPart(z, f, |Locals(z, l)|)
  {
    assert (l + [f])[..|l|] == l;
  }

  /** The updated end record is that of the longer list, whatever the sizes. */
  lemma NextEndRecordIsEndRecord(z: Zlib, l: seq<File>, f: File)
    ensures NextEndRecord(z, EndRecord(z, l), f) == EndRecord(z, l + [f])
  {
    hide Locals, Centrals, LocalPart, CentralPart, Low16, Low32, Stored, Raw;
    ArchiveSnoc(z, l, f);
    Low16Plus(|l|, 1);
    Low32Plus(|Locals(z, l)|, |LocalPart(z, f)|);
    Low32Plus(|Centrals(z, l)|, SIZE_CDFH + Low16(|f.name|));
  }

  /** Appending to an archive gives, byte for byte and with nothing left over behind the new
      end record, the archive written at once, exactly when the central directory's offset
      and size fit their fields. */
  lemma AppendEqualsBatch(z: Zlib, l: seq<File>, f: File)
    ensures DirectoryInside(Archive(z, l), EndRecord(z, l))
    ensures Appended(z, Archive(z, l), EndRecord(z, l), f) == Archive(z, l + [f])
            <==> Addressable(z, l)
  {
    ArchiveSnoc(z, l, f);
    if Addressable(z, l) {
      AppendedFits(z, l, f);
    } else {
      AppendedTooShort(z, l, f);
    }
  }

  lemma AppendedFits(z: Zlib, l: seq<File>, f: File)
    requires Addressable(z, l)
    ensures Appended(z, Archive(z, l), EndRecord(z, l), f) == Archive(z, l + [f])
  {
    hide Locals, Centrals, LocalPart, CentralPart, Low16, Low32, EncodeEocd, NextEndRecord, Overwrite,
         Put32, Stored, Raw;
    var n := EndRecord(z, l + [f]);
    ArchiveSnoc(z, l, f);
    NextEndRecordIsEndRecord(z, l, f);
    Splice(Locals(z, l), Centrals(z, l), END_SIGNATURE, EncodeEocd(EndRecord(z, l)),
           LocalPart(z, f), CentralPart(z, f, |Locals(z, l)|), END_SIGNATURE, EncodeEocd(n));
  }

  lemma AppendedTooShort(z: Zlib, l: seq<File>, f: File)
    requires !Addressable(z, l)
    ensures |Appended(z, Archive(z, l), EndRecord(z, l), f)| < |Archive(z, l + [f])|
  {
    hide Locals, Centrals, EncodeEocd, NextEndRecord, Put32, Stored, Raw, EncodeLfh, EncodeCdfh;
    ArchiveSnoc(z, l, f);
    var e, b := EndRecord(z, l), Archive(z, l);
    assert e.centralDirectoryOffset <= |Locals(z, l)|;
    assert e.sizeOfCentralDirectory <= |Centrals(z, l)|;
  }

  /** Writing over `d + t + u` from where `d` starts, with at least as many bytes. */
  lemma Splice(x: Bytes, d: Bytes, t: Bytes, u: Bytes, p: Bytes, c: Bytes, s: Bytes, e: Bytes)
    requires p != [] && |t| + |u| <= |p| + |c| + |s| + |e|
    ensures var b := x + d + t + u;
            Overwrite(b, |x|, p + b[|x|..|x| + |d|] + c + s + e) == (x + p) + (d + c) + s + e
  {
    var b := x + d + t + u;
    assert b[..|x|] == x && b[|x|..|x| + |d|] == d;
  }
}
