/** A written archive byte by byte, in numbers (PKWARE APPNOTE.TXT, sections 4.3.7, 4.3.12 and
    4.3.16): which byte stands at which place of every record, and what the readers make of the
    bytes they find. Nothing here goes through the project's own encoders. */
module ZipBytes {
  import opened ByteCodec
  import opened NumberBytes
  import opened ZipFormat
  import opened DosTime
  import opened FileStreams
  import opened ZipArchive
  import opened ZipAccess

  // ---- The fields of a packed struct

  function FieldOffset(fs: seq<Field>, k: nat): nat
    requires k <= |fs|
  {
    if k == 0 then 0 else FieldOffset(fs, k - 1) + fs[k - 1].Width()
  }

  lemma {:induction false} FieldOffsetTail(fs: seq<Field>, k: nat)
    requires 0 < k <= |fs|
    ensures FieldOffset(fs, k) == fs[0].Width() + FieldOffset(fs[1..], k - 1)
    decreases k
  {
    if k > 1 {
      FieldOffsetTail(fs, k - 1);
    }
  }

  lemma {:induction false} FieldAt(fs: seq<Field>, k: nat)
    requires k < |fs|
    ensures HasAt(Pack(fs), FieldOffset(fs, k), fs[k].Put())
    decreases k
  {
    hide Field.Put, HasAt;
    assert Pack(fs) == fs[0].Put() + Pack(fs[1..]);
    if k == 0 {
      HasAtSlice(Pack(fs), 0, fs[0].Put());
    } else {
      FieldAt(fs[1..], k - 1);
      FieldOffsetTail(fs, k);
      HasAtBehind(fs[0].Put(), Pack(fs[1..]), FieldOffset(fs[1..], k - 1), fs[k].Put());
    }
  }

  /** The k-th field of a struct that stands at `at`. */
  lemma FieldBytes(b: Bytes, at: nat, fs: seq<Field>, k: nat, o: nat)
    requires HasAt(b, at, Pack(fs)) && k < |fs| && FieldOffset(fs, k) == o
    ensures fs[k].W16? ==> U16At(b, at + o, fs[k].v16)
    ensures fs[k].W32? ==> U32At(b, at + o, fs[k].v32)
    ensures FieldOffset(fs, k + 1) == o + if fs[k].W16? then 2 else 4
  {
    FieldAt(fs, k);
    HasAtWithin(b, at, Pack(fs), o, fs[k].Put());
    if fs[k].W16? {
      Put16Bytes(b, at + o, fs[k].v16);
    } else {
      Put32Bytes(b, at + o, fs[k].v32);
    }
  }

  // ---- The three records, field by field

  lemma LocalHeaderBytes(b: Bytes, at: nat, h: LocalFileHeader)
    requires HasAt(b, at, EncodeLfh(h))
    ensures U32At(b, at, h.signature) && U16At(b, at + 4, h.versionToExtract)
    ensures U16At(b, at + 6, h.generalPurposeBitFlag) && U16At(b, at + 8, h.compressionMethod)
    ensures U16At(b, at + 10, h.modificationTime) && U16At(b, at + 12, h.modificationDate)
    ensures U32At(b, at + 14, h.crc32) && U32At(b, at + 18, h.compressedSize)
    ensures U32At(b, at + 22, h.uncompressedSize)
    ensures U16At(b, at + 26, h.filenameLength) && U16At(b, at + 28, h.extraFieldLength)
  {
    hide HasAt, U16At, U32At, Pack, FieldOffset;
    var fs := LfhFields(h);
    StructStart(fs);
    FieldBytes(b, at, fs, 0, 0);
    FieldBytes(b, at, fs, 1, 4);
    FieldBytes(b, at, fs, 2, 6);
    FieldBytes(b, at, fs, 3, 8);
    FieldBytes(b, at, fs, 4, 10);
    FieldBytes(b, at, fs, 5, 12);
    FieldBytes(b, at, fs, 6, 14);
    FieldBytes(b, at, fs, 7, 18);
    FieldBytes(b, at, fs, 8, 22);
    FieldBytes(b, at, fs, 9, 26);
    FieldBytes(b, at, fs, 10, 28);
  }

  lemma StructStart(fs: seq<Field>)
    ensures FieldOffset(fs, 0) == 0
  {
  }

  lemma CentralHeaderStart(b: Bytes, at: nat, h: CentralDirectoryFileHeader)
    requires HasAt(b, at, Pack(CdfhFields(h)))
    ensures U32At(b, at, h.signature) && U16At(b, at + 4, h.versionMadeBy) && U16At(b, at + 6, h.versionToExtract)
    ensures U16At(b, at + 8, h.generalPurposeBitFlag) && U16At(b, at + 10, h.compressionMethod)
    ensures U16At(b, at + 12, h.modificationTime) && U16At(b, at + 14, h.modificationDate)
    ensures U32At(b, at + 16, h.crc32) && FieldOffset(CdfhFields(h), 8) == 20
  {
    hide HasAt, U16At, U32At, Pack, FieldOffset;
    var fs := CdfhFields(h);
    StructStart(fs);
    FieldBytes(b, at, fs, 0, 0);
    FieldBytes(b, at, fs, 1, 4);
    FieldBytes(b, at, fs, 2, 6);
    FieldBytes(b, at, fs, 3, 8);
    FieldBytes(b, at, fs, 4, 10);
    FieldBytes(b, at, fs, 5, 12);
    FieldBytes(b, at, fs, 6, 14);
    FieldBytes(b, at, fs, 7, 16);
  }

  lemma CentralHeaderRest(b: Bytes, at: nat, h: CentralDirectoryFileHeader)
    requires HasAt(b, at, Pack(CdfhFields(h))) && FieldOffset(CdfhFields(h), 8) == 20
    ensures U32At(b, at + 20, h.compressedSize) && U32At(b, at + 24, h.uncompressedSize)
    ensures U16At(b, at + 28, h.filenameLength) && U16At(b, at + 30, h.extraFieldLength)
    ensures U16At(b, at + 32, h.fileCommentLength) && U16At(b, at + 34, h.diskNumber)
    ensures U16At(b, at + 36, h.internalFileAttributes) && U32At(b, at + 38, h.externalFileAttributes)
    ensures U32At(b, at + 42, h.localFileHeaderOffset)
  {
    hide HasAt, U16At, U32At, Pack, FieldOffset;
    var fs := CdfhFields(h);
    FieldBytes(b, at, fs, 8, 20);
    FieldBytes(b, at, fs, 9, 24);
    FieldBytes(b, at, fs, 10, 28);
    FieldBytes(b, at, fs, 11, 30);
    FieldBytes(b, at, fs, 12, 32);
    FieldBytes(b, at, fs, 13, 34);
    FieldBytes(b, at, fs, 14, 36);
    FieldBytes(b, at, fs, 15, 38);
    FieldBytes(b, at, fs, 16, 42);
  }

  lemma CentralHeaderBytes(b: Bytes, at: nat, h: CentralDirectoryFileHeader)
    requires HasAt(b, at, EncodeCdfh(h))
    ensures U32At(b, at, h.signature) && U16At(b, at + 4, h.versionMadeBy) && U16At(b, at + 6, h.versionToExtract)
    ensures U16At(b, at + 8, h.generalPurposeBitFlag) && U16At(b, at + 10, h.compressionMethod)
    ensures U16At(b, at + 12, h.modificationTime) && U16At(b, at + 14, h.modificationDate)
    ensures U32At(b, at + 16, h.crc32) && U32At(b, at + 20, h.compressedSize)
    ensures U32At(b, at + 24, h.uncompressedSize)
    ensures U16At(b, at + 28, h.filenameLength) && U16At(b, at + 30, h.extraFieldLength)
    ensures U16At(b, at + 32, h.fileCommentLength) && U16At(b, at + 34, h.diskNumber)
    ensures U16At(b, at + 36, h.internalFileAttributes) && U32At(b, at + 38, h.externalFileAttributes)
    ensures U32At(b, at + 42, h.localFileHeaderOffset)
  {
    hide HasAt, U16At, U32At, Pack, FieldOffset, CdfhFields;
    CentralHeaderStart(b, at, h);
    CentralHeaderRest(b, at, h);
  }

  lemma EndRecordBytes(b: Bytes, at: nat, e: EOCD)
    requires HasAt(b, at, EncodeEocd(e))
    ensures U16At(b, at, e.diskNumber) && U16At(b, at + 2, e.startDiskNumber)
    ensures U16At(b, at + 4, e.numberCentralDirectoryRecord) && U16At(b, at + 6, e.totalCentralDirectoryRecord)
    ensures U32At(b, at + 8, e.sizeOfCentralDirectory) && U32At(b, at + 12, e.centralDirectoryOffset)
    ensures U16At(b, at + 16, e.commentLength)
  {
    hide HasAt, U16At, U32At, Pack, FieldOffset;
    var fs := EocdFields(e);
    StructStart(fs);
    FieldBytes(b, at, fs, 0, 0);
    FieldBytes(b, at, fs, 1, 2);
    FieldBytes(b, at, fs, 2, 4);
    FieldBytes(b, at, fs, 3, 6);
    FieldBytes(b, at, fs, 4, 8);
    FieldBytes(b, at, fs, 5, 12);
    FieldBytes(b, at, fs, 6, 16);
  }

  // ---- An archive in bytes

  /** The file's bytes as far as a 32-bit size says. */
  function RawOf(f: File): Bytes {
    f.data[..|f.data| % 0x1_0000_0000]
  }

  predicate Shrinks(z: Zlib, f: File) {
    |z.deflate(RawOf(f))| < |RawOf(f)|
  }

  function PackedOf(z: Zlib, f: File): Bytes {
    if Shrinks(z, f) then z.deflate(RawOf(f)) else RawOf(f)
  }

  /** Local header, name and data of a member, from position `o` on. */
  ghost predicate LocalIs(b: Bytes, o: nat, z: Zlib, f: File) {
    && TextAt(b, o, [0x50, 0x4B, 0x03, 0x04]) && U16At(b, o + 4, 0) && U16At(b, o + 6, 0)
    && U16At(b, o + 8, if Shrinks(z, f) then 8 else 0)
    && U16At(b, o + 10, TimeField(f.time)) && U16At(b, o + 12, DateField(f.time))
    && U32At(b, o + 14, z.crc32(RawOf(f))) && U32At(b, o + 18, |PackedOf(z, f)|) && U32At(b, o + 22, |RawOf(f)|)
    && U16At(b, o + 26, |f.name|) && U16At(b, o + 28, 0)
    && TextAt(b, o + 30, f.name) && TextAt(b, o + 30 + |f.name|, PackedOf(z, f))
  }

  /** Central directory header and name of a member whose local header is at `lfh`. */
  ghost predicate CentralIs(b: Bytes, o: nat, z: Zlib, f: File, lfh: nat) {
    && TextAt(b, o, [0x50, 0x4B, 0x01, 0x02]) && U16At(b, o + 4, 0) && U16At(b, o + 6, 0) && U16At(b, o + 8, 0)
    && U16At(b, o + 10, if Shrinks(z, f) then 8 else 0)
    && U16At(b, o + 12, TimeField(f.time)) && U16At(b, o + 14, DateField(f.time))
    && U32At(b, o + 16, z.crc32(RawOf(f))) && U32At(b, o + 20, |PackedOf(z, f)|) && U32At(b, o + 24, |RawOf(f)|)
    && U16At(b, o + 28, |f.name|) && U16At(b, o + 30, 0) && U16At(b, o + 32, 0) && U16At(b, o + 34, 0)
    && U16At(b, o + 36, 0) && U32At(b, o + 38, 0) && U32At(b, o + 42, lfh)
    && TextAt(b, o + 46, f.name[..|f.name| % 0x1_0000])
  }

  /** Signature and end record, at the very end of the file. */
  ghost predicate EndIs(b: Bytes, o: nat, count: nat, size: nat, offset: nat) {
    && TextAt(b, o, [0x50, 0x4B, 0x05, 0x06]) && U16At(b, o + 4, 0) && U16At(b, o + 6, 0)
    && U16At(b, o + 8, count) && U16At(b, o + 10, count)
    && U32At(b, o + 12, size) && U32At(b, o + 16, offset) && U16At(b, o + 20, 0)
    && o + 22 == |b|
  }

  /** Where the local header of member `k` starts, and where they end. */
  function LocalStart(z: Zlib, l: seq<File>, k: nat): nat
    requires k <= |l|
  {
    if k == 0 then 0 else LocalStart(z, l, k - 1) + 30 + |l[k - 1].name| + |PackedOf(z, l[k - 1])|
  }

  /** Where the central record of member `k` starts, from the start of the directory. */
  function CentralStart(l: seq<File>, k: nat): nat
    requires k <= |l|
  {
    if k == 0 then 0 else CentralStart(l, k - 1) + 46 + |l[k - 1].name| % 0x1_0000
  }

  /** All records of the archive of `l`, each at its place, one behind the other. */
  ghost predicate IsArchive(b: Bytes, z: Zlib, l: seq<File>) {
    var n, at := |l|, LocalStart(z, l, |l|);
    && (forall k :: 0 <= k < n ==> LocalIs(b, LocalStart(z, l, k), z, l[k]))
    && (forall k :: 0 <= k < n ==> CentralIs(b, at + CentralStart(l, k), z, l[k], LocalStart(z, l, k)))
    && EndIs(b, at + CentralStart(l, n), n, CentralStart(l, n), at)
  }

  lemma PackedIsStored(z: Zlib, f: File)
    ensures RawOf(f) == Raw(f) && PackedOf(z, f) == Stored(z, f) && (Shrinks(z, f) <==> Deflates(z, f))
  {
  }

  lemma StartsAtNothing(z: Zlib, l: seq<File>)
    ensures LocalStart(z, l, 0) == Offset(z, l, 0) && CentralStart(l, 0) == |Centrals(z, l[..0])|
  {
    assert l[..0] == [];
  }

  lemma {:induction false} LocalStartIsOffset(z: Zlib, l: seq<File>, k: nat)
    requires k <= |l|
    ensures LocalStart(z, l, k) == Offset(z, l, k)
    decreases k
  {
    hide Stored, PackedOf, HasAt, Offset;
    if k == 0 {
      StartsAtNothing(z, l);
    } else {
      LocalStartIsOffset(z, l, k - 1);
      LocalsAt(z, l, k - 1);
      PackedIsStored(z, l[k - 1]);
    }
  }

  lemma {:induction false} CentralStartIs(z: Zlib, l: seq<File>, k: nat)
    requires k <= |l|
    ensures CentralStart(l, k) == |Centrals(z, l[..k])|
    decreases k
  {
    hide Centrals, LocalStart, Offset;
    if k == 0 {
      StartsAtNothing(z, l);
    } else {
      CentralStartIs(z, l, k - 1);
      CentralsStep(z, l, k - 1);
    }
  }

  lemma LocalSignature(b: Bytes, o: nat)
    requires U32At(b, o, SIG_LFH)
    ensures TextAt(b, o, [0x50, 0x4B, 0x03, 0x04])
  {
    FourBytes(b, o, 0x50, 0x4B, 0x03, 0x04);
  }

  lemma CentralSignature(b: Bytes, o: nat)
    requires U32At(b, o, SIG_CDFH)
    ensures TextAt(b, o, [0x50, 0x4B, 0x01, 0x02])
  {
    FourBytes(b, o, 0x50, 0x4B, 0x01, 0x02);
  }

  lemma EndSignature(b: Bytes, o: nat)
    requires U32At(b, o, SIG_EOCD)
    ensures TextAt(b, o, [0x50, 0x4B, 0x05, 0x06])
  {
    FourBytes(b, o, 0x50, 0x4B, 0x05, 0x06);
  }

  lemma LocalPartBytes(b: Bytes, o: nat, z: Zlib, f: File)
    requires HasAt(b, o, LocalPart(z, f))
    ensures LocalIs(b, o, z, f)
  {
    hide HasAt, U16At, U32At, TimeField, DateField, EncodeLfh, Stored, Raw, PackedOf, RawOf, Shrinks, Deflates;
    HasAtTriple(b, o, EncodeLfh(LocalHeader(z, f)), f.name, Stored(z, f));
    LocalHeaderBytes(b, o, LocalHeader(z, f));
    LocalSignature(b, o);
    NarrowSame(b, o + 26, |f.name|);
    PackedIsStored(z, f);
    HasAtPair(b, o + 30, f.name, Stored(z, f));
    HasAtSlice(b, o + 30, f.name);
    HasAtSlice(b, o + 30 + |f.name|, Stored(z, f));
  }

  lemma CentralPartBytes(b: Bytes, o: nat, z: Zlib, f: File, lfh: nat)
    requires HasAt(b, o, CentralPart(z, f, lfh))
    ensures CentralIs(b, o, z, f, lfh)
  {
    hide HasAt, U16At, U32At, TimeField, DateField, EncodeCdfh, Stored, Raw, PackedOf, RawOf, Shrinks, Deflates;
    HasAtPair(b, o, EncodeCdfh(CentralHeader(z, f, lfh)), CentralName(f));
    CentralHeaderBytes(b, o, CentralHeader(z, f, lfh));
    CentralSignature(b, o);
    NarrowSame(b, o + 28, |f.name|);
    NarrowSame(b, o + 42, lfh);
    PackedIsStored(z, f);
    HasAtSlice(b, o + 46, CentralName(f));
  }

  lemma MemberIsWritten(b: Bytes, z: Zlib, l: seq<File>, k: nat)
    requires k < |l| && Holds(b, z, l)
    ensures LocalIs(b, Offset(z, l, k), z, l[k])
    ensures CentralIs(b, |Locals(z, l)| + |Centrals(z, l[..k])|, z, l[k], Offset(z, l, k))
  {
    hide HasAt, LocalIs, CentralIs, LocalPart, CentralPart, Offset, Locals, Centrals;
    LocalsAt(z, l, k);
    HasAtWithin(b, 0, Locals(z, l), Offset(z, l, k), LocalPart(z, l[k]));
    LocalPartBytes(b, Offset(z, l, k), z, l[k]);
    CentralsAt(z, l, k);
    HasAtWithin(b, |Locals(z, l)|, Centrals(z, l), |Centrals(z, l[..k])|, CentralPart(z, l[k], Offset(z, l, k)));
    CentralPartBytes(b, |Locals(z, l)| + |Centrals(z, l[..k])|, z, l[k], Offset(z, l, k));
  }

  lemma EndIsWritten(z: Zlib, l: seq<File>)
    ensures EndIs(Archive(z, l), |Locals(z, l)| + |Centrals(z, l)|, |l|, |Centrals(z, l)|, |Locals(z, l)|)
  {
    hide HasAt, U16At, U32At, EncodeEocd, Locals, Centrals, Put32;
    var b, o, e := Archive(z, l), |Locals(z, l)| + |Centrals(z, l)|, EndRecord(z, l);
    var head := Locals(z, l) + Centrals(z, l) + END_SIGNATURE;
    assert b == head + EncodeEocd(e);
    HasAtEnd(head, EncodeEocd(e));
    EndRecordBytes(b, o + 4, e);
    HasAtEnd(Locals(z, l) + Centrals(z, l), END_SIGNATURE);
    HasAtFront(head, EncodeEocd(e), o, END_SIGNATURE);
    Put32Bytes(b, o, SIG_EOCD);
    EndSignature(b, o);
    NarrowSame(b, o + 8, |l|);
    NarrowSame(b, o + 10, |l|);
    NarrowSame(b, o + 12, |Centrals(z, l)|);
    NarrowSame(b, o + 16, |Locals(z, l)|);
  }

  /** Every written archive, of any list, has exactly these bytes at these places. */
  lemma ArchiveInBytes(z: Zlib, l: seq<File>)
    ensures IsArchive(Archive(z, l), z, l)
  {
    hide Archive, LocalIs, CentralIs, EndIs, Locals, Centrals, Holds, Offset, LocalStart, CentralStart;
    var b, n := Archive(z, l), |l|;
    ArchiveHolds(z, l);
    LocalStartIsOffset(z, l, n);
    CentralStartIs(z, l, n);
    assert l[..n] == l;
    OffsetOfAll(z, l);
    forall k | 0 <= k < n
      ensures LocalIs(b, LocalStart(z, l, k), z, l[k])
      ensures CentralIs(b, LocalStart(z, l, n) + CentralStart(l, k), z, l[k], LocalStart(z, l, k))
    {
      LocalStartIsOffset(z, l, k);
      CentralStartIs(z, l, k);
      MemberIsWritten(b, z, l, k);
    }
    EndIsWritten(z, l);
  }

  lemma OffsetOfAll(z: Zlib, l: seq<File>)
    ensures Offset(z, l, |l|) == |Locals(z, l)|
  {
    assert l[..|l|] == l;
  }

  // ---- What the readers make of bytes

  lemma WholeHeader(s: Bytes)
    ensures HasAt(s, 0, s)
  {
    HasAtSlice(s, 0, s);
  }

  lemma LocalHeaderRead(s: Bytes)
    requires |s| == 30
    ensures DecodeLfh(s) ==
            LocalFileHeader(N32(s, 0), N16(s, 4), N16(s, 6), N16(s, 8), N16(s, 10), N16(s, 12), N32(s, 14), N32(s, 18),
                            N32(s, 22), N16(s, 26), N16(s, 28))
  {
    hide HasAt, U16At, U32At, N16, N32, EncodeLfh, DecodeLfh;
    var h := DecodeLfh(s);
    LfhRoundTrip(h, s);
    WholeHeader(s);
    LocalHeaderBytes(s, 0, h);
    ValueAt32(s, 0, h.signature);
    ValueAt16(s, 4, h.versionToExtract);
    ValueAt16(s, 6, h.generalPurposeBitFlag);
    ValueAt16(s, 8, h.compressionMethod);
    ValueAt16(s, 10, h.modificationTime);
    ValueAt16(s, 12, h.modificationDate);
    ValueAt32(s, 14, h.crc32);
    ValueAt32(s, 18, h.compressedSize);
    ValueAt32(s, 22, h.uncompressedSize);
    ValueAt16(s, 26, h.filenameLength);
    ValueAt16(s, 28, h.extraFieldLength);
  }

  lemma CentralHeaderRead(s: Bytes)
    requires |s| == 46
    ensures var h := DecodeCdfh(s);
            && h.signature == N32(s, 0) && h.generalPurposeBitFlag == N16(s, 8) && h.compressionMethod == N16(s, 10)
            && h.compressedSize == N32(s, 20) && h.uncompressedSize == N32(s, 24)
            && h.filenameLength == N16(s, 28) && h.extraFieldLength == N16(s, 30) && h.fileCommentLength == N16(s, 32)
            && h.localFileHeaderOffset == N32(s, 42)
  {
    hide HasAt, U16At, U32At, N16, N32, EncodeCdfh, DecodeCdfh;
    var h := DecodeCdfh(s);
    CdfhRoundTrip(h, s);
    WholeHeader(s);
    CentralHeaderBytes(s, 0, h);
    ValueAt32(s, 0, h.signature);
    ValueAt16(s, 8, h.generalPurposeBitFlag);
    ValueAt16(s, 10, h.compressionMethod);
    ValueAt32(s, 20, h.compressedSize);
    ValueAt32(s, 24, h.uncompressedSize);
    ValueAt16(s, 28, h.filenameLength);
    ValueAt16(s, 30, h.extraFieldLength);
    ValueAt16(s, 32, h.fileCommentLength);
    ValueAt32(s, 42, h.localFileHeaderOffset);
  }

  lemma EndRecordRead(s: Bytes)
    requires |s| == 18
    ensures DecodeEocd(s) ==
            EOCD(N16(s, 0), N16(s, 2), N16(s, 4), N16(s, 6), N32(s, 8), N32(s, 12), N16(s, 16))
  {
    hide HasAt, U16At, U32At, N16, N32, EncodeEocd, DecodeEocd;
    var e := DecodeEocd(s);
    EocdRoundTrip(e, s);
    WholeHeader(s);
    EndRecordBytes(s, 0, e);
    ValueAt16(s, 0, e.diskNumber);
    ValueAt16(s, 2, e.startDiskNumber);
    ValueAt16(s, 4, e.numberCentralDirectoryRecord);
    ValueAt16(s, 6, e.totalCentralDirectoryRecord);
    ValueAt32(s, 8, e.sizeOfCentralDirectory);
    ValueAt32(s, 12, e.centralDirectoryOffset);
    ValueAt16(s, 16, e.commentLength);
  }

  /** What a read into a cleared buffer gives: the bytes that are there, then zeros. */
  lemma ReadFills(b: Bytes, at: nat, n: nat)
    ensures ReadOver(b, Cursor(at, true), Zeros(n)).0 == Fill(if at <= |b| then b[at..] else [], n)
  {
  }

  lemma SignatureRead(b: Bytes, o: nat)
    ensures DecodeLfh(ReadOver(b, Cursor(o, true), Zeros(30)).0).signature == SIG_LFH <==>
            o + 4 <= |b| && b[o..o + 4] == [0x50, 0x4B, 0x03, 0x04]
  {
    hide DecodeLfh, ReadOver, N32, N16;
    var s := ReadOver(b, Cursor(o, true), Zeros(30)).0;
    ReadFills(b, o, 30);
    LocalHeaderRead(s);
    FourBytesRead(s, 0, 0x50, 0x4B, 0x03, 0x04);
    FilledFour(b, o, s, 0x50, 0x4B, 0x03, 0x04);
  }

  lemma FilledFour(b: Bytes, o: nat, s: Bytes, w: byte, x: byte, y: byte, v: byte)
    requires s == Fill(if o <= |b| then b[o..] else [], 30) && v != 0
    ensures s[0..4] == [w, x, y, v] <==> o + 4 <= |b| && b[o..o + 4] == [w, x, y, v]
  {
    SameFour(s, 0, w, x, y, v);
    if o + 4 <= |b| { SameFour(b, o, w, x, y, v); }
  }

  /** Loading looks for `PK34` in front of the entry's local header and fails without it. */
  lemma LoadChecksSignature(z: Zlib, b: Bytes, e: FileData)
    ensures var o := e.zip_data.lfhOffset;
            Load(z, b, e).Loaded? <==> o + 4 <= |b| && b[o..o + 4] == [0x50, 0x4B, 0x03, 0x04]
  {
    hide DecodeLfh, ReadOver, Unpacked;
    LoadUnfolds(z, b, e);
    SignatureRead(b, e.zip_data.lfhOffset);
    UnpackedIsLoaded(z, b, e);
  }

  lemma UnpackedIsLoaded(z: Zlib, b: Bytes, e: FileData)
    ensures forall h, stored :: Unpacked(z, e, h, stored).Loaded?
  {
  }

  /** The fields of a local header that loading uses. */
  lemma LocalHeaderThere(b: Bytes, o: nat)
    requires o + 30 <= |b| && b[o..o + 4] == [0x50, 0x4B, 0x03, 0x04]
    ensures var h := DecodeLfh(b[o..o + 30]);
            && h.signature == SIG_LFH && h.filenameLength == N16(b, o + 26) && h.extraFieldLength == N16(b, o + 28)
            && h.compressedSize == N32(b, o + 18) && h.uncompressedSize == N32(b, o + 22)
            && h.modificationTime == N16(b, o + 10) && h.modificationDate == N16(b, o + 12)
  {
    hide DecodeLfh, N16, N32;
    var s := b[o..o + 30];
    LocalHeaderRead(s);
    FourBytesRead(s, 0, 0x50, 0x4B, 0x03, 0x04);
    assert s[0..4] == b[o..o + 4];
    SliceNumbers(b, o, s);
  }

  /** Loading from any archive with that signature: the data start behind a name and an extra
      field of the lengths in the local header, and are as long as it says, with zeros for what
      is not there. */
  lemma LoadReads(z: Zlib, b: Bytes, e: FileData)
    requires e.zip_data.lfhOffset + 30 <= |b|
    requires b[e.zip_data.lfhOffset..e.zip_data.lfhOffset + 4] == [0x50, 0x4B, 0x03, 0x04]
    ensures var o := e.zip_data.lfhOffset;
            var at, size := o + 30 + N16(b, o + 26) + N16(b, o + 28), N32(b, o + 22);
            var stored := Fill(if at <= |b| then b[at..] else [], N32(b, o + 18));
            Load(z, b, e) ==
            Loaded(e.fname, if e.zip_data.compressed then Fill(z.inflate(stored, size), size) else stored,
                   UnpackFields(N16(b, o + 10) as bv16, N16(b, o + 12) as bv16))
  {
    hide DecodeLfh, ReadOver, N16, N32, UnpackFields, Load, Fill, Zeros, Unpacked;
    var o := e.zip_data.lfhOffset;
    var at, c := o + 30 + N16(b, o + 26) + N16(b, o + 28), N32(b, o + 18);
    var h := DecodeLfh(b[o..o + 30]);
    LocalHeaderThere(b, o);
    ReadAt(b, o, Zeros(30));
    var stored := Fill(if at <= |b| then b[at..] else [], c);
    ReadFills(b, at, c);
    LoadStep(z, b, e, h, b[o..o + 30], o + 30, stored);
    UnpackedIs(z, e, h, stored);
  }

  lemma UnpackedIs(z: Zlib, e: FileData, h: LocalFileHeader, stored: Bytes)
    ensures var size := h.uncompressedSize;
            Unpacked(z, e, h, stored) ==
            Loaded(e.fname, if e.zip_data.compressed then Fill(z.inflate(stored, size), size) else stored,
                   UnpackFields(h.modificationTime as bv16, h.modificationDate as bv16))
  {
    hide Fill, UnpackFields;
  }

  lemma SliceNumbers(b: Bytes, o: nat, s: Bytes)
    requires o + |s| <= |b| && s == b[o..o + |s|]
    ensures forall k: nat :: k + 2 <= |s| ==> N16(s, k) == N16(b, o + k)
    ensures forall k: nat :: k + 4 <= |s| ==> N32(s, k) == N32(b, o + k)
  {
    assert forall k :: 0 <= k < |s| ==> s[k] == b[o + k];
  }

  lemma FlagBits(b: Bytes, o: nat)
    requires o + 2 <= |b|
    ensures N16(b, o) % 2 == b[o] % 2 && N16(b, o) / 8 % 2 == b[o] / 8 % 2
  {
    var x, y := b[o] as int, b[o + 1] as int;
    assert (x + 256 * y) / 8 == x / 8 + 32 * y;
  }

  /** One round of indexing on any file and any stream, good or not: what it makes of the header
      buffer `raw` and of the name. The next record is behind name, extra field and comment. */
  lemma IndexDecides(b: Bytes, path: Bytes, c: Cursor, buf: Bytes, raw: Bytes, c1: Cursor)
    requires |buf| == 46 && ReadOver(b, c, buf) == (raw, c1)
    ensures var (name, c2) := ReadOver(b, c1, Zeros(N16(raw, 28)));
            var (r, deflated) := (IndexRound(b, path, c, buf), N16(raw, 10) == 8);
            if raw[0..4] != [0x50, 0x4B, 0x01, 0x02] || raw[8] % 2 == 1 || raw[8] / 8 % 2 == 1 then r == Stop
            else if N16(raw, 10) != 0 && !deflated then r == Next([], c2, raw)
            else
              var e := FileData(true, ZFileData(deflated, N32(raw, 20), N32(raw, 24), N32(raw, 42), CString(name)),
                                path);
              r == Next(if N32(raw, 24) != 0 || deflated then [e] else [],
                        if c2.good then Cursor(c2.pos + N16(raw, 30) + N16(raw, 32), true) else c2, raw)
  {
    hide DecodeCdfh, ReadOver, N16, N32, CString;
    CentralHeaderRead(raw);
    FourBytesRead(raw, 0, 0x50, 0x4B, 0x01, 0x02);
    FlagBits(raw, 8);
  }

  /** The same for a record that is there, name and all. */
  lemma IndexReads(b: Bytes, path: Bytes, p: nat, buf: Bytes)
    requires |buf| == 46 && p + 46 <= |b| && p + 46 + N16(b, p + 28) <= |b|
    ensures var n, x, m := N16(b, p + 28), N16(b, p + 30), N16(b, p + 32);
            var r, deflated := IndexRound(b, path, Cursor(p, true), buf), N16(b, p + 10) == 8;
            if b[p..p + 4] != [0x50, 0x4B, 0x01, 0x02] || b[p + 8] % 2 == 1 || b[p + 8] / 8 % 2 == 1 then r == Stop
            else if N16(b, p + 10) != 0 && !deflated then r == Next([], Cursor(p + 46 + n, true), b[p..p + 46])
            else
              var e := FileData(true, ZFileData(deflated, N32(b, p + 20), N32(b, p + 24), N32(b, p + 42),
                                                CString(b[p + 46..p + 46 + n])), path);
              r == Next(if N32(b, p + 24) != 0 || deflated then [e] else [],
                        Cursor(p + 46 + n + x + m, true), b[p..p + 46])
  {
    hide IndexRound, ReadOver, N16, N32, CString;
    var s, n := b[p..p + 46], N16(b, p + 28);
    ReadAt(b, p, buf);
    SliceNumbers(b, p, s);
    assert s[0..4] == b[p..p + 4] && s[8] == b[p + 8];
    ReadAt(b, p + 46, Zeros(n));
    IndexDecides(b, path, Cursor(p, true), buf, s, Cursor(p + 46, true));
  }

  lemma FailedRead(b: Bytes, c: Cursor, into: Bytes)
    requires !c.good
    ensures ReadOver(b, c, into) == (into, c)
  {
  }

  lemma NoName(n: nat)
    ensures CString(Zeros(n)) == []
  {
  }

  /** The header buffer is not cleared between records: once the stream has failed, every record
      still counted gives the last entry again, without a name. */
  lemma {:induction false} IndexRepeats(b: Bytes, path: Bytes, c: Cursor, buf: Bytes, n: nat)
    requires !c.good && |buf| == 46 && buf[0..4] == [0x50, 0x4B, 0x01, 0x02]
    requires buf[8] % 2 == 0 && buf[8] / 8 % 2 == 0
    requires N16(buf, 10) == 8 || (N16(buf, 10) == 0 && N32(buf, 24) != 0)
    ensures var e := FileData(true, ZFileData(N16(buf, 10) == 8, N32(buf, 20), N32(buf, 24), N32(buf, 42), []), path);
            IndexEntries(b, path, c, buf, n) == seq(n, _ => e)
    decreases n
  {
    hide IndexRound, ReadOver, N16, N32, CString;
    if n == 0 {
      assert IndexEntries(b, path, c, buf, 0) == [];
    } else {
      FailedRead(b, c, buf);
      FailedRead(b, c, Zeros(N16(buf, 28)));
      NoName(N16(buf, 28));
      IndexDecides(b, path, c, buf, buf, c);
      IndexRepeats(b, path, c, buf, n - 1);
    }
  }

  /** Indexing starts at the directory offset and goes on for the first of the two counts. */
  lemma IndexStarts(b: Bytes, path: Bytes)
    ensures var p := FindEndRecord(b);
            && (p == 0 ==> Index(b, path) == [])
            && (p != 0 && p + 18 <= |b| ==>
                  Index(b, path) == IndexEntries(b, path, Cursor(N32(b, p + 12), true), Zeros(46), N16(b, p + 4)))
  {
    hide DecodeEocd, IndexEntries, ReadOver, FindEndRecord, N16, N32, Index;
    var p := FindEndRecord(b);
    IndexUnfolds(b, path);
    if p != 0 && p + 18 <= |b| {
      ReadAt(b, p, Zeros(18));
      EndRecordThere(b, p);
    }
  }

  lemma EndRecordThere(b: Bytes, p: nat)
    requires p + 18 <= |b|
    ensures DecodeEocd(b[p..p + 18]) == EOCD(N16(b, p), N16(b, p + 2), N16(b, p + 4), N16(b, p + 6), N32(b, p + 8),
                                             N32(b, p + 12), N16(b, p + 16))
  {
    hide DecodeEocd, N16, N32;
    EndRecordRead(b[p..p + 18]);
    SliceNumbers(b, p, b[p..p + 18]);
  }

  /** One round of the appender's listing, on any bytes: it has to start with `PK12`, and the next
      one starts right behind the name, extra field or comment or not. */
  lemma ListReads(m: Memory, b: Bytes, p: nat, n: nat)
    requires n > 0 && p + 46 <= |b|
    ensures var (len, r) := (N16(b, p + 28), ListNames(m, b, Cursor(p, true), n));
            if b[p..p + 4] != [0x50, 0x4B, 0x01, 0x02] then r == BadSignature
            else if len == 0 then r == ListNames(m, b, Cursor(p + 46, true), n - 1)
            else if p + 46 + len <= |b| then
              r == Preceded([CString(b[p + 46..p + 46 + len])],
                            ListNames(m, b, Cursor(p + 46 + len, true), n - 1))
            else true
  {
    hide DecodeCdfh, ReadOver, N16, N32, CString, ListNames, Preceded;
    var s := b[p..p + 46];
    ListUnfolds(m, b, Cursor(p, true), n);
    ReadAt(b, p, Zeros(46));
    CentralHeaderRead(s);
    SliceNumbers(b, p, s);
    FourBytesRead(s, 0, 0x50, 0x4B, 0x01, 0x02);
    assert s[0..4] == b[p..p + 4];
    var len := N16(b, p + 28);
    if p + 46 + len <= |b| { ReadAt(b, p + 46, Uncleared(m, n, len)); }
  }

  /** A listing that goes on behind the end of the file fails. */
  lemma ListEnds(m: Memory, b: Bytes, c: Cursor, n: nat)
    requires n > 0 && !c.good
    ensures ListNames(m, b, c, n) == BadSignature
  {
    hide DecodeCdfh, ReadOver, N16, N32;
    ListUnfolds(m, b, c, n);
    FailedRead(b, c, Zeros(46));
    CentralHeaderRead(Zeros(46));
    FourBytesRead(Zeros(46), 0, 0x50, 0x4B, 0x01, 0x02);
    SameFour(Zeros(46), 0, 0x50, 0x4B, 0x01, 0x02);
  }

  /** So a listing of two records or more fails at an extra field or a comment behind the first
      name, unless that happens to start with `PK12` itself; the indexer steps over it. */
  lemma ExtraFieldStopsListing(m: Memory, b: Bytes, path: Bytes, p: nat, n: nat)
    requires n > 1 && p + 46 <= |b| && b[p..p + 4] == [0x50, 0x4B, 0x01, 0x02]
    requires var q := p + 46 + N16(b, p + 28); q + 46 <= |b| && b[q..q + 4] != [0x50, 0x4B, 0x01, 0x02]
    requires b[p + 8] % 2 == 0 && b[p + 8] / 8 % 2 == 0 && N16(b, p + 10) == 0
    ensures ListNames(m, b, Cursor(p, true), n) == BadSignature
    ensures var (q, r) := (p + 46 + N16(b, p + 28), IndexRound(b, path, Cursor(p, true), Zeros(46)));
            r.Next? && r.cursor == Cursor(q + N16(b, p + 30) + N16(b, p + 32), true)
  {
    hide ListNames, IndexRound, N16, N32, CString;
    ListReads(m, b, p, n);
    ListReads(m, b, p + 46 + N16(b, p + 28), n - 1);
    IndexReads(b, path, p, Zeros(46));
  }

  /** The search looks for `PK56`. */
  lemma SearchLooksFor(b: Bytes, o: nat)
    requires o + 4 <= |b|
    ensures SignatureAt(b, o) <==> b[o..o + 4] == [0x50, 0x4B, 0x05, 0x06]
  {
    Bijection32(SIG_EOCD, b[o..o + 4]);
    assert Put32(SIG_EOCD) == [0x50, 0x4B, 0x05, 0x06];
  }

  /** An append is refused for a file without an end record, and for one whose first central
      record does not start with `PK12`. */
  lemma AppendRefuses(z: Zlib, m: Memory, b: Bytes, f: File)
    ensures FindEndRecord(b) == 0 ==> Append(z, m, b, f) == (false, b)
    ensures var p := FindEndRecord(b);
            p != 0 && p + 18 <= |b| && N16(b, p + 4) > 0 ==>
              var at, size := N32(b, p + 12), N32(b, p + 8);
              at + size <= |b| && at + 46 <= |b| && b[at..at + 4] != [0x50, 0x4B, 0x01, 0x02] ==>
                Append(z, m, b, f) == (false, b)
  {
    var p := FindEndRecord(b);
    if p != 0 && p + 18 <= |b| && N16(b, p + 4) > 0 {
      var at, size := N32(b, p + 12), N32(b, p + 8);
      if at + size <= |b| && at + 46 <= |b| && b[at..at + 4] != [0x50, 0x4B, 0x01, 0x02] {
        BadCentralRefused(z, m, b, f, at);
      }
    }
  }

  /** With a directory that is not there an append writes nothing; it is a success if no record
      is counted. */
  lemma AppendWithoutDirectory(z: Zlib, m: Memory, b: Bytes, f: File)
    requires var p := FindEndRecord(b); p != 0 && p + 18 <= |b| && N32(b, p + 8) > 0
    requires var p := FindEndRecord(b); N32(b, p + 12) + N32(b, p + 8) > |b|
    ensures Append(z, m, b, f) == (N16(b, FindEndRecord(b) + 4) == 0, b)
  {
    hide FindEndRecord, DecodeEocd, ReadOver, ListNames, N16, N32, Appended;
    var p := FindEndRecord(b);
    ReadAt(b, p, Zeros(18));
    EndRecordThere(b, p);
    var (_, c) := ReadOver(b, Cursor(N32(b, p + 12), true), Zeros(N32(b, p + 8)));
    if N16(b, p + 4) == 0 {
      ListNothing(m, b, c);
    } else {
      ListEnds(m, b, c, N16(b, p + 4));
    }
  }

  lemma BadCentralRefused(z: Zlib, m: Memory, b: Bytes, f: File, at: nat)
    requires var p := FindEndRecord(b);
             && p != 0 && p + 18 <= |b| && N16(b, p + 4) > 0 && at == N32(b, p + 12)
             && at + N32(b, p + 8) <= |b| && at + 46 <= |b| && b[at..at + 4] != [0x50, 0x4B, 0x01, 0x02]
    ensures Append(z, m, b, f) == (false, b)
  {
    hide FindEndRecord, DecodeEocd, ReadOver, ListNames, N16, N32, Appended;
    var p := FindEndRecord(b);
    ReadAt(b, p, Zeros(18));
    EndRecordThere(b, p);
    ReadAt(b, at, Zeros(N32(b, p + 8)));
    ListReads(m, b, at, N16(b, p + 4));
  }

  /** `b` after an append: everything before the old directory stays, then come the new member,
      the old directory, its new entry and the old end record with both counts one higher and the
      new size and offset. Whatever lies behind that stays. */
  ghost predicate IsAppended(b': Bytes, b: Bytes, p: nat, z: Zlib, f: File)
    requires p + 18 <= |b| && N32(b, p + 12) + N32(b, p + 8) <= |b|
  {
    var at, size, more := N32(b, p + 12), N32(b, p + 8), 46 + |f.name| % 0x1_0000;
    var d := at + 30 + |f.name| + |PackedOf(z, f)|;
    var q := d + size + more;
    && TextAt(b', 0, b[..at]) && LocalIs(b', at, z, f) && TextAt(b', d, b[at..at + size])
    && CentralIs(b', d + size, z, f, at)
    && TextAt(b', q, [0x50, 0x4B, 0x05, 0x06]) && U16At(b', q + 4, N16(b, p)) && U16At(b', q + 6, N16(b, p + 2))
    && U16At(b', q + 8, N16(b, p + 4) + 1) && U16At(b', q + 10, N16(b, p + 6) + 1)
    && U32At(b', q + 12, size + more) && U32At(b', q + 16, d) && U16At(b', q + 20, N16(b, p + 16))
    && b'[q + 22..] == if q + 22 <= |b| then b[q + 22..] else []
  }

  lemma OverwriteParts(b: Bytes, at: nat, d: Bytes)
    requires at <= |b| && d != []
    ensures var (b', q) := (Overwrite(b, at, d), at + |d|);
            TextAt(b', 0, b[..at]) && HasAt(b', at, d) && b'[q..] == if q <= |b| then b[q..] else []
  {
    HasAtSlice(Overwrite(b, at, d), at, d);
  }

  /** The parts of the appender's tail, one behind the other. */
  lemma TailParts(b: Bytes, at: nat, z: Zlib, dir: Bytes, e: EOCD, f: File)
    requires HasAt(b, at, Tail(z, dir, e, f))
    ensures var (l, c) := (LocalPart(z, f), CentralPart(z, f, e.centralDirectoryOffset));
            && HasAt(b, at, l) && HasAt(b, at + |l|, dir) && HasAt(b, at + |l| + |dir|, c)
            && HasAt(b, at + |l| + |dir| + |c|, END_SIGNATURE)
            && HasAt(b, at + |l| + |dir| + |c| + 4, EncodeEocd(NextEndRecord(z, e, f)))
  {
    hide HasAt, LocalPart, CentralPart, EncodeEocd, NextEndRecord, Put32;
    var l, c, r := LocalPart(z, f), CentralPart(z, f, e.centralDirectoryOffset), EncodeEocd(NextEndRecord(z, e, f));
    HasAtPair(b, at, l + dir + c + END_SIGNATURE, r);
    HasAtPair(b, at, l + dir + c, END_SIGNATURE);
    HasAtPair(b, at, l + dir, c);
    HasAtPair(b, at, l, dir);
  }

  lemma NextEndRecordBytes(b: Bytes, at: nat, z: Zlib, e: EOCD, f: File)
    requires HasAt(b, at, END_SIGNATURE) && HasAt(b, at + 4, EncodeEocd(NextEndRecord(z, e, f)))
    ensures TextAt(b, at, [0x50, 0x4B, 0x05, 0x06])
    ensures U16At(b, at + 4, e.diskNumber) && U16At(b, at + 6, e.startDiskNumber)
    ensures U16At(b, at + 8, e.numberCentralDirectoryRecord + 1)
    ensures U16At(b, at + 10, e.totalCentralDirectoryRecord + 1)
    ensures U32At(b, at + 12, e.sizeOfCentralDirectory + 46 + |f.name| % 0x1_0000)
    ensures U32At(b, at + 16, e.centralDirectoryOffset + 30 + |f.name| + |PackedOf(z, f)|)
    ensures U16At(b, at + 20, e.commentLength)
  {
    hide HasAt, U16At, U32At, EncodeEocd, Put32, Stored, PackedOf, LocalPart;
    Put32Bytes(b, at, SIG_EOCD);
    EndSignature(b, at);
    EndRecordBytes(b, at + 4, NextEndRecord(z, e, f));
    PackedIsStored(z, f);
    NarrowSame(b, at + 8, e.numberCentralDirectoryRecord + 1);
    NarrowSame(b, at + 10, e.totalCentralDirectoryRecord + 1);
    NarrowSame(b, at + 12, e.sizeOfCentralDirectory + 46 + |f.name| % 0x1_0000);
    NarrowSame(b, at + 16, e.centralDirectoryOffset + 30 + |f.name| + |PackedOf(z, f)|);
  }

  lemma AppendedBytes(z: Zlib, b: Bytes, p: nat, e: EOCD, f: File)
    requires p + 18 <= |b| && N32(b, p + 12) + N32(b, p + 8) <= |b|
    requires e == EOCD(N16(b, p), N16(b, p + 2), N16(b, p + 4), N16(b, p + 6), N32(b, p + 8), N32(b, p + 12),
                       N16(b, p + 16))
    ensures IsAppended(Appended(z, b, e, f), b, p, z, f)
  {
    hide HasAt, U16At, U32At, N16, N32, LocalIs, CentralIs, EncodeEocd, NextEndRecord, Put32, LocalPart, CentralPart,
         Overwrite, Stored, PackedOf, Tail;
    var at, dir := N32(b, p + 12), Directory(b, e);
    var b' := Appended(z, b, e, f);
    var d := at + |LocalPart(z, f)|;
    PackedIsStored(z, f);
    TailLength(z, dir, e, f);
    OverwriteParts(b, at, Tail(z, dir, e, f));
    TailParts(b', at, z, dir, e, f);
    LocalPartBytes(b', at, z, f);
    DirectoryIs(b, e);
    HasAtSlice(b', d, dir);
    CentralPartBytes(b', d + |dir|, z, f, at);
    NextEndRecordBytes(b', d + |dir| + 46 + |f.name| % 0x1_0000, z, e, f);
  }

  lemma TailLength(z: Zlib, dir: Bytes, e: EOCD, f: File)
    ensures |LocalPart(z, f)| == 30 + |f.name| + |Stored(z, f)|
    ensures |CentralPart(z, f, e.centralDirectoryOffset)| == 46 + |f.name| % 0x1_0000
    ensures |Tail(z, dir, e, f)| == |LocalPart(z, f)| + |dir| + 46 + |f.name| % 0x1_0000 + 22
  {
  }

  lemma DirectoryIs(b: Bytes, e: EOCD)
    requires e.centralDirectoryOffset + e.sizeOfCentralDirectory <= |b|
    ensures Directory(b, e) == b[e.centralDirectoryOffset..e.centralDirectoryOffset + e.sizeOfCentralDirectory]
  {
  }

  /** Appending to any file whose end record, directory and names can be read, whoever wrote it. With a
      last name cut short the stream has failed: nothing is written, and it is still a success. */
  lemma AppendInBytes(z: Zlib, m: Memory, b: Bytes, f: File, ns: seq<Bytes>, c: Cursor)
    requires var p := FindEndRecord(b);
             && p != 0 && p + 18 <= |b| && N32(b, p + 12) + N32(b, p + 8) <= |b|
             && ListNames(m, b, Cursor(N32(b, p + 12), true), N16(b, p + 4)) == Names(ns, c)
    ensures if f.name in ns then Append(z, m, b, f) == (false, b)
            else if !c.good then Append(z, m, b, f) == (true, b)
            else Append(z, m, b, f).0 && IsAppended(Append(z, m, b, f).1, b, FindEndRecord(b), z, f)
  {
    hide FindEndRecord, DecodeEocd, ReadOver, ListNames, N16, N32, Appended, IsAppended;
    var p := FindEndRecord(b);
    ReadAt(b, p, Zeros(18));
    EndRecordThere(b, p);
    ReadAt(b, N32(b, p + 12), Zeros(N32(b, p + 8)));
    AppendedBytes(z, b, p, DecodeEocd(b[p..p + 18]), f);
  }

  /** A name read from a file ends in front of its first zero byte. */
  lemma {:induction false} CStringIs(s: Bytes)
    ensures var n := |CString(s)|;
            && n <= |s| && CString(s) == s[..n] && 0 !in CString(s) && (n < |s| ==> s[n] == 0)
    decreases |s|
  {
    if s != [] && s[0] != 0 {
      CStringIs(s[1..]);
      assert s == [s[0]] + s[1..];
    }
  }

  /** Byte by byte: a write of anything replaces what it covers, zero-fills a gap in front of it
      and keeps the rest. */
  lemma WriteByteByByte(b: Bytes, at: nat, d: Bytes, k: nat)
    requires d != []
    ensures var r, n := Overwrite(b, at, d), at + |d|;
            && |r| == (if n > |b| then n else |b|)
            && (k < |r| ==> r[k] == if at <= k < n then d[k - at] else if k < |b| then b[k] else 0)
  {
  }

  /** Byte by byte: a buffer of the recorded size, filled as far as inflating goes. */
  lemma FillByteByByte(s: Bytes, n: nat, k: nat)
    requires k < n
    ensures Fill(s, n)[k] == if k < |s| then s[k] else 0
  {
  }

  /** Byte by byte: a good stream fills the buffer as far as the file goes, a failed one leaves it. */
  lemma ReadByteByByte(b: Bytes, c: Cursor, into: Bytes, k: nat)
    requires k < |into|
    ensures ReadOver(b, c, into).0[k] == if c.good && c.pos + k < |b| then b[c.pos + k] else into[k]
  {
  }
}
