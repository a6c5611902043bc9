/** The three packed records of a ZIP archive (PKWARE APPNOTE.TXT, sections 4.3.7,
    4.3.12 and 4.3.16), in the field order of `src/fs/zip.h`. */
module ZipFormat {
  import opened ByteCodec

  const SIZE_EOCD := 18
  const SIZE_CDFH := 46
  const SIZE_LFH := 30
  const SIG_EOCD: u32 := 0x06054b50
  const SIG_CDFH: u32 := 0x02014b50
  const SIG_LFH: u32 := 0x04034b50
  const Z_DEFLATED: u16 := 8

  /** End of central directory record, without its signature. */
  datatype EOCD = EOCD(
    diskNumber: u16,
    startDiskNumber: u16,
    numberCentralDirectoryRecord: u16,
    totalCentralDirectoryRecord: u16,
    sizeOfCentralDirectory: u32,
    centralDirectoryOffset: u32,
    commentLength: u16)

  datatype CentralDirectoryFileHeader = CentralDirectoryFileHeader(
    signature: u32,
    versionMadeBy: u16,
    versionToExtract: u16,
    generalPurposeBitFlag: u16,
    compressionMethod: u16,
    modificationTime: u16,
    modificationDate: u16,
    crc32: u32,
    compressedSize: u32,
    uncompressedSize: u32,
    filenameLength: u16,
    extraFieldLength: u16,
    fileCommentLength: u16,
    diskNumber: u16,
    internalFileAttributes: u16,
    externalFileAttributes: u32,
    localFileHeaderOffset: u32)

  datatype LocalFileHeader = LocalFileHeader(
    signature: u32,
    versionToExtract: u16,
    generalPurposeBitFlag: u16,
    compressionMethod: u16,
    modificationTime: u16,
    modificationDate: u16,
    crc32: u32,
    compressedSize: u32,
    uncompressedSize: u32,
    filenameLength: u16,
    extraFieldLength: u16)

  // A packed struct is a list of 2- and 4-byte fields without padding.

  datatype Field = W16(v16: u16) | W32(v32: u32) {
    function Width(): nat {
      if W16? then 2 else 4
    }

    function Put(): (b: Bytes)
      ensures |b| == Width()
    {
      if W16? then Put16(v16) else Put32(v32)
    }
  }

  /** Reads a field from exactly its bytes. */
  function GetField(b: Bytes): Field
    requires |b| == 2 || |b| == 4
  {
    if |b| == 2 then W16(Get16(b)) else W32(Get32(b))
  }

  function Pack(fs: seq<Field>): Bytes {
    if fs == [] then [] else fs[0].Put() + Pack(fs[1..])
  }

  /** The field widths of a struct; `true` stands for a 4-byte field. */
  type Layout = seq<bool>

  function LayoutSize(ws: Layout): nat {
    if ws == [] then 0 else (if ws[0] then 4 else 2) + LayoutSize(ws[1..])
  }

  lemma {:induction false} LayoutSizeAppend(a: Layout, b: Layout)
    ensures LayoutSize(a + b) == LayoutSize(a) + LayoutSize(b)
  {
    if a == [] {
      assert a + b == b;
    } else {
      LayoutSizeAppend(a[1..], b);
      assert (a + b)[1..] == a[1..] + b;
    }
  }

  ghost predicate Fits(ws: Layout, fs: seq<Field>) {
    |ws| == |fs| && forall k :: 0 <= k < |ws| ==> (ws[k] <==> fs[k].W32?)
  }

  /** The fields of a struct. */
  function Unpack(ws: Layout, b: Bytes): (fs: seq<Field>)
    requires LayoutSize(ws) == |b|
    ensures Fits(ws, fs)
  {
    if ws == [] then []
    else
      var w := if ws[0] then 4 else 2;
      [GetField(b[..w])] + Unpack(ws[1..], b[w..])
  }

  lemma FieldRoundTrip(f: Field, b: Bytes)
    requires |b| == f.Width()
    ensures f.Put() == b <==> GetField(b) == f
  {
    if f.W16? {
      PutGet16(b);
      GetPut16(f.v16);
    } else {
      PutGet32(b);
      GetPut32(f.v32);
    }
  }

  /** Packing and unpacking are inverse to each other. */
  lemma {:induction false} PackUnpack(ws: Layout, fs: seq<Field>, b: Bytes)
    requires Fits(ws, fs)
    ensures |Pack(fs)| == LayoutSize(ws)
    ensures |b| == LayoutSize(ws) ==> (Pack(fs) == b <==> Unpack(ws, b) == fs)
    decreases |ws|
  {
    hide GetField, Field.Put;
    if ws != [] {
      var w := fs[0].Width();
      PackUnpack(ws[1..], fs[1..], if w <= |b| then b[w..] else []);
      if |b| == LayoutSize(ws) {
        FieldRoundTrip(fs[0], b[..w]);
        assert b == b[..w] + b[w..];
        assert Pack(fs)[..w] == fs[0].Put() && Pack(fs)[w..] == Pack(fs[1..]);
        assert fs == [fs[0]] + fs[1..];
        assert Unpack(ws, b)[0] == GetField(b[..w]) && Unpack(ws, b)[1..] == Unpack(ws[1..], b[w..]);
      }
    }
  }

  // ---- End of central directory record (APPNOTE 4.3.16)

  const EOCD_START: Layout := [false, false, false, false]
  const EOCD_REST: Layout := [true, true, false]
  const EOCD_LAYOUT: Layout := EOCD_START + EOCD_REST

  lemma EocdSize()
    ensures LayoutSize(EOCD_LAYOUT) == SIZE_EOCD
  {
    LayoutSizeAppend(EOCD_START, EOCD_REST);
  }

  function EocdFields(e: EOCD): (fs: seq<Field>)
    ensures Fits(EOCD_LAYOUT, fs)
  {
    [W16(e.diskNumber), W16(e.startDiskNumber), W16(e.numberCentralDirectoryRecord),
     W16(e.totalCentralDirectoryRecord), W32(e.sizeOfCentralDirectory),
     W32(e.centralDirectoryOffset), W16(e.commentLength)]
  }

  function EocdOf(fs: seq<Field>): EOCD
    requires Fits(EOCD_LAYOUT, fs)
  {
    EOCD(fs[0].v16, fs[1].v16, fs[2].v16, fs[3].v16, fs[4].v32, fs[5].v32, fs[6].v16)
  }

  lemma EocdFieldsOf(e: EOCD, fs: seq<Field>)
    requires Fits(EOCD_LAYOUT, fs)
    ensures EocdFields(e) == fs <==> EocdOf(fs) == e
  {
    if EocdOf(fs) == e {
      assert forall k :: 0 <= k < 7 ==> EocdFields(e)[k] == fs[k];
    }
  }

  function EncodeEocd(e: EOCD): (b: Bytes)
    ensures |b| == SIZE_EOCD
  {
    EocdSize();
    PackUnpack(EOCD_LAYOUT, EocdFields(e), []);
    Pack(EocdFields(e))
  }

  function DecodeEocd(b: Bytes): EOCD
    requires |b| == SIZE_EOCD
  {
    EocdSize();
    EocdOf(Unpack(EOCD_LAYOUT, b))
  }

  lemma EocdRoundTrip(e: EOCD, b: Bytes)
    requires |b| == SIZE_EOCD
    ensures EncodeEocd(e) == b <==> DecodeEocd(b) == e
  {
    hide Pack, Unpack, LayoutSize, Fits, EocdFields, EocdOf;
    EocdSize();
    PackUnpack(EOCD_LAYOUT, EocdFields(e), b);
    EocdFieldsOf(e, Unpack(EOCD_LAYOUT, b));
  }

  // ---- Central directory file header (APPNOTE 4.3.12)

  const CDFH_START: Layout := [true, false, false, false, false, false]
  const CDFH_MIDDLE: Layout := [false, true, true, true, false, false]
  const CDFH_REST: Layout := [false, false, false, true, true]
  const CDFH_LAYOUT: Layout := CDFH_START + CDFH_MIDDLE + CDFH_REST

  lemma CdfhSize()
    ensures LayoutSize(CDFH_LAYOUT) == SIZE_CDFH
  {
    LayoutSizeAppend(CDFH_START, CDFH_MIDDLE);
    LayoutSizeAppend(CDFH_START + CDFH_MIDDLE, CDFH_REST);
  }

  function CdfhFields(h: CentralDirectoryFileHeader): (fs: seq<Field>)
    ensures Fits(CDFH_LAYOUT, fs)
  {
    [W32(h.signature), W16(h.versionMadeBy), W16(h.versionToExtract), W16(h.generalPurposeBitFlag),
     W16(h.compressionMethod), W16(h.modificationTime), W16(h.modificationDate), W32(h.crc32),
     W32(h.compressedSize), W32(h.uncompressedSize), W16(h.filenameLength), W16(h.extraFieldLength),
     W16(h.fileCommentLength), W16(h.diskNumber), W16(h.internalFileAttributes),
     W32(h.externalFileAttributes), W32(h.localFileHeaderOffset)]
  }

  function CdfhOf(fs: seq<Field>): CentralDirectoryFileHeader
    requires Fits(CDFH_LAYOUT, fs)
  {
    CentralDirectoryFileHeader(
      fs[0].v32, fs[1].v16, fs[2].v16, fs[3].v16, fs[4].v16, fs[5].v16, fs[6].v16, fs[7].v32,
      fs[8].v32, fs[9].v32, fs[10].v16, fs[11].v16, fs[12].v16, fs[13].v16, fs[14].v16,
      fs[15].v32, fs[16].v32)
  }

  lemma CdfhFieldsOf(h: CentralDirectoryFileHeader, fs: seq<Field>)
    requires Fits(CDFH_LAYOUT, fs)
    ensures CdfhFields(h) == fs <==> CdfhOf(fs) == h
  {
    if CdfhOf(fs) == h {
      assert forall k :: 0 <= k < 17 ==> CdfhFields(h)[k] == fs[k];
    }
  }

  function EncodeCdfh(h: CentralDirectoryFileHeader): (b: Bytes)
    ensures |b| == SIZE_CDFH
  {
    CdfhSize();
    PackUnpack(CDFH_LAYOUT, CdfhFields(h), []);
    Pack(CdfhFields(h))
  }

  function DecodeCdfh(b: Bytes): CentralDirectoryFileHeader
    requires |b| == SIZE_CDFH
  {
    CdfhSize();
    CdfhOf(Unpack(CDFH_LAYOUT, b))
  }

  lemma CdfhRoundTrip(h: CentralDirectoryFileHeader, b: Bytes)
    requires |b| == SIZE_CDFH
    ensures EncodeCdfh(h) == b <==> DecodeCdfh(b) == h
  {
    hide Pack, Unpack, LayoutSize, Fits, CdfhFields, CdfhOf;
    CdfhSize();
    PackUnpack(CDFH_LAYOUT, CdfhFields(h), b);
    CdfhFieldsOf(h, Unpack(CDFH_LAYOUT, b));
  }

  // ---- Local file header (APPNOTE 4.3.7)

  const LFH_START: Layout := [true, false, false, false, false, false]
  const LFH_REST: Layout := [true, true, true, false, false]
  const LFH_LAYOUT: Layout := LFH_START + LFH_REST

  lemma LfhSize()
    ensures LayoutSize(LFH_LAYOUT) == SIZE_LFH
  {
    LayoutSizeAppend(LFH_START, LFH_REST);
  }

  function LfhFields(h: LocalFileHeader): (fs: seq<Field>)
    ensures Fits(LFH_LAYOUT, fs)
  {
    [W32(h.signature), W16(h.versionToExtract), W16(h.generalPurposeBitFlag),
     W16(h.compressionMethod), W16(h.modificationTime), W16(h.modificationDate), W32(h.crc32),
     W32(h.compressedSize), W32(h.uncompressedSize), W16(h.filenameLength),
     W16(h.extraFieldLength)]
  }

  function LfhOf(fs: seq<Field>): LocalFileHeader
    requires Fits(LFH_LAYOUT, fs)
  {
    LocalFileHeader(
      fs[0].v32, fs[1].v16, fs[2].v16, fs[3].v16, fs[4].v16, fs[5].v16, fs[6].v32, fs[7].v32,
      fs[8].v32, fs[9].v16, fs[10].v16)
  }

  lemma LfhFieldsOf(h: LocalFileHeader, fs: seq<Field>)
    requires Fits(LFH_LAYOUT, fs)
    ensures LfhFields(h) == fs <==> LfhOf(fs) == h
  {
    if LfhOf(fs) == h {
      assert forall k :: 0 <= k < 11 ==> LfhFields(h)[k] == fs[k];
    }
  }

  function EncodeLfh(h: LocalFileHeader): (b: Bytes)
    ensures |b| == SIZE_LFH
  {
    LfhSize();
    PackUnpack(LFH_LAYOUT, LfhFields(h), []);
    Pack(LfhFields(h))
  }

  function DecodeLfh(b: Bytes): LocalFileHeader
    requires |b| == SIZE_LFH
  {
    LfhSize();
    LfhOf(Unpack(LFH_LAYOUT, b))
  }

  lemma LfhRoundTrip(h: LocalFileHeader, b: Bytes)
    requires |b| == SIZE_LFH
    ensures EncodeLfh(h) == b <==> DecodeLfh(b) == h
  {
    hide Pack, Unpack, LayoutSize, Fits, LfhFields, LfhOf;
    LfhSize();
    PackUnpack(LFH_LAYOUT, LfhFields(h), b);
    LfhFieldsOf(h, Unpack(LFH_LAYOUT, b));
  }
}
