/** What the appender and the indexer do to the bytes of any file, and what that means for the
    archives the writer makes. */
module ZipAccess {
  import opened ByteCodec
  import opened ZipFormat
  import opened FileStreams
  import opened DosTime
  import opened ZipArchive

  // ---- The appender

  /** A C string ends at its first zero byte. */
  function CString(s: Bytes): Bytes {
    if s == [] || s[0] == 0 then [] else [s[0]] + CString(s[1..])
  }

  /** What freshly allocated memory holds: byte `i` of the `k`-th allocation. */
  type Memory = (nat, nat) -> byte

  function Uncleared(m: Memory, k: nat, n: nat): (r: Bytes)
    ensures |r| == n
  {
    seq(n, i requires 0 <= i < n => m(k, i))
  }

  datatype Listing = Names(names: seq<Bytes>, cursor: Cursor) | BadSignature

  /** The member names in the next `n` central records. Names are read into memory that is not
      cleared, so a name cut short ends in what `m` held. */
  function ListNames(m: Memory, b: Bytes, c: Cursor, n: nat): (r: Listing)
    ensures r.Names? && r.cursor.good ==> c.good
    decreases n
  {
    if n == 0 then Names([], c)
    else
      var (raw, c1) := ReadOver(b, c, Zeros(SIZE_CDFH));
      var h := DecodeCdfh(raw);
      if h.signature != SIG_CDFH then BadSignature
      else if h.filenameLength == 0 then ListNames(m, b, c1, n - 1)
      else
        var (name, c2) := ReadOver(b, c1, Uncleared(m, n, h.filenameLength));
        match ListNames(m, b, c2, n - 1)
        case BadSignature => BadSignature
        case Names(ns, c3) => Names([CString(name)] + ns, c3)
  }

  function Preceded(ns: seq<Bytes>, r: Listing): Listing {
    if r.Names? then Names(ns + r.names, r.cursor) else BadSignature
  }

  /** One round of the listing loop. */
  lemma ListUnfolds(m: Memory, b: Bytes, c: Cursor, n: nat)
    requires n > 0
    ensures var (raw, c1) := ReadOver(b, c, Zeros(SIZE_CDFH));
            var h := DecodeCdfh(raw);
            var (name, c2) := ReadOver(b, c1, Uncleared(m, n, h.filenameLength));
            ListNames(m, b, c, n) ==
            if h.signature != SIG_CDFH then BadSignature
            else if h.filenameLength == 0 then ListNames(m, b, c1, n - 1)
            else Preceded([CString(name)], ListNames(m, b, c2, n - 1))
  {
    hide DecodeCdfh, ReadOver, CString, Uncleared;
  }

  /** The result and the new file contents of appending `f` to the file `b`. */
  function Append(z: Zlib, m: Memory, b: Bytes, f: File): (r: (bool, Bytes))
    ensures !r.0 ==> r.1 == b
  {
    var p := FindEndRecord(b);
    if p == 0 then (false, b)
    else
      var (raw, c1) := ReadOver(b, Cursor(p, true), Zeros(SIZE_EOCD));
      var e := DecodeEocd(raw);
      var at := e.centralDirectoryOffset;
      var (dir, c2) := ReadOver(b, c1.Seek(at), Zeros(e.sizeOfCentralDirectory));
      match ListNames(m, b, c2.Seek(at), e.numberCentralDirectoryRecord)
      case BadSignature => (false, b)
      case Names(ns, c3) =>
        if f.name in ns then (false, b)
        else if !c3.good then (true, b)
        else (true, Appended(z, b, e, f))
  }

  /** The member names a listing of the first `n` members shows, from the i-th on. */
  function Listed(l: seq<File>, i: nat, n: nat): seq<Bytes>
    requires i <= n <= |l|
    decreases n - i
  {
    if i == n then []
    else if CentralName(l[i]) == [] then Listed(l, i + 1, n)
    else [CString(CentralName(l[i]))] + Listed(l, i + 1, n)
  }

  /** Where the k-th central record starts. */
  function CentralAt(z: Zlib, l: seq<File>, k: nat): nat
    requires k <= |l|
  {
    |Locals(z, l)| + |Centrals(z, l[..k])|
  }

  /** Reading a central record and then its name, wherever the buffers point. */
  lemma ReadCentral(b: Bytes, z: Zlib, l: seq<File>, k: nat, into: Bytes, name: Bytes)
    requires Holds(b, z, l) && k < |l| && |into| == SIZE_CDFH && |name| == |CentralName(l[k])|
    ensures var (raw, c) := ReadOver(b, Cursor(CentralAt(z, l, k), true), into);
            && DecodeCdfh(raw) == CentralHeader(z, l[k], Offset(z, l, k))
            && c == Cursor(CentralAt(z, l, k) + SIZE_CDFH, true)
            && ReadOver(b, c, name) == (CentralName(l[k]), Cursor(CentralAt(z, l, k + 1), true))
  {
    hide DecodeCdfh, EncodeCdfh, Locals, Centrals, CentralName, CentralHeader, ReadOver, HasAt;
    var at, h := CentralAt(z, l, k), CentralHeader(z, l[k], Offset(z, l, k));
    CentralHeaderAt(b, z, l, k);
    CentralRecordAt(b, z, l, k);
    CentralsStep(z, l, k);
    HasAtSlice(b, at + SIZE_CDFH, CentralName(l[k]));
    assert CentralAt(z, l, k + 1) == at + SIZE_CDFH + |CentralName(l[k])|;
    ReadAt(b, at, into);
    ReadAt(b, at + SIZE_CDFH, name);
  }

  lemma ReadAt(b: Bytes, at: nat, into: Bytes)
    requires at + |into| <= |b|
    ensures ReadOver(b, Cursor(at, true), into) ==
            (b[at..at + |into|], Cursor(at + |into|, true))
  {
  }

  /** One round of the listing loop on a readable record with the right signature. */
  lemma ListStep(m: Memory, b: Bytes, c: Cursor, n: nat, h: CentralDirectoryFileHeader, raw: Bytes, c1: Cursor,
                 name: Bytes, c2: Cursor, ns: seq<Bytes>, c3: Cursor)
    requires n > 0 && h.signature == SIG_CDFH
    requires ReadOver(b, c, Zeros(SIZE_CDFH)) == (raw, c1) && DecodeCdfh(raw) == h
    requires ReadOver(b, c1, Uncleared(m, n, h.filenameLength)) == (name, c2)
    requires ListNames(m, b, c2, n - 1) == Names(ns, c3)
    ensures ListNames(m, b, c, n) == Names((if name == [] then [] else [CString(name)]) + ns, c3)
  {
    hide DecodeCdfh, CString;
    if h.filenameLength == 0 {
      assert Uncleared(m, n, 0) == [];
    }
  }

  lemma CentralHeaderFacts(z: Zlib, f: File, offset: nat)
    ensures var h := CentralHeader(z, f, offset);
            h.signature == SIG_CDFH && h.filenameLength == |CentralName(f)|
  {
  }

  lemma ListRoundOfArchive(m: Memory, b: Bytes, z: Zlib, l: seq<File>, i: nat, n: nat, ns: seq<Bytes>, c3: Cursor)
    requires Holds(b, z, l) && i < |l|
    requires ListNames(m, b, Cursor(CentralAt(z, l, i + 1), true), n) == Names(ns, c3)
    ensures ListNames(m, b, Cursor(CentralAt(z, l, i), true), n + 1) ==
            Names((if CentralName(l[i]) == [] then [] else [CString(CentralName(l[i]))]) + ns, c3)
  {
    hide DecodeCdfh, CentralName, ReadOver, Holds, CentralAt, CString, ListNames, Offset, CentralHeader,
         Uncleared;
    var c, name := Cursor(CentralAt(z, l, i), true), CentralName(l[i]);
    var h := CentralHeader(z, l[i], Offset(z, l, i));
    var (raw, c1) := ReadOver(b, c, Zeros(SIZE_CDFH));
    CentralHeaderFacts(z, l[i], Offset(z, l, i));
    ReadCentral(b, z, l, i, Zeros(SIZE_CDFH), Uncleared(m, n + 1, |name|));
    ListStep(m, b, c, n + 1, h, raw, c1, name, Cursor(CentralAt(z, l, i + 1), true), ns, c3);
  }

  lemma ListNothing(m: Memory, b: Bytes, c: Cursor)
    ensures ListNames(m, b, c, 0) == Names([], c)
  {
  }

  lemma {:induction false} ListNamesOfArchive(m: Memory, b: Bytes, z: Zlib, l: seq<File>, i: nat, n: nat)
    requires Holds(b, z, l) && i <= n <= |l|
    ensures ListNames(m, b, Cursor(CentralAt(z, l, i), true), n - i) ==
            Names(Listed(l, i, n), Cursor(CentralAt(z, l, n), true))
    decreases n - i
  {
    hide CentralName, Holds, CentralAt, CString, ListNames;
    if i == n {
      ListNothing(m, b, Cursor(CentralAt(z, l, i), true));
    } else {
      ListNamesOfArchive(m, b, z, l, i + 1, n);
      ListRoundOfArchive(m, b, z, l, i, n - i - 1, Listed(l, i + 1, n), Cursor(CentralAt(z, l, n), true));
    }
  }

  /** The names that block an append: those of the first `|l| % 2^16` members, up to their
      first zero byte. */
  function TakenNames(l: seq<File>): seq<Bytes> {
    Listed(l, 0, Low16(|l|))
  }

  /** The appender on a file whose end record and central directory can be read. */
  lemma AppendWhenReadable(z: Zlib, m: Memory, b: Bytes, f: File, e: EOCD, ns: seq<Bytes>, c: Cursor)
    requires FindEndRecord(b) != 0
    requires ReadOver(b, Cursor(FindEndRecord(b), true), Zeros(SIZE_EOCD)) ==
             (EncodeEocd(e), Cursor(|b|, true))
    requires DirectoryInside(b, e)
    requires ListNames(m, b, Cursor(e.centralDirectoryOffset, true), e.numberCentralDirectoryRecord)
             == Names(ns, c)
    requires c.good
    ensures Append(z, m, b, f) == if f.name in ns then (false, b) else (true, Appended(z, b, e, f))
  {
    hide EncodeEocd, DecodeEocd, ListNames, FindEndRecord, Appended;
    EocdRoundTrip(e, EncodeEocd(e));
  }

  /** Appending to an archive the writer made. */
  lemma AppendToArchive(z: Zlib, m: Memory, l: seq<File>, f: File)
    requires l != [] && Addressable(z, l)
    ensures Append(z, m, Archive(z, l), f) ==
            if f.name in TakenNames(l) then (false, Archive(z, l)) else (true, Archive(z, l + [f]))
  {
    hide Locals, Centrals, EncodeEocd, Archive, Holds, ListNames, Listed, FindEndRecord, Appended, Append,
         ReadOver, LastSignature;
    var b, e, n := Archive(z, l), EndRecord(z, l), Low16(|l|);
    ArchiveEndRecord(z, l);
    ArchiveHolds(z, l);
    AppendEqualsBatch(z, l, f);
    ListNamesOfArchive(m, b, z, l, 0, n);
    EmptyCentrals(z, l);
    AppendWhenReadable(z, m, b, f, e, TakenNames(l), Cursor(CentralAt(z, l, n), true));
  }

  lemma EmptyCentrals(z: Zlib, l: seq<File>)
    ensures CentralAt(z, l, 0) == |Locals(z, l)|
  {
    assert l[..0] == [];
  }

  /** Appending to a written archive gives the archive written at once exactly when the name
      is not taken and the central directory's offset and size fit 32 bits. */
  lemma AppendIsBatchExactly(z: Zlib, m: Memory, l: seq<File>, f: File)
    requires l != []
    ensures Append(z, m, Archive(z, l), f).1 == Archive(z, l + [f]) <==>
            Addressable(z, l) && f.name !in TakenNames(l)
  {
    hide Locals, Centrals, EncodeEocd, Holds, ListNames, Listed, FindEndRecord, Appended, LastSignature,
         LocalPart, CentralPart;
    ArchiveEndRecord(z, l);
    EocdRoundTrip(EndRecord(z, l), EncodeEocd(EndRecord(z, l)));
    AppendEqualsBatch(z, l, f);
    ArchiveSnoc(z, l, f);
    assert |Archive(z, l)| < |Archive(z, l + [f])|;
    if Addressable(z, l) {
      AppendToArchive(z, m, l, f);
    }
  }

  // ---- Any run of appends

  /** A run of appends, each with memory of its own to read names into. */
  function AppendAll(z: Zlib, ms: nat -> Memory, b: Bytes, fs: seq<File>): Bytes
    decreases |fs|
  {
    if fs == [] then b else AppendAll(z, ms, Append(z, ms(|fs|), b, fs[0]).1, fs[1..])
  }

  /** A run of appends of files with fresh names is one batch write. */
  lemma {:induction false} AppendRunIsBatch(z: Zlib, ms: nat -> Memory, l: seq<File>, fs: seq<File>)
    requires l != []
    requires forall k :: 0 <= k < |fs| ==> Addressable(z, l + fs[..k])
    requires forall k :: 0 <= k < |fs| ==> fs[k].name !in TakenNames(l + fs[..k])
    ensures AppendAll(z, ms, Archive(z, l), fs) == Archive(z, l + fs)
    decreases |fs|
  {
    hide Locals, Centrals, EncodeEocd, Archive, Append, Addressable, TakenNames;
    if fs == [] {
      assert l + fs == l;
    } else {
      assert l + fs[..0] == l;
      AppendToArchive(z, ms(|fs|), l, fs[0]);
      var l' := l + [fs[0]];
      forall k | 0 <= k < |fs[1..]|
        ensures Addressable(z, l' + fs[1..][..k]) && fs[1..][k].name !in TakenNames(l' + fs[1..][..k])
      {
        assert l' + fs[1..][..k] == l + fs[..k + 1];
      }
      AppendRunIsBatch(z, ms, l', fs[1..]);
      assert l' + fs[1..] == l + fs;
    }
  }

  // ---- Plain names: nonempty, free of zero bytes and shorter than 2^16

  predicate PlainName(n: Bytes) {
    0 < |n| < 0x1_0000 && 0 !in n
  }

  ghost predicate PlainNames(l: seq<File>) {
    |l| < 0x1_0000 && forall k :: 0 <= k < |l| ==> PlainName(l[k].name)
  }

  lemma {:induction false} PlainCString(s: Bytes)
    requires 0 !in s
    ensures CString(s) == s
  {
    if s != [] {
      PlainCString(s[1..]);
      assert s == [s[0]] + s[1..];
    }
  }

  /** The member shows up in a listing under `name`. */
  predicate ShowsAs(f: File, name: Bytes) {
    CentralName(f) != [] && CString(CentralName(f)) == name
  }

  lemma ListedFirst(l: seq<File>, i: nat, n: nat, name: Bytes)
    requires i < n <= |l|
    ensures name in Listed(l, i, n) <==> ShowsAs(l[i], name) || name in Listed(l, i + 1, n)
  {
    hide CentralName, CString;
  }

  lemma {:induction false} ListedAre(l: seq<File>, i: nat, n: nat, name: Bytes)
    requires i <= n <= |l|
    ensures name in Listed(l, i, n) <==> exists k :: i <= k < n && ShowsAs(l[k], name)
    decreases n - i
  {
    if i < n {
      hide ShowsAs, Listed;
      ListedAre(l, i + 1, n, name);
      ListedFirst(l, i, n, name);
    }
  }

  /** Which names are taken, whatever the names and however many members there are. */
  lemma TakenAre(l: seq<File>, name: Bytes)
    ensures name in TakenNames(l) <==> exists k :: 0 <= k < Low16(|l|) && ShowsAs(l[k], name)
  {
    ListedAre(l, 0, Low16(|l|), name);
  }

  lemma PlainShows(f: File, name: Bytes)
    requires PlainName(f.name)
    ensures ShowsAs(f, name) <==> f.name == name
  {
    assert CentralName(f) == f.name;
    PlainCString(f.name);
  }

  /** With plain names an append is refused exactly when the archive has a member of that name. */
  lemma TakenIsMember(l: seq<File>, name: Bytes)
    requires PlainNames(l)
    ensures name in TakenNames(l) <==> exists k :: 0 <= k < |l| && l[k].name == name
  {
    hide PlainName, ShowsAs, TakenNames;
    TakenAre(l, name);
    forall k | 0 <= k < |l|
      ensures ShowsAs(l[k], name) <==> l[k].name == name
    {
      PlainShows(l[k], name);
    }
  }

  lemma {:induction false} SizeBoundPrefix(l: seq<File>, m: seq<File>)
    ensures SizeBound(l) <= SizeBound(l + m)
    decreases |m|
  {
    if m == [] {
      assert l + m == l;
    } else {
      SizeBoundPrefix(l, m[..|m| - 1]);
      assert (l + m)[..|l + m| - 1] == l + m[..|m| - 1];
    }
  }

  /** Building an archive one file at a time, with distinct plain names and within the size
      bound, gives the same bytes as writing it at once. */
  lemma IncrementalIsBatch(z: Zlib, ms: nat -> Memory, l: seq<File>, fs: seq<File>)
    requires l != [] && PlainNames(l + fs) && SizeBound(l + fs) < 0x1_0000_0000
    requires forall i, j :: 0 <= i < j < |l + fs| ==> (l + fs)[i].name != (l + fs)[j].name
    ensures AppendAll(z, ms, Archive(z, l), fs) == Archive(z, l + fs)
  {
    hide Locals, Centrals, Archive, AppendAll, Addressable, TakenNames, SizeBound;
    forall k | 0 <= k < |fs|
      ensures Addressable(z, l + fs[..k]) && fs[k].name !in TakenNames(l + fs[..k])
    {
      var m := l + fs[..k];
      assert m + fs[k..] == l + fs;
      SizeBoundPrefix(m, fs[k..]);
      ArchiveWithinBound(z, m);
      assert forall i :: 0 <= i < |m| ==> m[i] == (l + fs)[i];
      assert PlainNames(m);
      assert fs[k] == (l + fs)[|m|];
      TakenIsMember(m, fs[k].name);
    }
    AppendRunIsBatch(z, ms, l, fs);
  }

  // ---- Archives on which an append is not what one would expect

  const NEW_YEAR := Tm(12, 0, 0, 120, 0, 1)

  /** A member with a name of 2^32 bytes puts the central directory out of reach, so appending
      anything gives something else than writing at once. */
  lemma LongNameIsUnaddressable(z: Zlib, m: Memory, f: File)
    ensures var l := [File(Zeros(0x1_0000_0000), [], NEW_YEAR)];
            !Addressable(z, l) && Append(z, m, Archive(z, l), f).1 != Archive(z, l + [f])
  {
    hide Append, Archive, LocalPart, CentralPart;
    var g := File(Zeros(0x1_0000_0000), [], NEW_YEAR);
    ArchiveSnoc(z, [], g);
    assert [] + [g] == [g];
    assert |LocalPart(z, g)| >= |g.name|;
    AppendIsBatchExactly(z, m, [g], f);
  }

  /** A name with a zero byte in it does not block a second member of the same name. */
  lemma ZeroByteIsAddedTwice(z: Zlib, m: Memory)
    ensures var f := File([0x61, 0, 0x62], [], NEW_YEAR);
            Append(z, m, Archive(z, [f]), f) == (true, Archive(z, [f, f]))
  {
    hide Append, Archive, Addressable, TakenNames;
    var f := File([0x61, 0, 0x62], [], NEW_YEAR);
    assert [f][..0] == [];
    ArchiveWithinBound(z, [f]);
    TakenAre([f], f.name);
    assert CString(CentralName(f)) != f.name by { assert |CString(f.name)| <= 1; }
    AppendToArchive(z, m, [f], f);
    assert [f] + [f] == [f, f];
  }

  lemma {:induction false} SameSizeBound(f: File, n: nat)
    ensures SizeBound(seq(n, _ => f)) == 22 + n * (|f.data| + 76 + 2 * |f.name|)
  {
    if n > 0 {
      SameSizeBound(f, n - 1);
      assert seq(n, _ => f)[..n - 1] == seq(n - 1, _ => f);
    }
  }

  // ---- The indexer

  datatype ZFileData = ZFileData(
    compressed: bool,
    compressedSize: u32,
    uncompressedSize: u32,
    lfhOffset: u32,
    fname: Bytes)

  /** An index entry: a loose file, or a member of the archive whose path is `fname`. */
  datatype FileData = FileData(is_zip: bool, zip_data: ZFileData, fname: Bytes)

  predicate Encrypted(h: CentralDirectoryFileHeader) {
    h.generalPurposeBitFlag % 2 == 1
  }

  predicate HasDataDescriptor(h: CentralDirectoryFileHeader) {
    h.generalPurposeBitFlag / 8 % 2 == 1
  }

  function EntryFor(h: CentralDirectoryFileHeader, name: Bytes, path: Bytes): FileData {
    FileData(
      true,
      ZFileData(h.compressionMethod == Z_DEFLATED, h.compressedSize, h.uncompressedSize,
                h.localFileHeaderOffset, name),
      path)
  }

  /** One central record: the entry it gives, if any, where the stream stands behind it and
      the header buffer, which is not cleared between records. */
  datatype Round = Stop | Next(entries: seq<FileData>, cursor: Cursor, buf: Bytes)

  function IndexRound(b: Bytes, path: Bytes, c: Cursor, buf: Bytes): (r: Round)
    requires |buf| == SIZE_CDFH
    ensures r.Next? ==> |r.buf| == SIZE_CDFH
    ensures r.Next? ==> forall e :: e in r.entries ==> e.is_zip && e.fname == path
  {
    var (raw, c1) := ReadOver(b, c, buf);
    var h := DecodeCdfh(raw);
    if h.signature != SIG_CDFH || Encrypted(h) || HasDataDescriptor(h) then Stop
    else
      var (name, c2) := ReadOver(b, c1, Zeros(h.filenameLength));
      if h.compressionMethod != 0 && h.compressionMethod != Z_DEFLATED then Next([], c2, raw)
      else
        var e := EntryFor(h, CString(name), path);
        var c3 := c2.Seek(c2.pos + h.extraFieldLength);
        Next(if e.zip_data.uncompressedSize != 0 || e.zip_data.compressed then [e] else [],
             c3.Seek(c3.pos + h.fileCommentLength), raw)
  }

  /** The entries for the next `n` central records of the file `b`. */
  function IndexEntries(b: Bytes, path: Bytes, c: Cursor, buf: Bytes, n: nat): seq<FileData>
    requires |buf| == SIZE_CDFH
    decreases n
  {
    if n == 0 then []
    else
      match IndexRound(b, path, c, buf)
      case Stop => []
      case Next(es, c', raw) => es + IndexEntries(b, path, c', raw, n - 1)
  }

  /** What indexing the archive file `b` adds to the index. */
  function Index(b: Bytes, path: Bytes): seq<FileData> {
    var p := FindEndRecord(b);
    if p == 0 then []
    else
      var (raw, c) := ReadOver(b, Cursor(p, true), Zeros(SIZE_EOCD));
      var e := DecodeEocd(raw);
      IndexEntries(b, path, c.Seek(e.centralDirectoryOffset), Zeros(SIZE_CDFH),
                   e.numberCentralDirectoryRecord)
  }

  lemma IndexUnfolds(b: Bytes, path: Bytes)
    ensures FindEndRecord(b) == 0 ==> Index(b, path) == []
    ensures FindEndRecord(b) != 0 ==>
      var (raw, c) := ReadOver(b, Cursor(FindEndRecord(b), true), Zeros(SIZE_EOCD));
      var e := DecodeEocd(raw);
      Index(b, path) == IndexEntries(b, path, c.Seek(e.centralDirectoryOffset), Zeros(SIZE_CDFH),
                                     e.numberCentralDirectoryRecord)
  {
    hide DecodeEocd, IndexEntries, ReadOver, FindEndRecord;
  }

  /** The index entry of the k-th member: its method, sizes and local header offset. */
  function MemberEntry(z: Zlib, path: Bytes, l: seq<File>, k: nat): FileData
    requires k < |l|
  {
    FileData(
      true,
      ZFileData(Deflates(z, l[k]), |Stored(z, l[k])|, |Raw(l[k])|, Low32(Offset(z, l, k)),
                CString(CentralName(l[k]))),
      path)
  }

  /** The entries of the nonempty members among the i-th to the n-th, in order. */
  function MemberEntries(z: Zlib, path: Bytes, l: seq<File>, i: nat, n: nat): seq<FileData>
    requires i <= n <= |l|
    decreases n - i
  {
    if i == n then []
    else (if Raw(l[i]) == [] then [] else [MemberEntry(z, path, l, i)]) +
         MemberEntries(z, path, l, i + 1, n)
  }

  /** One round of the indexing loop on a readable record of the writer's kind. */
  lemma IndexStep(b: Bytes, path: Bytes, c: Cursor, buf: Bytes, h: CentralDirectoryFileHeader,
                  raw: Bytes, c1: Cursor, name: Bytes, c2: Cursor)
    requires |buf| == SIZE_CDFH
    requires ReadOver(b, c, buf) == (raw, c1) && DecodeCdfh(raw) == h
    requires ReadOver(b, c1, Zeros(h.filenameLength)) == (name, c2) && c2.good
    requires h.signature == SIG_CDFH && h.generalPurposeBitFlag == 0
    requires h.compressionMethod == 0 || h.compressionMethod == Z_DEFLATED
    requires h.extraFieldLength == 0 && h.fileCommentLength == 0
    ensures var e := EntryFor(h, CString(name), path);
            IndexRound(b, path, c, buf) ==
            Next(if h.uncompressedSize != 0 || h.compressionMethod == Z_DEFLATED then [e] else [], c2, raw)
  {
    hide DecodeCdfh, ReadOver, CString, Zeros;
  }

  lemma IndexRoundOfArchive(b: Bytes, z: Zlib, l: seq<File>, path: Bytes, buf: Bytes, i: nat)
    requires Holds(b, z, l) && i < |l| && |buf| == SIZE_CDFH
    ensures var r := IndexRound(b, path, Cursor(CentralAt(z, l, i), true), buf);
            && r.Next? && r.cursor == Cursor(CentralAt(z, l, i + 1), true)
            && r.entries == if Raw(l[i]) == [] then [] else [MemberEntry(z, path, l, i)]
  {
    hide DecodeCdfh, Locals, Centrals, CentralName, ReadOver, Holds, CentralAt, CString, Offset, IndexRound,
         TimeField, DateField, HasAt, Low32, Low16;
    var c, name := Cursor(CentralAt(z, l, i), true), CentralName(l[i]);
    var (raw, c1) := ReadOver(b, c, buf);
    var h := CentralHeader(z, l[i], Offset(z, l, i));
    ReadCentral(b, z, l, i, buf, Zeros(|name|));
    IndexStep(b, path, c, buf, h, raw, c1, name, Cursor(CentralAt(z, l, i + 1), true));
    assert EntryFor(h, CString(name), path) == MemberEntry(z, path, l, i);
  }

  lemma {:induction false} IndexEntriesOfArchive(
    b: Bytes, z: Zlib, l: seq<File>, path: Bytes, buf: Bytes, i: nat, n: nat)
    requires Holds(b, z, l) && i <= n <= |l| && |buf| == SIZE_CDFH
    ensures IndexEntries(b, path, Cursor(CentralAt(z, l, i), true), buf, n - i) ==
            MemberEntries(z, path, l, i, n)
    decreases n - i
  {
    hide Holds, CentralAt, IndexRound, MemberEntry, Raw;
    if i < n {
      IndexRoundOfArchive(b, z, l, path, buf, i);
      var r := IndexRound(b, path, Cursor(CentralAt(z, l, i), true), buf);
      IndexEntriesOfArchive(b, z, l, path, r.buf, i + 1, n);
    }
  }

  /** Indexing a written archive lists exactly its nonempty members, in order; of more than
      2^16 - 1 members it sees the first `|l| % 2^16`. */
  lemma IndexOfArchive(z: Zlib, l: seq<File>, path: Bytes)
    requires l != [] && Addressable(z, l)
    ensures Index(Archive(z, l), path) == MemberEntries(z, path, l, 0, Low16(|l|))
  {
    var b, e, n := Archive(z, l), EndRecord(z, l), Low16(|l|);
    hide Locals, Centrals, EncodeEocd, DecodeEocd, Archive, Holds, IndexEntries, MemberEntries, FindEndRecord,
         LastSignature;
    ArchiveEndRecord(z, l);
    ArchiveHolds(z, l);
    EocdRoundTrip(e, EncodeEocd(e));
    IndexEntriesOfArchive(b, z, l, path, Zeros(SIZE_CDFH), 0, n);
    EmptyCentrals(z, l);
  }

  lemma {:induction false} EntriesSplit(z: Zlib, path: Bytes, l: seq<File>, i: nat, n: nat, m: nat)
    requires i <= n <= m <= |l|
    ensures MemberEntries(z, path, l, i, m) == MemberEntries(z, path, l, i, n) + MemberEntries(z, path, l, n, m)
    decreases n - i
  {
    hide Raw, MemberEntry;
    if i < n {
      EntriesSplit(z, path, l, i + 1, n, m);
    }
  }

  lemma {:induction false} NoEntries(z: Zlib, path: Bytes, l: seq<File>, i: nat, n: nat)
    requires i <= n <= |l|
    ensures MemberEntries(z, path, l, i, n) == [] <==> forall k :: i <= k < n ==> Raw(l[k]) == []
    decreases n - i
  {
    hide Raw, MemberEntry;
    if i < n {
      NoEntries(z, path, l, i + 1, n);
    }
  }

  /** The index lists all nonempty members exactly when those the 16-bit count leaves out are
      empty, which is so below 2^16 members. */
  lemma IndexIsComplete(z: Zlib, l: seq<File>, path: Bytes)
    requires l != [] && Addressable(z, l)
    ensures Index(Archive(z, l), path) == MemberEntries(z, path, l, 0, |l|) <==>
            forall k :: Low16(|l|) <= k < |l| ==> Raw(l[k]) == []
  {
    hide Archive, Index, Addressable, MemberEntries, Raw;
    var n := Low16(|l|);
    IndexOfArchive(z, l, path);
    EntriesSplit(z, path, l, 0, n, |l|);
    NoEntries(z, path, l, n, |l|);
    PrefixOnly(MemberEntries(z, path, l, 0, n), MemberEntries(z, path, l, n, |l|));
  }

  lemma PrefixOnly<T>(a: seq<T>, b: seq<T>)
    ensures a == a + b <==> b == []
  {
    assert |a + b| == |a| + |b|;
  }

  /** An archive of 2^16 small files is written in full and indexed as empty. */
  lemma FullArchiveListsNothing(z: Zlib, path: Bytes)
    ensures var l := seq(0x1_0000, _ => File([0x61], [0x62], NEW_YEAR));
            Addressable(z, l) && Raw(l[0]) != [] && Index(Archive(z, l), path) == []
  {
    hide Archive, Index, Addressable;
    var l := seq(0x1_0000, _ => File([0x61], [0x62], NEW_YEAR));
    SameSizeBound(File([0x61], [0x62], NEW_YEAR), 0x1_0000);
    ArchiveWithinBound(z, l);
    IndexOfArchive(z, l, path);
  }

  // ---- The loader

  /** What a loader hands out; `stamp` holds the fields decoded from an archive member. */
  datatype Loaded = Loaded(name: Bytes, data: Bytes, stamp: Fields) | LoadFailed

  /** The first `n` bytes of `s`, zero-filled. */
  function Fill(s: Bytes, n: nat): (r: Bytes)
    ensures |r| == n
    ensures |s| == n ==> r == s
  {
    if |s| >= n then s[..n] else s + Zeros(n - |s|)
  }

  /** What is made of a local header and the stored data behind it. */
  function Unpacked(z: Zlib, e: FileData, h: LocalFileHeader, stored: Bytes): Loaded {
    Loaded(
      e.fname,
      if e.zip_data.compressed then Fill(z.inflate(stored, h.uncompressedSize), h.uncompressedSize)
      else stored,
      UnpackFields(h.modificationTime as bv16, h.modificationDate as bv16))
  }

  /** Loading the member an index entry describes from the bytes of its archive. */
  function Load(z: Zlib, b: Bytes, e: FileData): Loaded {
    var (raw, c1) := ReadOver(b, Cursor(e.zip_data.lfhOffset, true), Zeros(SIZE_LFH));
    var h := DecodeLfh(raw);
    if h.signature != SIG_LFH then LoadFailed
    else
      var c2 := c1.Seek(c1.pos + h.filenameLength);
      var (stored, _) := ReadOver(b, c2.Seek(c2.pos + h.extraFieldLength), Zeros(h.compressedSize));
      Unpacked(z, e, h, stored)
  }

  lemma InflatesBack(z: Zlib, f: File)
    requires z.Correct()
    ensures if Deflates(z, f) then z.inflate(Stored(z, f), |Raw(f)|) == Raw(f) else Stored(z, f) == Raw(f)
  {
  }

  lemma LoadUnfolds(z: Zlib, b: Bytes, e: FileData)
    ensures var (raw, c1) := ReadOver(b, Cursor(e.zip_data.lfhOffset, true), Zeros(SIZE_LFH));
            var h := DecodeLfh(raw);
            var c2 := c1.Seek(c1.pos + h.filenameLength);
            Load(z, b, e) ==
            if h.signature != SIG_LFH then LoadFailed
            else Unpacked(z, e, h, ReadOver(b, c2.Seek(c2.pos + h.extraFieldLength), Zeros(h.compressedSize)).0)
  {
    hide DecodeLfh, ReadOver, Zeros, Unpacked;
  }

  /** Loading from an archive whose local header and stored data can be read. */
  lemma LoadStep(z: Zlib, b: Bytes, e: FileData, h: LocalFileHeader, raw: Bytes, at: nat, stored: Bytes)
    requires ReadOver(b, Cursor(e.zip_data.lfhOffset, true), Zeros(SIZE_LFH)) == (raw, Cursor(at, true))
    requires DecodeLfh(raw) == h && h.signature == SIG_LFH
    requires ReadOver(b, Cursor(at + h.filenameLength + h.extraFieldLength, true), Zeros(h.compressedSize)).0 ==
             stored
    ensures Load(z, b, e) == Unpacked(z, e, h, stored)
  {
    hide DecodeLfh, ReadOver, Zeros, Unpacked;
  }

  lemma LocalHeaderFacts(z: Zlib, f: File)
    requires |f.name| < 0x1_0000
    ensures var h := LocalHeader(z, f);
            && h.signature == SIG_LFH && h.extraFieldLength == 0 && h.filenameLength == |f.name|
            && h.compressedSize == |Stored(z, f)| && h.uncompressedSize == |Raw(f)|
            && h.modificationTime == TimeField(f.time) && h.modificationDate == DateField(f.time)
  {
    hide Raw, Stored, TimeField, DateField;
  }

  lemma MemberEntryFacts(z: Zlib, path: Bytes, l: seq<File>, k: nat)
    requires k < |l| && Offset(z, l, k) < 0x1_0000_0000
    ensures var e := MemberEntry(z, path, l, k);
            && e.fname == path && e.zip_data.lfhOffset == Offset(z, l, k)
            && e.zip_data.compressed == Deflates(z, l[k])
  {
    hide Raw, Stored, Offset, CString, CentralName, Deflates;
  }

  /** Loading a member of a written archive gives back its bytes, as many of them as the 32-bit
      size lets through, and the time fields of its time stamp. */
  lemma LoadOfArchive(z: Zlib, b: Bytes, path: Bytes, l: seq<File>, k: nat)
    requires z.Correct() && k < |l| && Holds(b, z, l) && Addressable(z, l) && |l[k].name| < 0x1_0000
    ensures Load(z, b, MemberEntry(z, path, l, k)) ==
            Loaded(path, Raw(l[k]),
                   UnpackFields(TimeField(l[k].time) as bv16, DateField(l[k].time) as bv16))
  {
    hide Locals, Centrals, DecodeLfh, EncodeLfh, ReadOver, HasAt, TimeField, DateField, UnpackFields, Raw, Load,
         Holds, Zeros, CString, CentralName, Stored, Deflates, MemberEntry, LocalHeader;
    var f, o, h := l[k], Offset(z, l, k), LocalHeader(z, l[k]);
    LocalRecordAt(b, z, l, k);
    LocalHeaderAt(b, z, l, k);
    HasAtSlice(b, o + SIZE_LFH + |f.name|, Stored(z, f));
    ReadAt(b, o, Zeros(SIZE_LFH));
    ReadAt(b, o + SIZE_LFH + |f.name|, Zeros(|Stored(z, f)|));
    LocalHeaderFacts(z, f);
    MemberEntryFacts(z, path, l, k);
    LoadStep(z, b, MemberEntry(z, path, l, k), h, b[o..o + SIZE_LFH], o + SIZE_LFH, Stored(z, f));
    InflatesBack(z, f);
  }

  /** What was put in comes back exactly when its size fits 32 bits. */
  lemma LoadIsExact(z: Zlib, b: Bytes, path: Bytes, l: seq<File>, k: nat)
    requires z.Correct() && k < |l| && Holds(b, z, l) && Addressable(z, l) && |l[k].name| < 0x1_0000
    ensures Load(z, b, MemberEntry(z, path, l, k)).Loaded?
    ensures Load(z, b, MemberEntry(z, path, l, k)).data == l[k].data <==> |l[k].data| < 0x1_0000_0000
  {
    hide Load, MemberEntry, Holds, Addressable, TimeField, DateField, UnpackFields;
    LoadOfArchive(z, b, path, l, k);
  }

  // ---- The whole way

  ghost predicate ShortNames(l: seq<File>) {
    forall k :: 0 <= k < |l| ==> |l[k].name| < 0x1_0000
  }

  /** Every member of a written archive whose 32-bit size is not 0 is listed once, and loading
      its entry gives its bytes back. */
  lemma {:induction false} EveryMemberLoads(z: Zlib, path: Bytes, l: seq<File>, i: nat, n: nat)
    requires z.Correct() && l != [] && ShortNames(l) && Addressable(z, l) && i <= n <= |l|
    ensures LoadAll(z, Archive(z, l), MemberEntries(z, path, l, i, n)) == NonemptyRaw(l[i..n])
    decreases n - i
  {
    hide Locals, Centrals, Archive, Load, Holds, Addressable, MemberEntry, Raw, TimeField, DateField, UnpackFields;
    if i < n {
      EveryMemberLoads(z, path, l, i + 1, n);
      assert l[i..n][1..] == l[i + 1..n];
      ArchiveHolds(z, l);
      LoadOfArchive(z, Archive(z, l), path, l, i);
      var es, rest := MemberEntries(z, path, l, i, n), MemberEntries(z, path, l, i + 1, n);
      if Raw(l[i]) == [] {
        assert es == rest;
      } else {
        assert es[0] == MemberEntry(z, path, l, i) && es[1..] == rest;
      }
    }
  }

  function LoadAll(z: Zlib, b: Bytes, es: seq<FileData>): seq<Bytes> {
    if es == [] then []
    else
      var r := Load(z, b, es[0]);
      (if r.Loaded? then [r.data] else []) + LoadAll(z, b, es[1..])
  }

  function NonemptyRaw(l: seq<File>): seq<Bytes>
    decreases |l|
  {
    if l == [] then []
    else (if Raw(l[0]) == [] then [] else [Raw(l[0])]) + NonemptyRaw(l[1..])
  }

  function NonemptyData(l: seq<File>): seq<Bytes>
    decreases |l|
  {
    if l == [] then []
    else (if l[0].data == [] then [] else [l[0].data]) + NonemptyData(l[1..])
  }

  predicate SmallFiles(l: seq<File>) {
    forall k :: 0 <= k < |l| ==> |l[k].data| < 0x1_0000_0000
  }

  /** Two lists of nonempty byte strings with one more in front, if that is not empty. */
  lemma HeadsAndTails(r: Bytes, d: Bytes, a: seq<Bytes>, b: seq<Bytes>)
    requires |a| <= |b| && (d == [] ==> r == [])
    ensures (if r == [] then [] else [r]) + a == (if d == [] then [] else [d]) + b <==> r == d && a == b
  {
    if r != [] && [r] + a == [d] + b {
      assert r == ([r] + a)[0] == ([d] + b)[0] == d;
      assert a == ([r] + a)[1..] == ([d] + b)[1..] == b;
    }
    assert forall x: seq<Bytes> :: [] + x == x;
  }

  lemma {:induction false} RawIsData(l: seq<File>)
    ensures |NonemptyRaw(l)| <= |NonemptyData(l)|
    ensures NonemptyRaw(l) == NonemptyData(l) <==> SmallFiles(l)
    decreases |l|
  {
    if l != [] {
      var rest, small := l[1..], |l[0].data| < 0x1_0000_0000;
      RawIsData(rest);
      assert SmallFiles(l) <==> small && SmallFiles(rest);
      assert Raw(l[0]) == l[0].data <==> small;
      HeadsAndTails(Raw(l[0]), l[0].data, NonemptyRaw(rest), NonemptyData(rest));
      hide Raw, SmallFiles;
    }
  }

  /** Writing, indexing and loading: the files as far as the member count says, in order, those
      without data left out, each cut to its 32-bit size. */
  lemma LoadsBack(z: Zlib, path: Bytes, l: seq<File>)
    requires z.Correct() && l != [] && ShortNames(l) && Addressable(z, l)
    ensures LoadAll(z, Archive(z, l), Index(Archive(z, l), path)) == NonemptyRaw(l[..Low16(|l|)])
  {
    hide Archive, Index, MemberEntries, LoadAll, Addressable, NonemptyRaw;
    IndexOfArchive(z, l, path);
    EveryMemberLoads(z, path, l, 0, Low16(|l|));
    assert l[0..Low16(|l|)] == l[..Low16(|l|)];
  }

  lemma {:induction false} DataSplit(l: seq<File>, n: nat)
    requires n <= |l|
    ensures NonemptyData(l) == NonemptyData(l[..n]) + NonemptyData(l[n..])
    decreases n
  {
    if n == 0 {
      assert l[..0] == [] && l[0..] == l;
    } else {
      DataSplit(l[1..], n - 1);
      assert l[1..][..n - 1] == l[..n][1..] && l[1..][n - 1..] == l[n..];
    }
  }

  lemma {:induction false} NoData(l: seq<File>)
    ensures NonemptyData(l) == [] <==> forall k :: 0 <= k < |l| ==> l[k].data == []
    decreases |l|
  {
    if l != [] {
      NoData(l[1..]);
      assert forall k :: 1 <= k < |l| ==> l[k] == l[1..][k - 1];
    }
  }

  /** Writing, indexing and loading give back the contents of the nonempty files, in order,
      exactly when every file is smaller than 2^32 bytes and those the 16-bit member count
      leaves out are empty. */
  lemma ZipRoundTrip(z: Zlib, path: Bytes, l: seq<File>)
    requires z.Correct() && l != [] && ShortNames(l) && Addressable(z, l)
    ensures LoadAll(z, Archive(z, l), Index(Archive(z, l), path)) == NonemptyData(l) <==>
            SmallFiles(l) && forall k :: Low16(|l|) <= k < |l| ==> l[k].data == []
  {
    hide Archive, Index, LoadAll, Addressable, NonemptyRaw, NonemptyData, ShortNames, SmallFiles;
    var n := Low16(|l|);
    LoadsBack(z, path, l);
    RawIsData(l[..n]);
    DataSplit(l, n);
    TailData(l, n);
    SmallByParts(l, n);
    ShorterPrefix(NonemptyRaw(l[..n]), NonemptyData(l[..n]), NonemptyData(l[n..]));
  }

  lemma TailData(l: seq<File>, n: nat)
    requires n <= |l|
    ensures NonemptyData(l[n..]) == [] <==> forall k :: n <= k < |l| ==> l[k].data == []
    ensures NonemptyData(l[n..]) == [] ==> SmallFiles(l[n..])
  {
    NoData(l[n..]);
    hide NonemptyData;
    assert forall k :: n <= k < |l| ==> l[k] == l[n..][k - n];
  }

  lemma SmallByParts(l: seq<File>, n: nat)
    requires n <= |l|
    ensures SmallFiles(l) <==> SmallFiles(l[..n]) && SmallFiles(l[n..])
  {
    assert forall k :: 0 <= k < |l| ==> l[k] == if k < n then l[..n][k] else l[n..][k - n];
    assert forall k :: 0 <= k < |l[n..]| ==> l[n..][k] == l[n + k];
  }

  lemma ShorterPrefix(a: seq<Bytes>, b: seq<Bytes>, c: seq<Bytes>)
    requires |a| <= |b|
    ensures a == b + c <==> a == b && c == []
  {
    assert |b + c| == |b| + |c|;
  }

  /** A file of 2^32 bytes is written as one of none, and nothing comes back. */
  lemma HugeFileIsLost(z: Zlib, path: Bytes)
    requires z.Correct()
    ensures var l := [File([0x61], Zeros(0x1_0000_0000), NEW_YEAR)];
            Addressable(z, l) && LoadAll(z, Archive(z, l), Index(Archive(z, l), path)) == []
  {
    hide Archive, Index, LoadAll, LocalPart, CentralPart, Zeros;
    var f := File([0x61], Zeros(0x1_0000_0000), NEW_YEAR);
    ArchiveSnoc(z, [], f);
    assert [] + [f] == [f];
    assert Raw(f) == [];
    NothingWritten(z);
    LoadsBack(z, path, [f]);
    assert [f][..1] == [f] && NonemptyRaw([f]) == [];
  }

  lemma NothingWritten(z: Zlib)
    ensures Locals(z, []) == [] && Centrals(z, []) == []
  {
  }
}
