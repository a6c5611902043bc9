/** The virtual file system: its index of loose and archived files, the archive writer and
    appender, and the loaders (`src/fs/file_system.cpp`). */
module FileSystems {
  import opened ByteCodec
  import opened ZipFormat
  import opened FileStreams
  import opened DosTime
  import opened ZipArchive
  import opened ZipAccess
  import ZipBytes

  const SLASH: Bytes := [0x2f]
  const ZIP_EXTENSION: Bytes := [0x2e, 0x7a, 0x69, 0x70]
  const NO_STAMP := Fields(0, 0, 0, 0, 0, 0)
  const NO_ZIP := ZFileData(false, 0, 0, 0, [])

  /** The storage below a file system: file contents by path. */
  class Disk {
    var files: map<Bytes, Bytes>

    constructor ()
      ensures files == map[]
    {
      files := map[];
    }
  }

  // ---- The index

  function EntryName(e: FileData): Bytes {
    if e.is_zip then e.zip_data.fname else e.fname
  }

  /** The position of the first entry of that name, or the length of the index. */
  function FirstMatch(es: seq<FileData>, name: Bytes): (k: nat)
    ensures k <= |es|
    ensures forall j :: 0 <= j < k ==> EntryName(es[j]) != name
    ensures k < |es| ==> EntryName(es[k]) == name
  {
    if es == [] || EntryName(es[0]) == name then 0 else 1 + FirstMatch(es[1..], name)
  }

  predicate IsZipPath(p: Bytes) {
    |p| >= 4 && p[|p| - 4..] == ZIP_EXTENSION
  }

  predicate EndsInSlash(root: Bytes) {
    root != [] && root[|root| - 1..] == SLASH
  }

  /** The path of a file below a directory. The operating system takes two slashes for one. */
  function FileAt(root: Bytes, name: Bytes): (p: Bytes)
    ensures |root| + |name| <= |p|
  {
    if EndsInSlash(root) then root + name else root + SLASH + name
  }

  /** In bytes: a path below a root has one slash between them, and an archive ends in `.zip`. */
  lemma PathBytes(root: Bytes, name: Bytes)
    ensures FileAt(root, name) == root + (if root != [] && root[|root| - 1] == 0x2f then [] else [0x2f]) + name
    ensures IsZipPath(name) <==> exists stem: Bytes :: name == stem + [0x2e, 0x7a, 0x69, 0x70]
  {
    if |name| >= 4 { assert name == name[..|name| - 4] + name[|name| - 4..]; }
  }

  ghost predicate Under(root: Bytes, p: Bytes) {
    exists name :: name != [] && p == FileAt(root, name)
  }

  function LooseEntry(name: Bytes): FileData {
    FileData(false, NO_ZIP, name)
  }

  /** Entries for the loose files of a directory listing, by path relative to the root. */
  function LooseEntries(root: Bytes, listing: seq<Bytes>): seq<FileData>
    requires forall p :: p in listing ==> Under(root, p)
  {
    if listing == [] then []
    else
      var front, p := listing[..|listing| - 1], listing[|listing| - 1];
      assert p in listing && Under(root, p);
      LooseEntries(root, front) + if IsZipPath(p) then [] else [LooseEntry(p[|root| + 1..])]
  }

  function ZipPaths(listing: seq<Bytes>): seq<Bytes> {
    if listing == [] then []
    else
      var p := listing[|listing| - 1];
      ZipPaths(listing[..|listing| - 1]) + if IsZipPath(p) then [p] else []
  }

  /** What indexing the archives at the given paths adds, one after the other. */
  function ZipEntries(files: map<Bytes, Bytes>, paths: seq<Bytes>): seq<FileData> {
    if paths == [] then []
    else
      var p := paths[|paths| - 1];
      ZipEntries(files, paths[..|paths| - 1]) + if p in files then Index(files[p], p) else []
  }

  // ---- Listings of any length

  lemma {:induction false} LooseEntriesAre(root: Bytes, listing: seq<Bytes>, e: FileData)
    requires forall p :: p in listing ==> Under(root, p)
    ensures e in LooseEntries(root, listing) <==>
            exists p :: p in listing && |root| < |p| && !IsZipPath(p) && e == LooseEntry(p[|root| + 1..])
    decreases |listing|
  {
    hide IsZipPath, LooseEntry;
    if listing != [] {
      var front, last := listing[..|listing| - 1], listing[|listing| - 1];
      assert listing == front + [last] && last in listing && Under(root, last);
      LooseEntriesAre(root, front, e);
    }
  }

  lemma {:induction false} ZipPathsAre(listing: seq<Bytes>, p: Bytes)
    ensures p in ZipPaths(listing) <==> p in listing && IsZipPath(p)
    decreases |listing|
  {
    hide IsZipPath;
    if listing != [] {
      var front, last := listing[..|listing| - 1], listing[|listing| - 1];
      assert listing == front + [last];
      ZipPathsAre(front, p);
    }
  }

  lemma {:induction false} ZipEntriesAre(files: map<Bytes, Bytes>, paths: seq<Bytes>, e: FileData)
    ensures e in ZipEntries(files, paths) <==> exists p :: p in paths && p in files && e in Index(files[p], p)
    decreases |paths|
  {
    hide Index;
    if paths != [] {
      var front, last := paths[..|paths| - 1], paths[|paths| - 1];
      assert paths == front + [last];
      ZipEntriesAre(files, front, e);
    }
  }

  /** A new file system indexes every listed file that is not an archive and every indexed member
      of every listed archive, and nothing else. */
  lemma IndexedAre(root: Bytes, files: map<Bytes, Bytes>, listing: seq<Bytes>, e: FileData)
    requires forall p :: p in listing ==> Under(root, p)
    ensures e in LooseEntries(root, listing) + ZipEntries(files, ZipPaths(listing)) <==>
            || (exists p :: p in listing && |root| < |p| && !IsZipPath(p) && e == LooseEntry(p[|root| + 1..]))
            || (exists p :: p in listing && IsZipPath(p) && p in files && e in Index(files[p], p))
  {
    hide IsZipPath, Index, LooseEntry, LooseEntries, ZipEntries, ZipPaths;
    LooseEntriesAre(root, listing, e);
    ZipEntriesAre(files, ZipPaths(listing), e);
    forall p: Bytes
      ensures p in ZipPaths(listing) <==> p in listing && IsZipPath(p)
    {
      ZipPathsAre(listing, p);
    }
  }

  /** Longer listings only add entries behind those of their kind. */
  lemma {:induction false} EntriesInOrder(root: Bytes, a: seq<Bytes>, b: seq<Bytes>)
    requires forall p :: p in a + b ==> Under(root, p)
    ensures forall p :: p in a || p in b ==> Under(root, p)
    ensures LooseEntries(root, a + b) == LooseEntries(root, a) + LooseEntries(root, b)
    ensures ZipPaths(a + b) == ZipPaths(a) + ZipPaths(b)
    decreases |b|
  {
    hide IsZipPath, Under;
    assert forall p :: p in a || p in b ==> p in a + b;
    if b == [] {
      assert a + b == a;
    } else {
      var front, last := b[..|b| - 1], b[|b| - 1];
      assert (a + b)[..|a + b| - 1] == a + front && (a + b)[|a + b| - 1] == last && last in a + b;
      assert forall p :: p in a + front ==> p in a + b;
      EntriesInOrder(root, a, front);
    }
  }

  lemma {:induction false} MembersInOrder(files: map<Bytes, Bytes>, a: seq<Bytes>, b: seq<Bytes>)
    ensures ZipEntries(files, a + b) == ZipEntries(files, a) + ZipEntries(files, b)
    decreases |b|
  {
    hide Index;
    if b == [] {
      assert a + b == a;
    } else {
      var front, last := b[..|b| - 1], b[|b| - 1];
      assert (a + b)[..|a + b| - 1] == a + front && (a + b)[|a + b| - 1] == last;
      MembersInOrder(files, a, front);
    }
  }

  /** No archive entry comes before a loose entry of the same name. */
  ghost predicate LooseFirst(es: seq<FileData>) {
    forall i, j :: 0 <= i < j < |es| && es[i].is_zip && !es[j].is_zip ==>
      EntryName(es[i]) != EntryName(es[j])
  }

  lemma {:induction false} IndexIsZipped(b: Bytes, path: Bytes, c: Cursor, buf: Bytes, n: nat)
    requires |buf| == SIZE_CDFH
    ensures forall e :: e in IndexEntries(b, path, c, buf, n) ==> e.is_zip && e.fname == path
    decreases n
  {
    if n > 0 {
      hide IndexRound;
      var r := IndexRound(b, path, c, buf);
      if r.Next? {
        IndexIsZipped(b, path, r.cursor, r.buf, n - 1);
      }
    }
  }

  lemma {:induction false} ZipEntriesAreZipped(files: map<Bytes, Bytes>, paths: seq<Bytes>)
    ensures forall e :: e in ZipEntries(files, paths) ==> e.is_zip
  {
    if paths != [] {
      hide Index;
      ZipEntriesAreZipped(files, paths[..|paths| - 1]);
      var p := paths[|paths| - 1];
      if p in files {
        IndexedIsZipped(files[p], p);
      }
    }
  }

  lemma IndexedIsZipped(b: Bytes, path: Bytes)
    ensures forall e :: e in Index(b, path) ==> e.is_zip && e.fname == path
  {
    hide DecodeEocd, ReadOver, FindEndRecord, IndexEntries;
    var p := FindEndRecord(b);
    var (raw, c) := ReadOver(b, Cursor(p, true), Zeros(SIZE_EOCD));
    var e := DecodeEocd(raw);
    IndexIsZipped(b, path, c.Seek(e.centralDirectoryOffset), Zeros(SIZE_CDFH),
                  e.numberCentralDirectoryRecord);
  }

  lemma {:induction false} LooseEntriesAreLoose(root: Bytes, listing: seq<Bytes>)
    requires forall p :: p in listing ==> Under(root, p)
    ensures forall e :: e in LooseEntries(root, listing) ==> !e.is_zip
  {
    if listing != [] {
      LooseEntriesAreLoose(root, listing[..|listing| - 1]);
    }
  }

  /** A file system starts with all loose entries before all archive entries. */
  lemma InitialLooseFirst(root: Bytes, files: map<Bytes, Bytes>, listing: seq<Bytes>)
    requires forall p :: p in listing ==> Under(root, p)
    ensures LooseFirst(LooseEntries(root, listing) + ZipEntries(files, ZipPaths(listing)))
  {
    hide LooseEntries, ZipEntries, ZipPaths;
    LooseEntriesAreLoose(root, listing);
    ZipEntriesAreZipped(files, ZipPaths(listing));
  }

  /** What writing a file does to the index: a name gets an entry only if it has none. */
  function AfterWrite(es: seq<FileData>, name: Bytes): seq<FileData> {
    if FirstMatch(es, name) < |es| then es else es + [LooseEntry(name)]
  }

  lemma AfterWriteLooseFirst(es: seq<FileData>, name: Bytes)
    requires LooseFirst(es)
    ensures LooseFirst(AfterWrite(es, name))
    ensures FirstMatch(AfterWrite(es, name), name) < |AfterWrite(es, name)|
  {
    var k := FirstMatch(es, name);
    if k == |es| {
      var es' := AfterWrite(es, name);
      assert EntryName(es'[|es|]) == name;
      forall i, j | 0 <= i < j < |es'| && es'[i].is_zip && !es'[j].is_zip
        ensures EntryName(es'[i]) != EntryName(es'[j])
      {
        assert es'[i] == es[i];
      }
    }
  }

  /** The name selects the same entry, or none, in both indices. */
  ghost predicate FoundSame(es: seq<FileData>, es': seq<FileData>, name: Bytes) {
    var k, k' := FirstMatch(es, name), FirstMatch(es', name);
    && (k < |es| <==> k' < |es'|)
    && (k < |es| ==> es'[k'] == es[k])
  }

  /** Writing adds at most the entry of the written name, behind all others, and every other name
      selects what it did. */
  lemma AfterWriteKeeps(es: seq<FileData>, name: Bytes)
    ensures es <= AfterWrite(es, name)
    ensures AfterWrite(es, name)[|es|..] ==
            if exists i :: 0 <= i < |es| && EntryName(es[i]) == name then []
            else [FileData(false, ZFileData(false, 0, 0, 0, []), name)]
    ensures forall other :: other != name ==> FoundSame(es, AfterWrite(es, name), other)
  {
    var es' := AfterWrite(es, name);
    forall other | other != name
      ensures FoundSame(es, es', other)
    {
      var k, k' := FirstMatch(es, other), FirstMatch(es', other);
      assert forall i :: 0 <= i < |es| ==> es'[i] == es[i];
      if k < |es| { assert EntryName(es'[k]) == other; }
    }
  }

  /** Some archive member has the name and no loose file does. */
  ghost predicate ArchiveOnly(es: seq<FileData>, name: Bytes) {
    && (exists i :: 0 <= i < |es| && es[i].is_zip && EntryName(es[i]) == name)
    && forall i :: 0 <= i < |es| && !es[i].is_zip ==> EntryName(es[i]) != name
  }

  /** After a write the name selects the loose file just written, unless the index had only
      archive entries of that name: then the archive entry keeps hiding the written file. */
  lemma WriteIsSelected(es: seq<FileData>, name: Bytes)
    requires LooseFirst(es)
    ensures var es' := AfterWrite(es, name);
            var k := FirstMatch(es', name);
            k < |es'| && (es'[k].is_zip <==> ArchiveOnly(es, name))
  {
    AfterWriteLooseFirst(es, name);
    var k := FirstMatch(es, name);
    if k < |es| && es[k].is_zip {
      forall i | 0 <= i < |es| && !es[i].is_zip
        ensures EntryName(es[i]) != name
      {
        if i < k {} else {}
      }
    }
  }

  // ---- The file system

  datatype FileInfo = FileInfo(
    compressedSize: u32,
    uncompressedSize: u32,
    compressionMethod: u16,
    crc32: u32,
    offset: u32)

  function InfoFor(z: Zlib, f: File, offset: nat): FileInfo {
    FileInfo(|Stored(z, f)|, |Raw(f)|, Method(z, f), z.crc32(Raw(f)), Low32(offset))
  }

  lemma OverwriteEnd(b: Bytes, d: Bytes)
    ensures Overwrite(b, |b|, d) == b + d
  {
    assert b[..|b|] == b;
  }

  class FileSystem {
    const disk: Disk
    const z: Zlib
    const m_data_dir: Bytes
    var m_files: seq<FileData>

    /** `listing` is the order in which the directory iterator yields the regular files. */
    constructor (disk: Disk, z: Zlib, root_dir: Bytes, listing: seq<Bytes>)
      requires root_dir != []
      requires forall p :: p in listing ==> Under(root_dir, p)
      ensures this.disk == disk && this.z == z && m_data_dir == root_dir
      ensures m_files ==
              LooseEntries(root_dir, listing) + ZipEntries(disk.files, ZipPaths(listing))
      ensures LooseFirst(m_files)
    {
      this.disk, this.z, m_data_dir := disk, z, root_dir;
      m_files := [];
      new;
      hide ZipEntries;
      var zip_file_list: seq<Bytes> := [];
      for i := 0 to |listing|
        invariant m_files == LooseEntries(root_dir, listing[..i])
        invariant zip_file_list == ZipPaths(listing[..i])
      {
        var lp := listing[i];
        assert lp in listing && Under(root_dir, lp) && listing[..i + 1][..i] == listing[..i];
        if IsZipPath(lp) {
          zip_file_list := zip_file_list + [lp];
        } else {
          m_files := m_files + [LooseEntry(lp[|root_dir| + 1..])];
        }
      }
      assert listing[..|listing|] == listing;
      AddZippedDirs(zip_file_list);
      InitialLooseFirst(root_dir, disk.files, listing);
    }

    method AddZippedDirs(zip_file_list: seq<Bytes>)
      modifies this`m_files
      ensures m_files == old(m_files) + ZipEntries(disk.files, zip_file_list)
    {
      hide Index;
      assert m_files == m_files + ZipEntries(disk.files, zip_file_list[..0]);
      for i := 0 to |zip_file_list|
        invariant m_files == old(m_files) + ZipEntries(disk.files, zip_file_list[..i])
      {
        AddZippedDir(zip_file_list[i]);
        assert zip_file_list[..i + 1][..i] == zip_file_list[..i];
      }
      assert zip_file_list[..|zip_file_list|] == zip_file_list;
    }

    /** The backward scan for the end record's signature. */
    method SearchEndRecord(ifs: FileStream) returns (p: nat)
      requires ifs.cursor.good
      modifies ifs`cursor
      ensures p == FindEndRecord(ifs.bytes)
      ensures p != 0 ==> ifs.cursor.good
    {
      if |ifs.bytes| < SIZE_EOCD {
        // The unsigned offset wraps around and every seek and read fails.
        return 0;
      }
      p := 0;
      var offset: nat := |ifs.bytes| - SIZE_EOCD;
      while offset != 0
        invariant offset + SIZE_EOCD <= |ifs.bytes| && ifs.cursor.good
        invariant p == 0 && FindEndRecord(ifs.bytes) == SearchFrom(ifs.bytes, offset)
      {
        ifs.Seek(offset);
        var signature := ifs.Read(Zeros(4));
        if Get32(signature) == SIG_EOCD {
          p := ifs.cursor.pos;
          break;
        }
        offset := offset - 1;
      }
    }

    /** Reads one central record over the header buffer `cdfh`. */
    method ReadCentralRecord(ifs: FileStream, fname: Bytes, cdfh: Bytes) returns (r: Round)
      requires |cdfh| == SIZE_CDFH
      modifies ifs`cursor
      ensures r == IndexRound(ifs.bytes, fname, old(ifs.cursor), cdfh)
      ensures r.Next? ==> ifs.cursor == r.cursor
    {
      hide DecodeCdfh, ReadOver, CString, Zeros;
      var raw := ifs.Read(cdfh);
      var h := DecodeCdfh(raw);
      if h.signature != SIG_CDFH || Encrypted(h) || HasDataDescriptor(h) {
        return Stop;
      }
      var filename := ifs.Read(Zeros(h.filenameLength));
      if h.compressionMethod != 0 && h.compressionMethod != Z_DEFLATED {
        return Next([], ifs.cursor, raw);
      }
      var zfile := EntryFor(h, CString(filename), fname);
      ifs.SeekForward(h.extraFieldLength);
      ifs.SeekForward(h.fileCommentLength);
      r := Next(if zfile.zip_data.uncompressedSize != 0 || zfile.zip_data.compressed then [zfile] else [],
                ifs.cursor, raw);
    }

    method AddZippedDir(fname: Bytes)
      modifies this`m_files
      ensures m_files == old(m_files) +
              if fname in disk.files then Index(disk.files[fname], fname) else []
    {
      hide DecodeEocd, ReadOver, Index, IndexRound, FindEndRecord, Zeros;
      if fname !in disk.files {
        return;
      }
      IndexUnfolds(disk.files[fname], fname);
      var ifs := new FileStream(disk.files[fname]);
      var p := SearchEndRecord(ifs);
      if p == 0 {
        return;
      }
      ifs.Seek(p);
      var raw := ifs.Read(Zeros(SIZE_EOCD));
      var eocd := DecodeEocd(raw);
      ifs.Seek(eocd.centralDirectoryOffset);
      var cdfh := Zeros(SIZE_CDFH);
      ghost var b, n := ifs.bytes, eocd.numberCentralDirectoryRecord;
      ghost var todo := IndexEntries(b, fname, ifs.cursor, cdfh, n);
      var i := 0;
      while i < eocd.numberCentralDirectoryRecord
        invariant i <= n && |cdfh| == SIZE_CDFH && ifs.bytes == b
        invariant todo == IndexEntries(b, fname, ifs.cursor, cdfh, n - i)
        invariant old(m_files) + Index(b, fname) == m_files + todo
      {
        var r := ReadCentralRecord(ifs, fname, cdfh);
        if r.Stop? {
          return;
        }
        ghost var rest := IndexEntries(b, fname, ifs.cursor, r.buf, n - i - 1);
        assert m_files + (r.entries + rest) == m_files + r.entries + rest;
        m_files, cdfh, todo := m_files + r.entries, r.buf, rest;
        i := i + 1;
      }
    }

    function PathOf(name: Bytes): Bytes {
      FileAt(m_data_dir, name)
    }

    /** Compresses one file for the archive: what is stored and with which method. */
    method Compress(f: File) returns (raw: Bytes, data: Bytes, method_: u16)
      ensures raw == Raw(f) && data == Stored(z, f) && method_ == Method(z, f)
    {
      var uncompressedSize := Low32(|f.data|);
      raw := f.data[..uncompressedSize];
      var out := z.deflate(raw);
      if |out| >= uncompressedSize {
        data, method_ := raw, 0;
      } else {
        data, method_ := out, Z_DEFLATED;
      }
    }

    /** Writes local header, name and data of one member at the stream's position. */
    method WriteMember(ofs: FileStream, f: File) returns (fileInfo: FileInfo)
      modifies ofs
      ensures old(ofs.cursor).good ==>
        && ofs.bytes == Overwrite(old(ofs.bytes), old(ofs.cursor).pos, LocalPart(z, f))
        && ofs.cursor == Cursor(old(ofs.cursor).pos + |LocalPart(z, f)|, true)
        && fileInfo == InfoFor(z, f, old(ofs.cursor).pos)
      ensures !old(ofs.cursor).good ==> ofs.bytes == old(ofs.bytes) && !ofs.cursor.good
    {
      hide EncodeLfh, Overwrite, TimeField, DateField, Raw, Stored, Method;
      var raw, data, m := Compress(f);
      var p := ofs.Tell();
      var lfhOffset := Low32(p);
      var time, date := TimeField(f.time), DateField(f.time);
      var lfh := LocalFileHeader(SIG_LFH, 0, 0, m, time, date, z.crc32(raw), |data|, |raw|,
                                 Low16(|f.name|), 0);
      ghost var b0, at := ofs.bytes, ofs.cursor.pos;
      ofs.Write(EncodeLfh(lfh));
      ofs.Write(f.name);
      ofs.Write(data);
      OverwriteTwice(b0, at, EncodeLfh(lfh), f.name);
      OverwriteTwice(b0, at, EncodeLfh(lfh) + f.name, data);
      fileInfo := FileInfo(|data|, |raw|, m, z.crc32(raw), lfhOffset);
    }

    /** Writes one central directory entry at the stream's position. */
    method WriteCentral(ofs: FileStream, f: File, fileInfo: FileInfo, ghost offset: nat)
      requires ofs.cursor.good ==> fileInfo == InfoFor(z, f, offset)
      modifies ofs
      ensures old(ofs.cursor).good ==>
        && ofs.bytes == Overwrite(old(ofs.bytes), old(ofs.cursor).pos, CentralPart(z, f, offset))
        && ofs.cursor == Cursor(old(ofs.cursor).pos + |CentralPart(z, f, offset)|, true)
      ensures !old(ofs.cursor).good ==> ofs.bytes == old(ofs.bytes) && !ofs.cursor.good
    {
      hide EncodeCdfh, Overwrite, TimeField, DateField, Raw, Stored, Method, Low32;
      var time, date := TimeField(f.time), DateField(f.time);
      var cdfh := CentralDirectoryFileHeader(
        SIG_CDFH, 0, 0, 0, fileInfo.compressionMethod, time, date, fileInfo.crc32,
        fileInfo.compressedSize, fileInfo.uncompressedSize, Low16(|f.name|), 0, 0, 0, 0, 0, fileInfo.offset);
      ghost var b0, at := ofs.bytes, ofs.cursor.pos;
      ofs.Write(EncodeCdfh(cdfh));
      ofs.Write(f.name[..cdfh.filenameLength]);
      OverwriteTwice(b0, at, EncodeCdfh(cdfh), f.name[..cdfh.filenameLength]);
    }

    /** Writes the signature and the end record. */
    method WriteEnd(ofs: FileStream, eocd: EOCD)
      modifies ofs
      ensures old(ofs.cursor).good ==>
        ofs.bytes ==
        Overwrite(old(ofs.bytes), old(ofs.cursor).pos, END_SIGNATURE + EncodeEocd(eocd))
      ensures !old(ofs.cursor).good ==> ofs.bytes == old(ofs.bytes)
    {
      hide EncodeEocd, Overwrite, Put32;
      ghost var b0, at := ofs.bytes, ofs.cursor.pos;
      ofs.Write(Put32(SIG_EOCD));
      ofs.Write(EncodeEocd(eocd));
      OverwriteTwice(b0, at, END_SIGNATURE, EncodeEocd(eocd));
    }

    /** The first loop of the writer: every member, and what the directory needs to know. */
    method WriteMembers(ofs: FileStream, filelist: seq<File>) returns (fileInfoList: seq<FileInfo>)
      requires ofs.bytes == [] && ofs.cursor == Cursor(0, true)
      modifies ofs
      ensures ofs.bytes == Locals(z, filelist) && ofs.cursor == Cursor(|ofs.bytes|, true)
      ensures |fileInfoList| == |filelist|
      ensures forall k :: 0 <= k < |filelist| ==>
        fileInfoList[k] == InfoFor(z, filelist[k], Offset(z, filelist, k))
    {
      hide LocalPart, InfoFor, Overwrite, Locals;
      fileInfoList := [];
      NoLocals(z);
      assert filelist[..0] == [];
      for i := 0 to |filelist|
        invariant ofs.bytes == Locals(z, filelist[..i])
        invariant ofs.cursor == Cursor(|ofs.bytes|, true)
        invariant |fileInfoList| == i
        invariant forall k :: 0 <= k < i ==> fileInfoList[k] == InfoFor(z, filelist[k], Offset(z, filelist, k))
      {
        LocalsStep(z, filelist, i);
        OverwriteEnd(ofs.bytes, LocalPart(z, filelist[i]));
        var fileInfo := WriteMember(ofs, filelist[i]);
        fileInfoList := fileInfoList + [fileInfo];
      }
      assert filelist[..|filelist|] == filelist;
    }

    /** The second loop of the writer: the central directory. */
    method WriteDirectory(ofs: FileStream, filelist: seq<File>, fileInfoList: seq<FileInfo>)
      requires ofs.cursor == Cursor(|ofs.bytes|, true)
      requires |fileInfoList| == |filelist|
      requires forall k :: 0 <= k < |filelist| ==>
        fileInfoList[k] == InfoFor(z, filelist[k], Offset(z, filelist, k))
      modifies ofs
      ensures ofs.bytes == old(ofs.bytes) + Centrals(z, filelist)
      ensures ofs.cursor == Cursor(|ofs.bytes|, true)
    {
      hide CentralPart, InfoFor, Overwrite, Locals;
      assert filelist[..0] == [];
      for i := 0 to |filelist|
        invariant ofs.bytes == old(ofs.bytes) + Centrals(z, filelist[..i])
        invariant ofs.cursor == Cursor(|ofs.bytes|, true)
      {
        assert filelist[..i + 1][..i] == filelist[..i];
        OverwriteEnd(ofs.bytes, CentralPart(z, filelist[i], Offset(z, filelist, i)));
        WriteCentral(ofs, filelist[i], fileInfoList[i], Offset(z, filelist, i));
      }
      assert filelist[..|filelist|] == filelist;
    }

    /** Writes an archive of the given files; `opens` says whether the file can be created. */
    method CreateZIP(filelist: seq<File>, zipname: Bytes, opens: bool) returns (ok: bool)
      requires filelist != [] && zipname != []
      modifies disk
      ensures ok == opens
      ensures disk.files ==
              if ok then old(disk.files)[PathOf(zipname) := Archive(z, filelist)] else old(disk.files)
      ensures ok ==> ZipBytes.IsArchive(disk.files[PathOf(zipname)], z, filelist)
    {
      hide Locals, Centrals, EncodeEocd, Overwrite, InfoFor, Low16, Low32, ZipBytes.IsArchive;
      ok := opens;
      if ok {
        var ofs := new FileStream([]);
        var fileInfoList := WriteMembers(ofs, filelist);
        var first := ofs.Tell();
        var firstOffsetCDFH := Low32(first);
        WriteDirectory(ofs, filelist, fileInfoList);
        var last := ofs.Tell();
        var lastOffsetCDFH := Low32(last);
        var eocd := EOCD(0, 0, Low16(|filelist|), Low16(|filelist|),
                         Low32(lastOffsetCDFH as int - firstOffsetCDFH as int), firstOffsetCDFH, 0);
        Low32Minus(first, |Centrals(z, filelist)|);
        assert eocd == EndRecord(z, filelist);
        OverwriteEnd(ofs.bytes, END_SIGNATURE + EncodeEocd(eocd));
        WriteEnd(ofs, eocd);
        assert ofs.bytes == Archive(z, filelist);
        ZipBytes.ArchiveInBytes(z, filelist);
        disk.files := disk.files[PathOf(zipname) := ofs.bytes];
      }
    }

    /** The listing loop of the appender; `m` is what newly allocated memory holds. */
    method ReadNames(ofs: FileStream, n: nat, m: Memory) returns (r: Listing)
      modifies ofs`cursor
      ensures r == ListNames(m, ofs.bytes, old(ofs.cursor), n)
      ensures r.Names? ==> ofs.cursor == r.cursor
    {
      hide DecodeCdfh, ReadOver, CString, Zeros, Uncleared, ListNames;
      var zip_fnames := [];
      ghost var all := ListNames(m, ofs.bytes, ofs.cursor, n);
      var i := 0;
      while i < n
        invariant i <= n
        invariant Preceded(zip_fnames, ListNames(m, ofs.bytes, ofs.cursor, n - i)) == all
      {
        ListUnfolds(m, ofs.bytes, ofs.cursor, n - i);
        var raw := ofs.Read(Zeros(SIZE_CDFH));
        var cdfh := DecodeCdfh(raw);
        if cdfh.signature != SIG_CDFH {
          return BadSignature;
        }
        i := i + 1;
        if cdfh.filenameLength != 0 {
          var filename := ofs.Read(Uncleared(m, n - i + 1, cdfh.filenameLength));
          zip_fnames := zip_fnames + [CString(filename)];
        }
      }
      ListNothing(m, ofs.bytes, ofs.cursor);
      r := Names(zip_fnames, ofs.cursor);
    }

    /** The writing half of the appender: the member over the old central directory, that
        directory again, one new entry and the updated end record. */
    method WriteTail(ofs: FileStream, file: File, eocd: EOCD, centralDirectoryData: Bytes)
      requires ofs.cursor.good ==> ofs.cursor.pos == eocd.centralDirectoryOffset
      requires |centralDirectoryData| == eocd.sizeOfCentralDirectory
      modifies ofs
      ensures ofs.bytes ==
              if old(ofs.cursor).good
              then Overwrite(old(ofs.bytes), eocd.centralDirectoryOffset,
                             Tail(z, centralDirectoryData, eocd, file))
              else old(ofs.bytes)
    {
      hide LocalPart, CentralPart, Overwrite, EncodeEocd, Put32;
      ghost var b0, at := ofs.bytes, ofs.cursor.pos;
      var fileInfo := WriteMember(ofs, file);
      var first := ofs.Tell();
      ofs.Write(centralDirectoryData);
      WriteCentral(ofs, file, fileInfo, at);
      var last := ofs.Tell();
      var eocd' := eocd.(
        centralDirectoryOffset := Low32(first),
        numberCentralDirectoryRecord := Low16(eocd.numberCentralDirectoryRecord + 1),
        totalCentralDirectoryRecord := Low16(eocd.totalCentralDirectoryRecord + 1),
        sizeOfCentralDirectory := Low32(Low32(last) as int - Low32(first) as int));
      WriteEnd(ofs, eocd');
      var l, c := LocalPart(z, file), CentralPart(z, file, at);
      OverwriteTwice(b0, at, l, centralDirectoryData);
      OverwriteTwice(b0, at, l + centralDirectoryData, c);
      OverwriteTwice(b0, at, l + centralDirectoryData + c, END_SIGNATURE + EncodeEocd(eocd'));
      if old(ofs.cursor).good {
        Low32Minus(first, |centralDirectoryData| + |c|);
        assert eocd' == NextEndRecord(z, eocd, file);
        assert l + centralDirectoryData + c + (END_SIGNATURE + EncodeEocd(eocd')) ==
               Tail(z, centralDirectoryData, eocd, file);
      }
    }

    /** Appends one file to an archive; `opens` says whether the file can be opened, `m` what
        newly allocated memory holds. */
    method AddFileToZIP(file: File, zipname: Bytes, opens: bool, m: Memory) returns (ok: bool)
      requires zipname != []
      modifies disk
      ensures var p := PathOf(zipname);
        if opens && p in old(disk.files) then
          var (r, b) := Append(z, m, old(disk.files)[p], file);
          ok == r && disk.files == old(disk.files)[p := b]
        else !ok && disk.files == old(disk.files)
    {
      hide EncodeEocd, DecodeEocd, ReadOver, ListNames, FindEndRecord, Zeros, Overwrite, Tail;
      var path := PathOf(zipname);
      ok := opens && path in disk.files;
      if ok {
        var ofs := new FileStream(disk.files[path]);
        ok := AppendToStream(ofs, file, m);
        disk.files := disk.files[path := ofs.bytes];
      }
    }

    method AppendToStream(ofs: FileStream, file: File, m: Memory) returns (ok: bool)
      requires ofs.cursor.good
      modifies ofs
      ensures (ok, ofs.bytes) == Append(z, m, old(ofs.bytes), file)
    {
      hide DecodeEocd, ReadOver, ListNames, FindEndRecord, Zeros, Overwrite, Tail;
      ok := false;
      var p := SearchEndRecord(ofs);
      if p != 0 {
        ofs.Seek(p);
        var raw := ofs.Read(Zeros(SIZE_EOCD));
        var eocd := DecodeEocd(raw);
        ofs.Seek(eocd.centralDirectoryOffset);
        var centralDirectoryData := ofs.Read(Zeros(eocd.sizeOfCentralDirectory));
        ofs.Seek(eocd.centralDirectoryOffset);
        var listing := ReadNames(ofs, eocd.numberCentralDirectoryRecord, m);
        ofs.Seek(eocd.centralDirectoryOffset);
        if listing.Names? && file.name !in listing.names {
          WriteTail(ofs, file, eocd, centralDirectoryData);
          ok := true;
        }
      }
    }

    // ---- Looking up, loading and writing files

    /** The loop of `isExist`. */
    method IsExist(fname: Bytes) returns (r: bool)
      requires fname != []
      ensures r <==> FirstMatch(m_files, fname) < |m_files|
    {
      r := false;
      for i := 0 to |m_files|
        invariant forall j :: 0 <= j < i ==> EntryName(m_files[j]) != fname
      {
        if EntryName(m_files[i]) == fname {
          return true;
        }
      }
    }

    /** What `getFile` finds for a name: nothing, a loose file's contents or an archive member. */
    ghost function Found(fname: Bytes): Loaded
      reads this, disk
    {
      var k := FirstMatch(m_files, fname);
      if k == |m_files| then LoadFailed
      else
        var e := m_files[k];
        var path := if e.is_zip then e.fname else PathOf(e.fname);
        if path !in disk.files then LoadFailed
        else if e.is_zip then Load(z, disk.files[path], e)
        else Loaded(e.fname, disk.files[path], NO_STAMP)
    }

    /** Fails where the source throws. */
    method GetFile(fname: Bytes) returns (r: Loaded)
      requires fname != []
      ensures r == Found(fname)
    {
      hide Load;
      var i := 0;
      while i < |m_files| && EntryName(m_files[i]) != fname
        invariant i <= FirstMatch(m_files, fname)
      {
        i := i + 1;
      }
      if i == |m_files| {
        r := LoadFailed;
      } else if m_files[i].is_zip {
        r := LoadZipFile(m_files[i]);
      } else if PathOf(m_files[i].fname) in disk.files {
        r := Loaded(m_files[i].fname, disk.files[PathOf(m_files[i].fname)], NO_STAMP);
      } else {
        r := LoadFailed;
      }
    }

    method LoadZipFile(zf: FileData) returns (r: Loaded)
      requires zf.is_zip
      ensures r == if zf.fname in disk.files then Load(z, disk.files[zf.fname], zf) else LoadFailed
      ensures var o := zf.zip_data.lfhOffset;
              r.Loaded? <==>
                && zf.fname in disk.files && o + 4 <= |disk.files[zf.fname]|
                && disk.files[zf.fname][o..o + 4] == [0x50, 0x4B, 0x03, 0x04]
    {
      hide Load;
      r := LoadFailed;
      if zf.fname in disk.files {
        ZipBytes.LoadChecksSignature(z, disk.files[zf.fname], zf);
        var ifs := new FileStream(disk.files[zf.fname]);
        r := LoadFromStream(ifs, zf);
      }
    }

    method LoadFromStream(ifs: FileStream, zf: FileData) returns (r: Loaded)
      requires ifs.cursor.good
      modifies ifs`cursor
      ensures r == Load(z, ifs.bytes, zf)
    {
      hide DecodeLfh, ReadOver, Zeros, UnpackFields, Load;
      LoadUnfolds(z, ifs.bytes, zf);
      ifs.Seek(zf.zip_data.lfhOffset);
      var raw := ifs.Read(Zeros(SIZE_LFH));
      var lfh := DecodeLfh(raw);
      r := LoadFailed;
      if lfh.signature == SIG_LFH {
        ifs.SeekForward(lfh.filenameLength);
        ifs.SeekForward(lfh.extraFieldLength);
        var data := ifs.Read(Zeros(lfh.compressedSize));
        if zf.zip_data.compressed {
          data := Fill(z.inflate(data, lfh.uncompressedSize), lfh.uncompressedSize);
        }
        r := Loaded(zf.fname, data,
                    UnpackFields(lfh.modificationTime as bv16, lfh.modificationDate as bv16));
      }
    }

    function Joined(path: Bytes, name: Bytes): (p: Bytes)
      ensures p == (if path == [] then [] else path + [0x2f]) + name
    {
      if path == [] then name else path + SLASH + name
    }

    /** Writes a loose file; `opens` says whether the file can be created. */
    method WriteFile(path: Bytes, name: Bytes, data: Bytes, opens: bool) returns (ok: bool)
      requires Joined(path, name) != []
      requires LooseFirst(m_files)
      modifies this`m_files, disk
      ensures ok == opens && LooseFirst(m_files)
      ensures var fname := Joined(path, name);
        if ok then
          && disk.files == old(disk.files)[PathOf(fname) := data]
          && m_files == AfterWrite(old(m_files), fname)
          && FirstMatch(m_files, fname) < |m_files|
          && old(m_files) <= m_files && |m_files| <= |old(m_files)| + 1
          && forall other :: other != fname ==> FoundSame(old(m_files), m_files, other)
        else disk.files == old(disk.files) && m_files == old(m_files)
    {
      var filename := Joined(path, name);
      ok := opens;
      if ok {
        disk.files := disk.files[PathOf(filename) := data];
        var known := IsExist(filename);
        AfterWriteLooseFirst(m_files, filename);
        AfterWriteKeeps(m_files, filename);
        if !known {
          m_files := m_files + [LooseEntry(filename)];
        }
      }
    }
  }

  // ---- Clients

  /** Writing a file and getting it back gives the written bytes, unless the name belongs to
      archive members only: then the first of those is returned instead. */
  method WriteThenGet(fs: FileSystem, name: Bytes, data: Bytes) returns (r: Loaded)
    requires name != [] && LooseFirst(fs.m_files)
    modifies fs`m_files, fs.disk
    ensures var es := old(fs.m_files);
      if ArchiveOnly(es, name) then
        var k := FirstMatch(es, name);
        k < |es| && es[k].is_zip &&
        r == if es[k].fname in fs.disk.files then Load(fs.z, fs.disk.files[es[k].fname], es[k]) else LoadFailed
      else r == Loaded(name, data, NO_STAMP)
    ensures fs.disk.files == old(fs.disk.files)[fs.PathOf(name) := data]
  {
    hide Load;
    WriteIsSelected(fs.m_files, name);
    var ok := fs.WriteFile([], name, data, true);
    r := fs.GetFile(name);
  }

  /** Writing one file and getting another gives what getting it gave before, unless the file
      written is the very archive the other is in. */
  method WriteThenGetOther(fs: FileSystem, name: Bytes, data: Bytes, other: Bytes) returns (r: Loaded)
    requires name != [] && other != [] && other != name && LooseFirst(fs.m_files)
    modifies fs`m_files, fs.disk
    ensures var es := old(fs.m_files);
            var k := FirstMatch(es, other);
            (k < |es| && es[k].is_zip && es[k].fname == fs.PathOf(name)) || r == old(fs.Found(other))
  {
    hide Load, AfterWrite, FileAt;
    FileAtInjective(fs.m_data_dir, name, other);
    ghost var es := fs.m_files;
    var ok := fs.WriteFile([], name, data, true);
    assert FoundSame(es, fs.m_files, other);
    r := fs.GetFile(other);
  }

  lemma FileAtInjective(root: Bytes, a: Bytes, b: Bytes)
    ensures FileAt(root, a) == FileAt(root, b) ==> a == b
  {
    var n := |FileAt(root, a)| - |a|;
    assert FileAt(root, a)[n..] == a;
    if |a| == |b| { assert FileAt(root, b)[n..] == b; }
  }

  /** The constructor cuts one character more than the root from every path, which leaves a loose
      file its name exactly when the root does not end in a slash itself. */
  lemma LooseNameExactly(root: Bytes, name: Bytes)
    requires name != []
    ensures FileAt(root, name)[|root| + 1..] == name <==> !EndsInSlash(root)
  {
    if EndsInSlash(root) {
      assert |FileAt(root, name)[|root| + 1..]| == |name| - 1;
    }
  }

  /** The index made from one loose file. */
  lemma OneLooseFile(files: map<Bytes, Bytes>, root: Bytes, p: Bytes)
    requires Under(root, p) && !IsZipPath(p)
    ensures |root| < |p|
    ensures LooseEntries(root, [p]) + ZipEntries(files, ZipPaths([p])) == [LooseEntry(p[|root| + 1..])]
  {
    hide IsZipPath;
    var listing: seq<Bytes> := [p];
    assert listing[..0] == [];
    assert ZipPaths(listing) == [];
  }

  /** A loose file is found under its name exactly when the root does not end in a slash. */
  method FoundUnlessSlash(disk: Disk, z: Zlib, root: Bytes, name: Bytes) returns (found: bool, r: Loaded)
    requires root != [] && name != [] && !IsZipPath(FileAt(root, name)) && FileAt(root, name) in disk.files
    ensures found <==> !EndsInSlash(root)
    ensures r == if EndsInSlash(root) then LoadFailed else Loaded(name, disk.files[FileAt(root, name)], NO_STAMP)
  {
    hide IsZipPath, LooseEntries, ZipEntries, FileAt, EndsInSlash;
    var path := FileAt(root, name);
    assert Under(root, path);
    LooseNameExactly(root, name);
    OneLooseFile(disk.files, root, path);
    var fs := new FileSystem(disk, z, root, [path]);
    assert fs.m_files == [LooseEntry(path[|root| + 1..])];
    found := fs.IsExist(name);
    r := fs.GetFile(name);
  }

  /** In the index of a written archive, a name selects the first nonempty member of that name. */
  lemma {:induction false} FirstMember(z: Zlib, path: Bytes, l: seq<File>, i: nat, k: nat)
    requires PlainNames(l) && i <= k < |l| && Raw(l[k]) != []
    requires forall j :: i <= j < k && Raw(l[j]) != [] ==> l[j].name != l[k].name
    ensures var es := MemberEntries(z, path, l, i, |l|);
            var m := FirstMatch(es, l[k].name);
            m < |es| && es[m] == MemberEntry(z, path, l, k)
    decreases k - i
  {
    hide Raw, Stored, Offset, CString;
    var es, rest := MemberEntries(z, path, l, i, |l|), MemberEntries(z, path, l, i + 1, |l|);
    assert EntryName(MemberEntry(z, path, l, i)) == l[i].name by { PlainEntryName(z, path, l, i); }
    if i < k {
      FirstMember(z, path, l, i + 1, k);
      if Raw(l[i]) == [] {
        assert es == rest;
      } else {
        assert es[1..] == rest;
      }
    }
  }

  lemma PlainEntryName(z: Zlib, path: Bytes, l: seq<File>, i: nat)
    requires PlainNames(l) && i < |l|
    ensures EntryName(MemberEntry(z, path, l, i)) == l[i].name
  {
    assert PlainName(l[i].name);
    assert CentralName(l[i]) == l[i].name;
    PlainCString(l[i].name);
  }

  /** The index made from one archive. */
  lemma OneArchive(files: map<Bytes, Bytes>, root: Bytes, path: Bytes)
    requires IsZipPath(path) && Under(root, path) && path in files
    ensures LooseEntries(root, [path]) + ZipEntries(files, ZipPaths([path])) == Index(files[path], path)
  {
    hide Index, IsZipPath;
    assert [path][..0] == [];
    assert LooseEntries(root, [path]) == [];
    assert ZipPaths([path]) == [path];
    assert ZipEntries(files, [path]) == [] + Index(files[path], path);
  }

  /** Packs files into an archive, indexes the directory anew and gets one of them back: the
      first nonempty one of its name. */
  method PackThenGet(disk: Disk, z: Zlib, root: Bytes, zipname: Bytes, l: seq<File>, k: nat)
    returns (r: Loaded)
    requires z.Correct() && root != [] && zipname != [] && IsZipPath(FileAt(root, zipname))
    requires k < |l| && PlainNames(l) && Addressable(z, l)
    requires forall i :: 0 <= i < |l| ==> |l[i].data| < 0x1_0000_0000
    requires l[k].data != []
    requires forall i :: 0 <= i < k && l[i].data != [] ==> l[i].name != l[k].name
    modifies disk
    ensures r == Loaded(FileAt(root, zipname), l[k].data,
                        UnpackFields(TimeField(l[k].time) as bv16, DateField(l[k].time) as bv16))
  {
    hide Archive, Index, Load, Addressable, MemberEntries, MemberEntry, IsZipPath, LooseEntries, ZipEntries,
         TimeField, DateField, UnpackFields, ZipBytes.IsArchive;
    var path := FileAt(root, zipname);
    var writer := new FileSystem(disk, z, root, []);
    var ok := writer.CreateZIP(l, zipname, true);
    assert Under(root, path);
    var reader := new FileSystem(disk, z, root, [path]);
    OneArchive(disk.files, root, path);
    IndexOfArchive(z, l, path);
    FirstMember(z, path, l, 0, k);
    ArchiveHolds(z, l);
    assert PlainName(l[k].name);
    LoadOfArchive(z, Archive(z, l), path, l, k);
    MemberIsZipped(z, path, l, k);
    r := reader.GetFile(l[k].name);
  }

  /** Packs files into an archive, indexes the directory anew, writes a loose file under the name
      of a member and gets that name back: the member, not what was written. A name equal to
      the archive's own would overwrite the archive. */
  method PackWriteThenGet(disk: Disk, z: Zlib, root: Bytes, zipname: Bytes, l: seq<File>, k: nat, data: Bytes)
    returns (r: Loaded)
    requires z.Correct() && root != [] && zipname != [] && IsZipPath(FileAt(root, zipname))
    requires k < |l| && PlainNames(l) && Addressable(z, l)
    requires forall i :: 0 <= i < |l| ==> |l[i].data| < 0x1_0000_0000
    requires l[k].data != [] && l[k].name != zipname
    requires forall i :: 0 <= i < k && l[i].data != [] ==> l[i].name != l[k].name
    modifies disk
    ensures FileAt(root, l[k].name) in disk.files && disk.files[FileAt(root, l[k].name)] == data
    ensures r == Loaded(FileAt(root, zipname), l[k].data,
                        UnpackFields(TimeField(l[k].time) as bv16, DateField(l[k].time) as bv16))
  {
    hide Archive, Index, Load, Addressable, MemberEntries, MemberEntry, IsZipPath, LooseEntries, ZipEntries,
         TimeField, DateField, UnpackFields, ZipBytes.IsArchive;
    var path, name := FileAt(root, zipname), l[k].name;
    var writer := new FileSystem(disk, z, root, []);
    var packed := writer.CreateZIP(l, zipname, true);
    assert Under(root, path);
    var reader := new FileSystem(disk, z, root, [path]);
    OneArchive(disk.files, root, path);
    IndexOfArchive(z, l, path);
    FirstMember(z, path, l, 0, k);
    MemberIsZipped(z, path, l, k);
    IndexedIsZipped(disk.files[path], path);
    assert ArchiveOnly(reader.m_files, name);
    ArchiveHolds(z, l);
    assert PlainName(name);
    LoadOfArchive(z, Archive(z, l), path, l, k);
    FileAtInjective(root, name, zipname);
    r := WriteThenGet(reader, name, data);
  }

  lemma MemberIsZipped(z: Zlib, path: Bytes, l: seq<File>, k: nat)
    requires k < |l|
    ensures MemberEntry(z, path, l, k).is_zip && MemberEntry(z, path, l, k).fname == path
  {
  }
}
