# A verified model of the engine core

This project models three parts of the engine and proves what they promise.

**Archives.** The archive writer, the in-place appender, the indexer and the loader of the virtual
file system (`src/fs/file_system.cpp`, record layouts in `src/fs/zip.h`). A stream is a byte
buffer with one position and a fail state; every 16- and 32-bit field is narrowed where the code
narrows it, so the definitions hold for lists and files of any size. The record formats are those
of PKWARE APPNOTE.TXT, sections 4.3.7, 4.3.12, 4.3.16 and 4.4.6. Main results: appending equals
writing at once, byte for byte, exactly when the name is free and the central directory can be
addressed; every record of every archive stands byte for byte where the format puts it; writing, indexing and loading give the files back; the backward search stops at the
real end record whatever bytes come before it.

**Game objects.** The object manager with its shared handles, the sweep of unused objects,
serialization and loading with new ids, and teardown (`src/core/gameobjectmanager.cpp`,
`gameobject.cpp`, `component.cpp`, `objhandle.h`, `memory_stream.*`, `object.cpp`). The heap is
explicit: objects by id, handles with use counts, handles held from outside. Every iteration over
an unordered map picks its next element arbitrarily, so what is proved holds for every order.
Main results: handle safety in every state of every run; two sweeps leave exactly the reachable
objects, and exactly when one does; loading what was saved succeeds if and only if every live
component has a live owner, and then gives an isomorphic graph.

**Events and the thread pool.** Spinlocks, subscriptions, raises and the task counter
(`src/core/event.h`, `src/core/threadpool.h`) as a step machine for any number of threads, one
step for each atomic access. Main results: mutual exclusion, an inner lock that is never
contended, linearizability of all calls, one task of a raise for each live subscription and no
other, in subscription order, the
meaning of the task counter, and futures settled once with their own function's result.

## Files

| file | part |
|---|---|
| `Bytes.dfy`, `NumberBytes.dfy` | little-endian integers, narrowing, where a part stands in a byte string; numbers in bytes by plain arithmetic |
| `FileStream.dfy` | file streams over a byte buffer |
| `DosTime.dfy`, `ZipFormat.dfy` | packed date and time fields; the three packed records |
| `ZipArchive.dfy` | what an archive is; end record search; append against batch |
| `ZipAccess.dfy` | appending to, indexing and loading from any bytes, and from written archives |
| `ZipBytes.dfy` | the same once more in literal bytes: what is written at which place, what is read from there |
| `FileSystem.dfy` | the file system class |
| `Rtti.dfy`, `MemoryStream.dfy` | class registry; serializer buffers |
| `ObjectHeap.dfy`, `Effects.dfy` | objects, handles, the safety invariant and the operations on them; what each operation changes, handle by handle and object by object |
| `Sweep.dfy`, `Teardown.dfy` | the sweep and reachability; the destructor |
| `Records.dfy`, `RecordBytes.dfy` | record streams, the id map, graph isomorphism; the records in literal bytes |
| `GameObjectManager.dfy` | the manager class |
| `Runs.dfy`, `Saving.dfy` | handle safety over runs; when a heap can be saved |
| `Wrappers.dfy` | optional values |
| `ThreadPool.dfy`, `EventSystem.dfy`, `EventRuns.dfy` | pool steps; event calls and their steps; all threads together |
| `Subscriptions.dfy` | what callers see of events, said of the history of calls alone |

In the class files a method is proved against a function of the bytes or of the heap, and the
lemmas are about that function. `ZipBytes`, `RecordBytes`, `Effects` and `Subscriptions` say what those
functions come to without naming them: in bytes, in uses and tables, in the calls made before.
`hide` statements keep the definitions a proof does not need out
of the solver's sight.

## Where the code departs from what one would expect

Each of these has its exact condition and an input that shows it.

- One sweep is not always enough: erasing a game object can mark a component that was already
  visited. The exact condition is `Sweeps.OneSweepIsEnough`; `Runs.OneTooManyIsReached` is a run
  to a heap where one sweep leaves too much.
- Loading throws if and only if some live component has no live owner
  (`GameObjectManagers.SerializeAndLoad`), because a missing owner is looked up as id 0;
  `GameObjectManagers.OwnerlessComponentThrows` does it with one component.
- Saving follows the owner pointer of a component whose game object was swept. On runs that load
  as a whole this is the only obstacle to saving (`Saving.SavableExactly`);
  `Saving.SweptOwnerCannotBeSaved` is a run that ends with it.
- The remaining size of a stream is a signed 32-bit number. A stream of 2^31 to 2^32 - 1 bytes is
  taken for an empty one, without a throw (`GameObjectManagers.SerializeAndLoad`,
  `GameObjectManagers.OverlongLoadsNothing`).
- The range check of the input stream adds in 32 bits. It works if and only if the sum does not
  wrap around or the bytes are there (`MemoryStreams.RangeCheckExactly`);
  `MemoryStreams.LengthOfAllOnes` is a string record on which it does not.
- Appending is not batch writing once the name is taken or the central directory's offset or
  size needs more than 32 bits (`ZipAccess.AppendIsBatchExactly`), as in
  `ZipAccess.LongNameIsUnaddressable`. It only compares the new name with the names of the first
  `count % 65536` members, each cut at its first zero byte (`ZipAccess.TakenAre`), so
  `ZipAccess.ZeroByteIsAddedTwice` gets the same name in twice.
- The indexer sees the first `count % 65536` members and leaves out those without data
  (`ZipAccess.IndexOfArchive`). It misses a member with data unless those beyond the count are
  all empty (`ZipAccess.IndexIsComplete`); `ZipAccess.FullArchiveListsNothing` has 65536 and
  shows none.
- Files of 2^32 bytes and more do not come back (`ZipAccess.LoadIsExact`);
  `ZipAccess.HugeFileIsLost` writes one of 2^32 bytes as none. `ZipAccess.ZipRoundTrip` says
  exactly when everything comes back.
- The indexer does not clear its header buffer: an end record that counts more records than there
  are repeats the last entry without a name (`ZipBytes.IndexRepeats`).
- Appending to a file whose directory is cut off writes nothing, and is still a success if the end
  record counts no records (`ZipBytes.AppendWithoutDirectory`).
- The appender's listing does not step over extra fields and comments, as the indexer does, so it
  refuses an archive of two members or more that has one (`ZipBytes.ExtraFieldStopsListing`).
- With a root directory that ends in a slash every loose file loses the first character of its
  name in the index (`FileSystems.LooseNameExactly`), so it is not found
  (`FileSystems.FoundUnlessSlash`).
- Writing a loose file whose name belongs to archive members only is not seen by `getFile`: the
  archive member keeps being returned. `FileSystems.WriteIsSelected` says exactly when;
  `FileSystems.PackWriteThenGet` packs, writes and gets such a name.
- The loader leaves the month one-based and the year absolute (`DosTime.FieldsRoundTrip`,
  `DosTime.JanuaryComesBackAsFebruary`), and names a loaded member after its archive
  (`ZipAccess.LoadOfArchive`).

## Model

| member | source | states |
|---|---|---|
| FileStreams.OverwriteTwice | src/fs/file_system.cpp:375-379 | two writes in a row leave what one write of both would |
| FileStreams.FileStream.Read | src/fs/file_system.cpp:96-97 | a read fills the buffer from the position; a short one keeps the buffer's tail and fails the stream, a failed stream changes nothing |
| FileStreams.FileStream.Write | src/fs/file_system.cpp:375-379 | a write overwrites or extends at the position, or does nothing on a failed stream |
| DosTime.TimeRoundTrip | src/fs/file_system.cpp:276-277 | for every valid clock time hour, minute and seconds rounded down to even come back, and the fields do not overlap |
| DosTime.PackTimeMonotone | src/fs/file_system.cpp:276 | packing keeps the order of times of day |
| DosTime.PackedInNumbers | src/fs/file_system.cpp:276-277 | the time field is hours by 2048, minutes by 32 and half the seconds; the date field is years since 1980 by 512, months from 1 by 32 and days |
| DosTime.UnpackedInNumbers | src/fs/file_system.cpp:713-719 | for any two fields, valid or not: what the loader makes of them, by division and remainder |
| DosTime.FieldsRoundTrip | src/fs/file_system.cpp:713-719 | the loader's decoding of the writer's fields: the time of day back, month and year as stored |
| DosTime.JanuaryComesBackAsFebruary | src/fs/file_system.cpp:713-714 | January 2020 is stored and decoded as month 1 and year 2020, in fields that count from 0 and 1900 |
| ZipFormat.PackUnpack | src/fs/zip.h:7-58 | packing a struct's fields and unpacking its bytes are inverse, for every layout of 2- and 4-byte fields |
| ZipFormat.EocdRoundTrip | src/fs/zip.h:7-17 | bytes encode an end record exactly when they decode to it |
| ZipFormat.CdfhRoundTrip | src/fs/zip.h:19-41 | the same for a central directory header of 46 bytes |
| ZipFormat.LfhRoundTrip | src/fs/zip.h:43-58 | the same for a local header of 30 bytes |
| ZipArchive.LocalsAt | src/fs/file_system.cpp:310-389 | offset k + 1 is offset k plus 30, the name and the stored data; member k's local part stands at offset k |
| ZipArchive.CentralsAt | src/fs/file_system.cpp:394-418 | the central record of member k, with the offset recorded while writing, stands where the sizes before it add up to |
| ZipArchive.CentralsStep | src/fs/file_system.cpp:394-428 | each central record adds 46 bytes and its name to the directory's size |
| ZipArchive.CentralAgreesWithLocal | src/fs/file_system.cpp:381-412 | following any central record leads to a local header with the same method, time, date, checksum, sizes and name length, followed by name and data |
| ZipArchive.ArchiveWithinBound | src/fs/file_system.cpp:334-366 | an archive is at most raw sizes plus 76 bytes and two names per member plus 22; below 2^32 it is addressable |
| ZipArchive.Stored | src/fs/file_system.cpp:343-358 | the stored size is at most the raw size, and smaller exactly when deflated |
| ZipArchive.OffsetsLossless | src/fs/file_system.cpp:391-428 | under the bound every narrowed offset and size is the true one |
| ZipArchive.EndRecordFound | src/fs/file_system.cpp:92-104 | after any nonempty prefix the last signature is that of a final end record with zero disk numbers; at the very start it is not found |
| ZipArchive.SearchIsLast | src/fs/file_system.cpp:455-467 | the search loop returns the last signature's position, and 0 exactly when there is none |
| ZipArchive.ArchiveEndRecord | src/fs/file_system.cpp:106-116 | on a written archive the search and the read behind it give the archive's end record |
| ZipArchive.NextEndRecordIsEndRecord | src/fs/file_system.cpp:605-610 | the patched end record is that of the longer list, for all sizes |
| ZipArchive.AppendEqualsBatch | src/fs/file_system.cpp:507-621 | the appended bytes are the batch archive of the longer list, with nothing stale behind them, if and only if offset and size of the directory fit 32 bits |
| ZipAccess.ListNamesOfArchive | src/fs/file_system.cpp:481-505 | the listing loop gives the member names of a written archive in order |
| ZipAccess.Append | src/fs/file_system.cpp:441-621 | a refused append leaves the bytes as they were, for any file contents |
| ZipAccess.AppendToArchive | src/fs/file_system.cpp:441-621 | on a written archive: refused with the bytes unchanged if the name is taken, else the archive of the longer list |
| ZipAccess.AppendIsBatchExactly | src/fs/file_system.cpp:441-621 | the result is the batch archive if and only if the name is free and the directory addressable |
| ZipAccess.LongNameIsUnaddressable | src/fs/file_system.cpp:391-428 | an archive with one name of 2^32 bytes is not addressable, and appending to it is not batch writing |
| ZipAccess.ZeroByteIsAddedTwice | src/fs/file_system.cpp:494-513 | a member with a zero byte in its name can be added a second time |
| ZipAccess.AppendRunIsBatch | src/fs/file_system.cpp:441-621 | any run of appends with fresh names is one batch write |
| ZipAccess.TakenAre | src/fs/file_system.cpp:481-513 | the taken names are exactly those the first `count % 65536` members show, cut at the first zero byte, for all names |
| ZipAccess.TakenIsMember | src/fs/file_system.cpp:509-513 | with plain names an append is refused exactly when there is a member of that name |
| ZipAccess.IncrementalIsBatch | src/fs/file_system.cpp:281-621 | distinct plain names within the size bound: one file at a time gives the same bytes as all at once |
| ZipAccess.IndexOfArchive | src/fs/file_system.cpp:76-186 | indexing a written archive lists exactly its nonempty members, in order, with method, sizes and offset |
| ZipAccess.IndexIsComplete | src/fs/file_system.cpp:121-185 | the index lists all nonempty members if and only if those the 16-bit count leaves out are empty |
| ZipAccess.FullArchiveListsNothing | src/fs/file_system.cpp:121-185 | an addressable archive of 65536 nonempty files has an empty index |
| ZipAccess.LoadOfArchive | src/fs/file_system.cpp:659-725 | loading a member's entry gives its bytes, cut to the 32-bit size, and its time fields |
| ZipAccess.LoadIsExact | src/fs/file_system.cpp:659-725 | the member's own bytes come back if and only if there are fewer than 2^32 |
| ZipAccess.EveryMemberLoads | src/fs/file_system.cpp:659-725 | loading a range of entries gives the bytes of its members in order, those of size 0 left out |
| ZipAccess.LoadsBack | src/fs/file_system.cpp:76-725 | for any addressable archive with names below 2^16 bytes: what indexing and loading give back, in order |
| ZipAccess.ZipRoundTrip | src/fs/file_system.cpp:76-725 | for any number of members the contents of the nonempty files come back, in order, if and only if every file is below 2^32 bytes and those the 16-bit count leaves out are empty |
| ZipAccess.HugeFileIsLost | src/fs/file_system.cpp:321-339 | a file of 2^32 bytes is written as an empty one and is lost |
| ZipBytes.LocalHeaderBytes | src/fs/zip.h:43-58 | the eleven fields of an encoded local header, each in its bytes at its offset, low byte first |
| ZipBytes.CentralHeaderBytes | src/fs/zip.h:19-41 | the same for the seventeen fields of a central header |
| ZipBytes.EndRecordBytes | src/fs/zip.h:7-17 | the same for the seven fields of an end record |
| ZipBytes.ArchiveInBytes | src/fs/file_system.cpp:310-435 | in literal bytes, for any list: at each member's offset 50 4B 03 04 and every header field with its value, then name and data; at each directory place 50 4B 01 02, the fields, the local offset and the name; at the end 50 4B 05 06, zeros, both counts, size, offset, and nothing behind |
| ZipBytes.LocalHeaderRead | src/fs/zip.h:43-58 | decoding 30 bytes gives the number at each field's offset, low byte first |
| ZipBytes.CentralHeaderRead | src/fs/zip.h:19-41 | the same for the central header fields the readers use |
| ZipBytes.EndRecordRead | src/fs/zip.h:7-17 | the same for an end record |
| ZipBytes.SearchLooksFor | src/fs/file_system.cpp:455-467 | the search stops at 50 4B 05 06 and nothing else |
| ZipBytes.LoadChecksSignature | src/fs/file_system.cpp:668-680 | loading succeeds if and only if 50 4B 03 04 stands at the entry's offset |
| ZipBytes.LoadReads | src/fs/file_system.cpp:682-725 | on any bytes: the data start behind name and extra field of the lengths at 26 and 28, are as long as the number at 18 says, zeros where the file ends, are inflated to the number at 22 if the entry says so, and the times are those at 10 and 12 |
| ZipBytes.IndexStarts | src/fs/file_system.cpp:106-116 | indexing starts at the directory offset, for the number of records in the first count, on any bytes with an end record |
| ZipBytes.IndexDecides | src/fs/file_system.cpp:121-184 | one round of indexing on any file and any stream, good or failed, from the bytes in the header buffer and of the name |
| ZipBytes.IndexRepeats | src/fs/file_system.cpp:119-184 | once the stream has failed every record still counted gives the last entry again, without a name |
| ZipBytes.IndexReads | src/fs/file_system.cpp:121-184 | one whole central record in any bytes: stops without 50 4B 01 02 or with flag bit 0 or 3 set; else the entry has method, sizes, offset and name from their places, and the next record is behind name, extra field and comment |
| ZipBytes.ListReads | src/fs/file_system.cpp:481-505 | one record of the appender's listing on any bytes: fails without 50 4B 01 02; the next record is right behind the name |
| ZipBytes.ListEnds | src/fs/file_system.cpp:481-492 | a listing that has to go on after the stream failed fails |
| ZipBytes.ExtraFieldStopsListing | src/fs/file_system.cpp:481-505 | with an extra field or comment behind the first of several records the listing fails while the indexer goes on |
| ZipBytes.AppendRefuses | src/fs/file_system.cpp:469-492 | without an end record, or with a first central record that has not 50 4B 01 02, the result is false and nothing changes |
| ZipBytes.AppendWithoutDirectory | src/fs/file_system.cpp:469-621 | when the directory is not all there nothing is written, and the result is true exactly if no record is counted |
| ZipBytes.AppendInBytes | src/fs/file_system.cpp:507-621 | appending to any readable archive, in literal bytes: what stood before the directory, the new member, the old directory, its new entry, the end record with counts one higher and new size and offset, then what stood there |
| ZipBytes.CStringIs | src/fs/file_system.cpp:494-502 | a name ends in front of its first zero byte |
| ZipBytes.WriteByteByByte | src/fs/file_system.cpp:375-379 | a write replaces what it covers, fills a gap with zeros and keeps the rest |
| ZipBytes.ReadByteByByte | src/fs/file_system.cpp:96-97 | a read fills the buffer as far as the file goes |
| ZipBytes.FillByteByByte | src/fs/file_system.cpp:693-707 | a buffer of the recorded size holds what inflating gave, then zeros |
| FileSystems.FileSystem.constructor | src/fs/file_system.cpp:37-74 | the index is the loose files in listing order, then the archives' entries |
| FileSystems.IndexedAre | src/fs/file_system.cpp:44-73 | for listings of any length: an entry is in the new index if and only if it is the loose entry of a listed file or an indexed member of a listed archive |
| FileSystems.PathBytes | src/fs/file_system.cpp:48-61 | a path has one slash between root and name; an archive is what ends in `.zip` |
| FileSystems.LooseNameExactly | src/fs/file_system.cpp:59-60 | a loose file keeps its name in the index if and only if the root does not end in a slash |
| FileSystems.FoundUnlessSlash | src/fs/file_system.cpp:37-240 | a loose file is found and loaded under its name if and only if the root does not end in a slash |
| FileSystems.FileSystem.SearchEndRecord | src/fs/file_system.cpp:87-104 | the scan loop finds what the search function does |
| FileSystems.FileSystem.AddZippedDir | src/fs/file_system.cpp:76-186 | adds exactly the archive's index entries, or nothing for a missing file |
| FileSystems.FileSystem.WriteMembers | src/fs/file_system.cpp:310-389 | the first loop writes all local parts and records each member's sizes and true offset |
| FileSystems.FileSystem.WriteDirectory | src/fs/file_system.cpp:394-418 | the second loop appends the central directory of the same list |
| FileSystems.FileSystem.CreateZIP | src/fs/file_system.cpp:281-439 | the file becomes the archive of the list, in the literal bytes of `ZipBytes.IsArchive`; nothing changes if it cannot be opened |
| FileSystems.FileSystem.ReadNames | src/fs/file_system.cpp:481-505 | the listing loop on any bytes |
| FileSystems.FileSystem.WriteTail | src/fs/file_system.cpp:519-617 | overwrites from the old directory on with member, old directory, new entry and end record |
| FileSystems.FileSystem.AddFileToZIP | src/fs/file_system.cpp:441-621 | result and new file contents for any file contents, openable or not |
| FileSystems.FileSystem.IsExist | src/fs/file_system.cpp:188-207 | true if and only if some entry matches, which is when `getFile` selects one |
| FileSystems.FileSystem.GetFile | src/fs/file_system.cpp:209-240 | returns the first matching entry's file, loose or archived |
| FileSystems.FileSystem.LoadZipFile | src/fs/file_system.cpp:659-725 | loads what the entry describes, on any archive bytes, and succeeds exactly if 50 4B 03 04 stands at the entry's offset |
| FileSystems.FileSystem.WriteFile | src/fs/file_system.cpp:242-268 | the file is on disk; the old index is a prefix of the new one with at most one entry more, that of the name; for every other name existence and entry found are as before; loose entries still come before archive entries |
| FileSystems.InitialLooseFirst | src/fs/file_system.cpp:44-73 | at the start no archive entry precedes a loose entry of its name |
| FileSystems.AfterWriteLooseFirst | src/fs/file_system.cpp:259-265 | every write keeps that |
| FileSystems.AfterWriteKeeps | src/fs/file_system.cpp:259-265 | writing adds the loose entry of the name behind the old index if no entry has it, else nothing, and every other name selects what it did |
| FileSystems.WriteThenGetOther | src/fs/file_system.cpp:209-268 | writing one name and getting another gives what getting it gave before, unless the file written is the archive the other is in |
| FileSystems.WriteIsSelected | src/fs/file_system.cpp:209-268 | after a write the name selects the written file if and only if it did not belong to archive members only |
| FileSystems.WriteThenGet | src/fs/file_system.cpp:209-268 | getting a file after writing it returns the data written, or the archive member that hides it |
| FileSystems.FirstMember | src/fs/file_system.cpp:209-226 | in an archive's index a name selects the first nonempty member of that name |
| FileSystems.PackThenGet | src/fs/file_system.cpp:37-439 | packing files, indexing anew and getting a name returns that member's bytes |
| FileSystems.PackWriteThenGet | src/fs/file_system.cpp:37-439 | packing files, indexing anew, writing a loose file under a member's name and getting that name returns the member, not the data written |
| Rtti.DerivesFromIsClosure | src/core/object.cpp:49-63 | being derived is reflexive and transitive and contains the base relation |
| Rtti.DerivesFromIsLeast | src/core/object.cpp:49-63 | every reflexive and transitive relation that contains the base relation contains it |
| Rtti.RegisterKeepsAcyclic | src/core/object.cpp:33-47 | a registration keeps the hierarchy acyclic if and only if the new id is not on its base's chain |
| Rtti.RegistrationOrder | src/core/object.cpp:33-47 | the same registrations give the same hierarchy in any order |
| Rtti.ClassRegistry.RegisterClass | src/core/object.cpp:33-47 | adds the class and nothing else |
| Rtti.ClassRegistry.IsDerivedFromClassID | src/core/object.cpp:49-63 | on an acyclic map the loop ends and answers the closure of the base relation |
| MemoryStreams.OutputMemoryStream.WriteString | src/core/memory_stream.h:31-36 | appends the 32-bit length and that many characters |
| RecordBytes.StringInBytes | src/core/memory_stream.h:31-36 | a written string in literal bytes: its length in four bytes, low byte first, then its characters |
| RecordBytes.RecordInBytes | src/core/gameobject.cpp:83-100 | every written record in literal bytes: class id at 0, object id at 4, then count and pairs of class id and object id, or 0, or 1 and the owner's id, and nothing behind |
| MemoryStreams.InputMemoryStream.ReadBytes | src/core/memory_stream.cpp:14-25 | for every count and size: the bytes if they are there, else a throw with the head unmoved; when the 32-bit sum wraps around, an unchecked read with the head moved back |
| MemoryStreams.RangeCheckExactly | src/core/memory_stream.cpp:16-20 | the range check stops exactly the reads that ask for too much if and only if the sum does not wrap around or the bytes are there |
| MemoryStreams.LengthOfAllOnes | src/core/memory_stream.h:102-109 | a string length of all ones in a stream of eight bytes gets past the check and leaves the head at 3 |
| MemoryStreams.InputMemoryStream.ReadString | src/core/memory_stream.h:102-109 | for any bytes, fewer than 2^31: the announced string, a throw, or a read out of bounds, and where the head is then |
| MemoryStreams.InputMemoryStream.ReadStringBack | src/core/memory_stream.h:102-109 | reads back a written string and consumes exactly it, whatever follows |
| MemoryStreams.InputMemoryStream.Copy | src/core/memory_stream.h:58-62 | a copy has the same data, head and capacity |
| ObjectHeap.ReleaseSafe | src/core/objhandle.h:15-19 | letting go of a handle keeps counts, marks and pointers right |
| ObjectHeap.RegisterSafe | src/core/gameobjectmanager.cpp:26-44 | registering an object keeps the heap safe and hands out its handle |
| ObjectHeap.AddComponentSafe | src/core/gameobject.cpp:12-21 | adding a component, also in place of another, keeps the heap safe |
| Effects.CreateDoes | src/core/gameobjectmanager.cpp:19-44 | creating adds one unmarked object of the class under the next id with a handle used once, held outside, and changes nothing else |
| Effects.CopyDoes | src/core/objhandle.h:11-42 | copying a handle adds one holder outside and one use, and changes nothing else |
| Effects.DropDoes | src/core/objhandle.h:15-19 | dropping one takes one holder and one use away; a handle without uses is gone and its object marked; no other mark, use, pointer or body changes |
| Effects.AddComponentDoes | src/core/gameobject.cpp:12-21 | for every safe heap: the new table is the old one with the handle under the component's class; the component is owned by the game object; a replaced handle has one use less, the new one one more; all other bodies and uses stay, and exactly the objects whose handle went are marked |
| Sweeps.SweepStepSafe | src/core/gameobjectmanager.cpp:78-84 | one stop erases its object exactly when marked and keeps the heap safe |
| Sweeps.MidErase | src/core/gameobjectmanager.cpp:80-81 | in the middle of erasing an object the next handle of its table is in use and points to a registered object or nowhere |
| Sweeps.SweepKeeps | src/core/gameobjectmanager.cpp:74-85 | a sweep in any order keeps all reachable objects and leaves no object that was marked before |
| Sweeps.TwoSweepsLeaveReachable | src/core/gameobjectmanager.cpp:74-85 | two sweeps, each in any order, leave exactly the objects held from outside and the components in their tables, unchanged |
| Sweeps.OneSweepIsEnough | src/core/gameobjectmanager.cpp:74-85 | one sweep does so for every order if and only if every unmarked object is reachable |
| Sweeps.OneSweepCanBeTooFew | src/core/gameobjectmanager.cpp:74-85 | a concrete heap and order where one sweep does not |
| Runs.OneTooManyIsReached | src/core/gameobjectmanager.cpp:19-85 | creating two objects, putting one into the other and dropping both leads to that heap |
| Records.StreamEnd | src/core/gameobjectmanager.cpp:118-131 | a record stream is at its end exactly when no record is left |
| Records.Encode | src/core/component.cpp:63-77 | every record takes at least 12 bytes |
| Records.RemapIs | src/core/gameobjectmanager.cpp:116-128 | the id map has exactly the records' ids, the i-th mapped to the i-th new id |
| Records.SnapshotWellFormed | src/core/gameobjectmanager.cpp:101-110 | what a safe heap writes is a well-formed stream for the same classes |
| Records.ResolvedIffClosed | src/core/gameobject.cpp:83-100 | the records refer only to each other if and only if every live component has a live owner |
| Records.RoundTripIsomorphic | src/core/gameobjectmanager.cpp:101-137 | a heap rebuilt from the records is isomorphic to the one saved: class, table and owner under a bijection of ids |
| GameObjectManagers.GameObjectManager.RegisterObj | src/core/gameobjectmanager.cpp:26-44 | the object gets the next id as its stored id and key, and a handle in use once |
| GameObjectManagers.GameObjectManager.CreateDefaultObj | src/core/gameobjectmanager.cpp:19-24 | creates and registers one object of a known class and changes nothing else, fails for an unknown one |
| GameObjectManagers.GameObjectManager.GetObject | src/core/gameobjectmanager.cpp:52-61 | throws for an unknown id, gives a null handle for a marked object, else the object's handle with one more holder outside and one more use, and nothing else changed |
| GameObjectManagers.GameObjectManager.CopyHandle | src/core/objhandle.h:11-42 | one more holder outside, one more use, nothing else changed |
| GameObjectManagers.LookupKeepsAlive | src/core/gameobjectmanager.cpp:52-85 | an object that is looked up survives, unmarked and at the same handle, the drop of a handle to it and two sweeps |
| GameObjectManagers.CreateThenLookUp | src/core/gameobjectmanager.cpp:19-85 | so does one that was created, looked up and dropped by its creator |
| GameObjectManagers.GameObjectManager.ReleaseHandle | src/core/objhandle.h:15-19 | the last holder destroys the handle, which marks its object |
| GameObjectManagers.GameObjectManager.DropHandle | src/core/objhandle.h:15-19 | dropping a handle held from outside takes one use, marks the object exactly when it was the last, changes nothing else and keeps the manager valid |
| GameObjectManagers.GameObjectManager.AddComponent | src/core/gameobject.cpp:12-21 | the table is the old one with the handle under the component's class, taken or not; owner, uses, marks and everything else as in `Effects.AddComponentDoes` |
| GameObjectManagers.GameObjectManager.GetComponentPtr | src/core/gameobject.h:43-50 | the table's handle, with one more holder outside and one more use, and nothing else changed |
| GameObjectManagers.ReplaceComponent | src/core/gameobject.cpp:12-21 | of two components of one class added in turn the second is in the table, owned by the game object |
| GameObjectManagers.GameObjectManager.ReleaseUnusedObjects | src/core/gameobjectmanager.cpp:74-85 | the erase-while-iterating loop is a sweep in some order and keeps the manager valid |
| GameObjectManagers.GameObjectManager.WriteGameObject | src/core/gameobject.cpp:83-100 | appends exactly the object's record, its table in any order |
| GameObjectManagers.GameObjectManager.WriteComponent | src/core/component.cpp:63-77 | appends exactly the component's record |
| GameObjectManagers.GameObjectManager.Serialize | src/core/gameobjectmanager.cpp:101-110 | writes one record for each live game object and component, in any order |
| GameObjectManagers.GameObjectManager.ReadObject | src/core/gameobject.cpp:102-130 | consumes exactly one record, whatever follows it, and gives the object the record describes |
| GameObjectManagers.GameObjectManager.ReadOwner | src/core/component.cpp:79-101 | the owner's id is carried in the pointer field until linking |
| GameObjectManagers.GameObjectManager.ReadAndRegister | src/core/gameobjectmanager.cpp:120-130 | one round of the first pass is the reading step of a run, gives the object the next id, and keeps what was read before |
| GameObjectManagers.GameObjectManager.LinkTable | src/core/gameobject.cpp:132-148 | links a table, or throws, exactly when some entry has no mapped object |
| GameObjectManagers.GameObjectManager.LinkOwner | src/core/component.cpp:103-112 | links the owner, or throws exactly when its id, 0 for none, is not mapped |
| GameObjectManagers.GameObjectManager.ReadAll | src/core/gameobjectmanager.cpp:118-131 | the first pass makes one object per record with consecutive new ids and ends with the stream used up; it does not start on an overlong one |
| GameObjectManagers.GameObjectManager.LinkAll | src/core/gameobjectmanager.cpp:133-136 | the second pass succeeds in every order if and only if all references are mapped |
| GameObjectManagers.GameObjectManager.Deserialize | src/core/gameobjectmanager.cpp:112-137 | ends with the head at capacity and one object per record, by steps of a run; throws if and only if a record refers to an id without a record; else the heap is rebuilt and all returned handles point at their objects; from 2^31 to 2^32 bytes it makes nothing |
| GameObjectManagers.SerializeAndLoad | src/core/gameobjectmanager.cpp:101-137 | below 2^31 bytes saving and loading succeeds if and only if every live component has a live owner, and then the two heaps are isomorphic; from there to 2^32 nothing is loaded and nothing thrown |
| GameObjectManagers.OwnerlessComponentThrows | src/core/component.cpp:103-112 | saving and loading a heap with one component that has no owner throws |
| GameObjectManagers.OverlongLoadsNothing | src/core/memory_stream.h:90 | loading a stream of 2^31 bytes makes no object, throws nothing and leaves the head at 0 |
| Saving.SavableExactly | src/core/component.cpp:63-77 | on every run of whole operations a heap can be saved if and only if no live component points to a swept owner: tables never hold a null handle |
| Saving.SweptOwnerCannotBeSaved | src/core/gameobjectmanager.cpp:74-110 | a run to a heap with a component whose owner was dropped and swept |
| GameObjectManagers.GameObjectManager.NullifyHandle | src/core/objhandle.h:35-41 | marks the object and makes the handle null |
| GameObjectManagers.GameObjectManager.Destroy | src/core/gameobjectmanager.cpp:10-17 | afterwards every handle still held is null and no object was touched after it went |
| Teardown.NulledStep | src/core/gameobjectmanager.cpp:12-16 | each stop makes the only handle to its object null |
| Teardown.ReleaseAllCounted | src/core/objhandle.h:15-19 | once all handles are null, the tables going away changes no object |
| Runs.StepSafe | src/core/gameobjectmanager.cpp:19-137 | every operation keeps the heap safe |
| Runs.HandlesAreSafe | src/core/objhandle.h:11-42 | in every state of every run: stored id is key, marked exactly when nobody holds the handle, uses counted, live handles point at registered unmarked objects |
| Runs.RunGoesOn | src/core/gameobjectmanager.cpp:112-137 | what loading leads to from the end of a run is the end of a run, so handle safety covers it |
| ThreadPools.CounterMeaning | src/core/threadpool.h:50-79 | the counter is tasks not posted yet plus queued plus before their decrement plus thrown; positive at a decrement |
| ThreadPools.FutureKept | src/core/threadpool.h:70-79 | each step keeps: at most one end of a task's function and one settling of its future, with that function's value |
| ThreadPools.LaterStep | src/core/threadpool.h:36-79 | tasks only move on, settled futures keep their values, nothing starts once the pool has stopped |
| ThreadPools.WorkerNeverStuck | src/core/threadpool.h:67-67 | a worker can take a task exactly when the pool is up and its queue is not empty |
| ThreadPools.StopIsFinal | src/core/threadpool.h:36-67 | once the pool has stopped nothing leaves the queue any more |
| EventSystems.HandlesKept | src/core/event.h:69-84 | below 2^32 binds since registration handles stay distinct and in order, and a new one is neither 0 nor in use |
| EventSystems.UnsubscribeRemovesOne | src/core/event.h:78-84 | unsubscribing with a delegate's handle removes that delegate and no other |
| EventSystems.SectionKept | src/core/event.h:69-100 | each step inside the lock is on the way from the state before the call to its sequential outcome and result; `Subscriptions.RaiseReachesSubscribers` says what those outcomes are |
| EventSystems.NeverBlocked | src/core/event.h:37-49 | whoever is inside the event system's lock never waits for an event's own flag |
| EventSystems.SectionEnds | src/core/event.h:122-167 | each step brings the call closer to giving the lock back |
| EventRuns.LockKept | src/core/event.h:37-49 | every step of every thread keeps: the flag is up exactly while one thread, and no other, is inside |
| EventRuns.MutualExclusion | src/core/event.h:37-49 | on every run at most one thread is inside, the inner flag is never contended, and whoever is inside can go on |
| EventRuns.NoDeadlock | src/core/event.h:37-49 | on every run a thread in the middle of a call can go on, or waits for the lock while the thread inside can go on |
| EventRuns.HolderProgress | src/core/event.h:122-167 | on every run the holder's steps lead to giving the lock back, and no other step moves it |
| EventRuns.Linearizable | src/core/event.h:122-167 | every completed call gave back what it would have, had the calls come one at a time in lock order, and memory is what they leave; what that is for each call is in `Subscriptions` |
| EventRuns.RaisePostsOneEach | src/core/event.h:86-100 | a completed raise posted exactly one task for each delegate of the state then replayed, in order; `Subscriptions.RaiseReachesSubscribers` says which delegates those are |
| EventRuns.StartOrder | src/core/event.h:93-98 | raised tasks are started in the order of the raises and, within one, of subscription |
| EventRuns.CounterOnRuns | src/core/threadpool.h:50-79 | the counter's meaning in every state of every run, never negative |
| EventRuns.CounterAtRest | src/core/threadpool.h:48-79 | with no thread in a call it counts the queue, the workers and the failures |
| EventRuns.FuturesOnRuns | src/core/threadpool.h:57-79 | a future with a value was given it once, by the one run of its own function, and keeps it |
| EventRuns.RunMovesOn | src/core/event.h:122-167 | along a run the history of calls only grows and the pool only moves on |
| EventRuns.RealTimeOrder | src/core/event.h:122-167 | a call completed before another was invoked comes before it in the history |
| EventRuns.HandlesInHistory | src/core/event.h:69-76 | after any history in which no event had 2^32 binds since registration all handles of an event are distinct and none is 0 |
| EventRuns.HandlesOnRuns | src/core/event.h:69-76 | the same of the delegates in memory, in every state of every run with no thread inside the lock |
| EventRuns.CallCompletes | src/core/event.h:122-167 | any call by an idle thread can complete when the lock is free, and then is the next entry of the history |
| Subscriptions.LiveSubsAre | src/core/event.h:69-84 | the live subscriptions are, each once and in order, the subscribe calls after a registration of the event that no later registration or unsubscribe with their handle ended |
| Subscriptions.RaiseReachesSubscribers | src/core/event.h:86-100 | on every run, said of the calls in the history and the tasks in the pool alone: a raise posts exactly one task for each live subscription, in their order, with the subscribed function and the raise's arguments, and no other task is its own |
| Subscriptions.SubscribeReturns | src/core/event.h:69-76 | on every run subscribing gives 0 for an event not registered, else the number of subscriptions since its registration, in 32 bits |
| Subscriptions.OthersReturnNothing | src/core/event.h:122-167 | registering and unsubscribing give back nothing |
| Subscriptions.SubmittedTaskStays | src/core/threadpool.h:50-67 | a task submitted directly keeps the function it was submitted with |

## Left out

- zlib and CRC: functions given as parameters, under the contract that a deflated output smaller than the input inflates back (`ZipArchive.Zlib.Correct`).
- Files, directories and logging: whether a file opens is a parameter, and a disk is a map from paths to contents; the directory iterator's order is a parameter.
- `localtime` and `mktime`: the writer's input is the broken-down time, the loader's result the decoded fields.
- Archives by other programs: what the reader loops make of each record is proved for all bytes (`ZipBytes.IndexReads`, `ZipBytes.ListReads`), and what an append leaves (`ZipBytes.AppendInBytes`); which records a foreign archive has is not described as a whole.
- Files shorter than 18 bytes: the position the scan starts from wraps around in the code; the model finds nothing.
- FileSystems.FileAt: paths are byte strings; of what the operating system makes of them only the doubled slash behind the root is modelled.
- FileSystems.IsZipPath: an archive is recognised by the last four bytes of its path, so a file named only `.zip` counts as one.
- MemoryStreams.InputMemoryStream.ReadBytes: what a read out of bounds copies or breaks is not modelled, only that it happens and where the head is; nor is a string too long for memory.
- GameObjectManagers.GameObjectManager.Deserialize: takes a well-formed record stream, or one of 2^31 to 2^32 - 1 bytes, and an empty manager; on other bytes the code may throw or follow a number as a pointer.
- GameObjectManagers.GameObjectManager.Serialize: asks for owners that are null or registered and for no null handle in a live table; `Saving.SavableExactly` says when a run gives that. What saving does with a swept owner or after a load that threw is not modelled.
- Class factories: a class is one of three layouts; user classes that add fields to their records are not modelled.
- Component messages, `dump` and direct calls of `deleteObj`.
- That a component's owner lists it in its table: `addComponent` does not keep it so.
- Id exhaustion: the code asserts, the model requires, that 32-bit ids do not run out. The manager's mutex is not modelled; its methods run one at a time.
- EventSystems.HandlesKept: nothing is claimed once an event has had 2^32 binds, where the 32-bit counter starts over, or across a new registration, which starts the counter anew.
- Event names with equal hashes, and arguments moved into the first delegate's task.
- The pool's thread count and which thread runs a task; results of task functions are arbitrary values. The wrap-around of the 64-bit counter is not modelled, and the counter is proved not to go below 0.
- Configuration, modules, sockets and logging: plumbing.
