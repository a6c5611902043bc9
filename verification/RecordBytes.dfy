/** The serializer's records and strings byte by byte, in numbers: which byte stands at which
    place, without the project's own encoders. */
module RecordBytes {
  import opened ByteCodec
  import opened NumberBytes
  import opened Rtti
  import opened ObjectHeap
  import opened MemoryStreams
  import opened Records

  /** Class id, object id, then the table with its length in front, or the owner with a 1 in
      front, or a 0. Every number takes four bytes, low byte first. */
  ghost predicate RecordIs(b: Bytes, r: Record)
    requires BodyOk(r.body)
  {
    && U32At(b, 0, r.classId) && U32At(b, 4, r.id)
    && match r.body
       case Components(keys, targets) =>
         && |b| == 12 + 8 * |keys| && U32At(b, 8, |keys|)
         && forall k :: 0 <= k < |keys| ==>
              U32At(b, 12 + 8 * k, keys[k]) && U32At(b, 16 + 8 * k, targets[keys[k]])
       case OwnerId(None) => |b| == 12 && U32At(b, 8, 0)
       case OwnerId(Some(o)) => |b| == 16 && U32At(b, 8, 1) && U32At(b, 12, o)
  }

  lemma SignedBytes(b: Bytes, o: nat, n: i32)
    requires HasAt(b, o, PutI32(n))
    ensures U32At(b, o, n)
  {
    hide HasAt, U32At, Put32;
    assert PutI32(n) == Put32(Low32(n));
    Put32Bytes(b, o, n);
  }

  lemma {:induction false} EntryAt(keys: seq<ClassId>, targets: map<ClassId, Id>, k: nat)
    requires k < |keys| && forall j :: j in keys ==> j in targets
    ensures HasAt(EncodeTable(keys, targets), 8 * k, PutI32(keys[k]) + Put32(Low32(targets[keys[k]])))
    decreases k
  {
    hide HasAt, PutI32, Put32, Low32;
    var first := PutI32(keys[0]) + Put32(Low32(targets[keys[0]]));
    var rest := EncodeTable(keys[1..], targets);
    assert EncodeTable(keys, targets) == first + rest;
    if k == 0 {
      HasAtSlice(first + rest, 0, first);
    } else {
      EntryAt(keys[1..], targets, k - 1);
      HasAtBehind(first, rest, 8 * (k - 1), PutI32(keys[k]) + Put32(Low32(targets[keys[k]])));
    }
  }

  lemma EntryBytes(b: Bytes, keys: seq<ClassId>, targets: map<ClassId, Id>, k: nat)
    requires k < |keys| && (forall j :: j in keys ==> j in targets) && HasAt(b, 12, EncodeTable(keys, targets))
    ensures U32At(b, 12 + 8 * k, keys[k]) && U32At(b, 16 + 8 * k, targets[keys[k]])
  {
    hide HasAt, U32At, PutI32, Put32, Low32, EncodeTable;
    var x, y := PutI32(keys[k]), Put32(Low32(targets[keys[k]]));
    EntryAt(keys, targets, k);
    HasAtWithin(b, 12, EncodeTable(keys, targets), 8 * k, x + y);
    HasAtPair(b, 12 + 8 * k, x, y);
    SignedBytes(b, 12 + 8 * k, keys[k]);
    Put32Bytes(b, 16 + 8 * k, targets[keys[k]]);
  }

  /** Every written record, of any object, has exactly these bytes. */
  lemma RecordInBytes(r: Record)
    requires BodyOk(r.body)
    ensures RecordIs(Encode(r), r)
  {
    hide HasAt, U32At, PutI32, Put32, Low32, EncodeTable;
    var b, head, body := Encode(r), PutI32(r.classId) + Put32(Low32(r.id)), EncodeBody(r.body);
    assert b == head + body;
    HasAtSlice(b, 0, head);
    HasAtPair(b, 0, PutI32(r.classId), Put32(Low32(r.id)));
    HasAtEnd(head, body);
    SignedBytes(b, 0, r.classId);
    Put32Bytes(b, 4, r.id);
    match r.body
    case Components(keys, targets) =>
      HasAtPair(b, 8, Put32(Low32(|keys|)), EncodeTable(keys, targets));
      Put32Bytes(b, 8, |keys|);
      EncodeTableLength(keys, targets);
      forall k | 0 <= k < |keys|
        ensures U32At(b, 12 + 8 * k, keys[k]) && U32At(b, 16 + 8 * k, targets[keys[k]])
      {
        EntryBytes(b, keys, targets, k);
      }
    case OwnerId(None) =>
      SignedBytes(b, 8, 0);
    case OwnerId(Some(o)) =>
      HasAtPair(b, 8, PutI32(1), Put32(Low32(o)));
      SignedBytes(b, 8, 1);
      Put32Bytes(b, 12, o);
  }

  /** A written string: its length in four bytes, then as many of its characters as that says. */
  lemma StringInBytes(s: Bytes)
    ensures var b, n := EncodeString(s), |s| % 0x1_0000_0000;
            |b| == 4 + n && U32At(b, 0, |s|) && TextAt(b, 4, s[..n])
  {
    hide HasAt, U32At, Put32;
    var n := Low32(|s|);
    var b := EncodeString(s);
    HasAtSlice(b, 0, Put32(n));
    Put32Bytes(b, 0, |s|);
    assert b[4..4 + n] == s[..n];
  }
}
