/** A binary file stream over an in-memory byte buffer: one position shared by reading and
    writing, writes that overwrite or extend, and a fail state in which every later
    operation is a no-op. */
module FileStreams {
  import opened ByteCodec

  function Zeros(n: nat): (z: Bytes)
    ensures |z| == n
  {
    seq(n, _ => 0)
  }

  /** The bytes before position `at`, zero-filled up to it. */
  function Before(b: Bytes, at: nat): (r: Bytes)
    ensures |r| == at
  {
    if at <= |b| then b[..at] else b + Zeros(at - |b|)
  }

  /** The bytes from position `at` on, if any. */
  function After(b: Bytes, at: nat): Bytes {
    if at <= |b| then b[at..] else []
  }

  /** The file contents after writing `d` at position `at`; a gap past the end is zero-filled. */
  function Overwrite(b: Bytes, at: nat, d: Bytes): (r: Bytes)
    ensures d != [] && at + |d| >= |b| ==> |r| == at + |d|
    ensures at + |d| <= |b| ==> |r| == |b|
  {
    if d == [] then b
    else Before(b, at) + d + After(b, at + |d|)
  }

  /** Consecutive writes are one write. */
  lemma OverwriteTwice(b: Bytes, at: nat, d: Bytes, e: Bytes)
    ensures Overwrite(Overwrite(b, at, d), at + |d|, e) == Overwrite(b, at, d + e)
  {
    if d == [] {
      assert d + e == e;
    } else if e == [] {
      assert d + e == d;
    } else {
      var m := Overwrite(b, at, d);
      var p := Before(b, at);
      assert Before(m, at + |d|) == p + d;
      assert After(m, at + |d| + |e|) == After(b, at + |d| + |e|);
      assert p + d + e == p + (d + e);
    }
  }

  /** Where a stream stands, and whether it has not failed yet. */
  datatype Cursor = Cursor(pos: nat, good: bool) {
    function Seek(p: nat): Cursor {
      if good then Cursor(p, true) else this
    }
  }

  /** Reads over the buffer `into`. A short read keeps the tail of the buffer and fails the
      stream; a failed stream leaves the whole buffer alone. */
  function ReadOver(b: Bytes, c: Cursor, into: Bytes): (r: (Bytes, Cursor))
    ensures |r.0| == |into|
    ensures r.1.good ==> c.good && r.1.pos == c.pos + |into|
    ensures r.1.good && into != [] ==> c.pos + |into| <= |b| && r.0 == b[c.pos..c.pos + |into|]
    ensures c.good && c.pos + |into| <= |b| ==> r.1.good && r.0 == b[c.pos..c.pos + |into|]
  {
    if !c.good || into == [] then (into, c)
    else if c.pos + |into| <= |b| then (b[c.pos..c.pos + |into|], Cursor(c.pos + |into|, true))
    else if c.pos <= |b| then (b[c.pos..] + into[|b| - c.pos..], Cursor(|b|, false))
    else (into, Cursor(c.pos, false))
  }

  class FileStream {
    var bytes: Bytes
    var cursor: Cursor

    constructor (content: Bytes)
      ensures bytes == content && cursor == Cursor(0, true)
    {
      bytes, cursor := content, Cursor(0, true);
    }

    method Seek(p: nat)
      modifies this`cursor
      ensures cursor == old(cursor).Seek(p)
    {
      if cursor.good {
        cursor := Cursor(p, true);
      }
    }

    method SeekForward(n: nat)
      modifies this`cursor
      ensures cursor == old(cursor).Seek(old(cursor).pos + n)
    {
      Seek(cursor.pos + n);
    }

    method Tell() returns (p: int)
      ensures p == if cursor.good then cursor.pos else -1
    {
      p := if cursor.good then cursor.pos else -1;
    }

    method Read(into: Bytes) returns (r: Bytes)
      modifies this`cursor
      ensures (r, cursor) == ReadOver(bytes, old(cursor), into)
    {
      r := into;
      if cursor.good && into != [] {
        var available := if cursor.pos > |bytes| then 0 else |bytes| - cursor.pos;
        var n := if |into| <= available then |into| else available;
        if n > 0 {
          r := bytes[cursor.pos..cursor.pos + n] + into[n..];
        }
        assert into[0..] == into && into[|into|..] == [];
        if n == |into| {
          assert r == bytes[cursor.pos..cursor.pos + n];
        } else if cursor.pos <= |bytes| {
          assert r == bytes[cursor.pos..] + into[n..];
        }
        cursor := Cursor(cursor.pos + n, n == |into|);
      }
    }

    method Write(d: Bytes)
      modifies this
      ensures old(cursor).good ==>
        bytes == Overwrite(old(bytes), old(cursor).pos, d) &&
        cursor == Cursor(old(cursor).pos + |d|, true)
      ensures !old(cursor).good ==> bytes == old(bytes) && cursor == old(cursor)
    {
      if cursor.good {
        bytes := Overwrite(bytes, cursor.pos, d);
        cursor := Cursor(cursor.pos + |d|, true);
      }
    }
  }
}
