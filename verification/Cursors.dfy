/** The reader over one received payload, and the readers of single chunks. */
module Cursors {
  import opened Bytes
  import opened Errors
  import opened Marshal
  import opened View

  /** A byte slice is never longer than `isize::MAX`. */
  type Payload = b: bytes | |b| < 0x8000_0000_0000_0000

  function Lift<T>(r: Read<T>): Result<T> {
    match r
    case Bad(reason, _) => Err(Protocol(reason))
    case Got(value, _) => Ok(value)
  }

  class Cursor {
    const buf: Payload
    var pos: nat

    constructor (buf: Payload)
      ensures this.buf == buf && pos == 0
    {
      this.buf := buf;
      pos := 0;
    }

    predicate IsExhausted()
      reads this
    {
      pos == |buf|
    }

    /** Whether `n` more bytes are there; the sum is checked for overflow. */
    predicate Need(n: nat)
      reads this
    {
      pos + n < WORD_LIMIT && pos + n <= |buf|
    }

    method ReadRaw(n: nat) returns (r: Result<bytes>)
      modifies this
      ensures old(pos) + n <= |buf| ==> r == Ok(buf[old(pos)..old(pos) + n]) && pos == old(pos) + n
      ensures old(pos) + n > |buf| ==> r == Err(Protocol(Truncated)) && pos == old(pos)
    {
      if !Need(n) { return Err(Protocol(Truncated)); }
      var b := buf[pos..pos + n];
      pos := pos + n;
      return Ok(b);
    }

    method ChunkHeader() returns (r: Result<(nat, nat)>)
      modifies this
      ensures var h := ReadHeader(buf, old(pos)); r == Lift(h) && pos == h.pos
    {
      var pad := AlignUp(pos, PTR) - pos;
      pos := pos + pad;
      if !Need(2 * PTR) { return Err(Protocol(Truncated)); }
      var orig := Slot(buf, pos);
      var size := Slot(buf, pos + PTR);
      pos := pos + 2 * PTR;
      return Ok((orig, size));
    }

    method Leaf() returns (r: Result<(nat, bytes)>)
      modifies this
      ensures var l := ReadLeaf(buf, old(pos));
              && pos == l.pos
              && r == if l.Bad? then Err(Protocol(l.reason)) else Ok((l.value.orig, l.value.body))
    {
      var head :- ChunkHeader();
      var (orig, declaredSize) := head;
      if declaredSize < 2 * PTR { return Err(Protocol(LeafTooSmall)); }
      var content :- ReadRaw(declaredSize - 2 * PTR);
      return Ok((orig, content));
    }
  }

  /** A struct chunk: exactly `size_of` the struct after the header, whatever the header declares beyond that. */
  method ReadChunkPod(cursor: Cursor, ty: Ty) returns (r: Result<bytes>)
    modifies cursor
    ensures var p := ReadPod(cursor.buf, old(cursor.pos), Size(ty));
            && cursor.pos == p.pos
            && r == if p.Bad? then Err(Protocol(p.reason)) else Ok(p.value.1)
    ensures r.Ok? ==> |r.value| == Size(ty)
  {
    var head :- cursor.ChunkHeader();
    var n := Size(ty);
    if head.1 < 2 * PTR + n { return Err(Protocol(StructTooSmall)); }
    var content :- cursor.ReadRaw(n);
    return Ok(content);
  }

  /** What a pointer field of a closed type contributes: nothing, or the chunk that follows. */
  function OptWalk(ty: Ty, buf: bytes, pos: nat, ptr: nat): (r: Read<Kid>)
    ensures r.Got? && pos <= |buf| ==> pos <= r.pos <= |buf|
  {
    if ptr == 0 then Got(Absent, pos)
    else
      var (s, p) :- Walk(ty, buf, pos, map[]);
      Got(Child(s.item), p)
  }

  method ReadOptCString(cursor: Cursor, ptr: nat) returns (r: Result<Option<bytes>>)
    modifies cursor
    ensures var o := OptWalk(CString, cursor.buf, old(cursor.pos), ptr);
            && cursor.pos == o.pos
            && r == if o.Bad? then Err(Protocol(o.reason)) else Ok(TextOf(o.value))
  {
    if ptr == 0 { return Ok(None); }
    var leaf :- cursor.Leaf();
    var body := leaf.1;
    if body != [] && body[|body| - 1] == 0 { body := body[..|body| - 1]; }
    return Ok(Some(body));
  }

  method ReadOptBytes(cursor: Cursor, ptr: nat) returns (r: Result<Option<bytes>>)
    modifies cursor
    ensures var o := OptWalk(Blob, cursor.buf, old(cursor.pos), ptr);
            && cursor.pos == o.pos
            && r == if o.Bad? then Err(Protocol(o.reason)) else Ok(BytesOf(o.value))
  {
    if ptr == 0 { return Ok(None); }
    var leaf :- cursor.Leaf();
    return Ok(Some(leaf.1));
  }

  /** The marker header of an embedded struct; its size is not checked. */
  method ConsumeSubstructMarker(cursor: Cursor) returns (r: Result<()>)
    modifies cursor
    ensures var h := ReadHeader(cursor.buf, old(cursor.pos));
            cursor.pos == h.pos && r == if h.Bad? then Err(Protocol(h.reason)) else Ok(())
  {
    var _ :- cursor.ChunkHeader();
    return Ok(());
  }
}
