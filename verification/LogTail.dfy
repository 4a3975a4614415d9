/**
 The reader that follows a log file: an object polled once per tick, which keeps the
 file open, how far it has read, and the fragment of a line it has not seen the end
 of. One poll is a function of that and of what the system calls answer.
 */
module LogTails {
  import opened Text
  import opened Wrappers
  import opened LogLines

  const MaxBytesPerTick: nat := 8 * 1024 * 1024

  // ---------------------------------------------------------------------
  // The reader
  // ---------------------------------------------------------------------

  // A file object, which keeps existing when its name is given to another.
  type FileId = nat

  // What fileIdentity reads off a file. A zero inode is "never opened".
  datatype Identity = Identity(device: nat, inode: nat)

  datatype Opened = Opened(file: FileId, id: Identity, size: nat)

  // What the system calls of one poll answer; None is an error.
  datatype Sight = Sight(
    named: Option<Identity>,   // os.Stat of the path
    found: Option<Opened>,     // os.Open of the path and Stat of the result
    size: Option<nat>,         // Stat of the file now open
    seekable: bool,            // Seek succeeds
    content: string            // its bytes, up to where the reader stopped
  )

  datatype PollError = OpenFailed | StatFailed | SeekFailed

  datatype Tail = Tail(file: Option<FileId>, id: Identity, offset: nat, partial: string)

  const Unopened: Tail := Tail(None, Identity(0, 0), 0, "")

  predicate Keeps(t: Tail, s: Sight) { t.file.Some? && s.named == Some(t.id) }

  // The open file after ensureOpen: kept, replaced, or none.
  function EnsuredOpen(t: Tail, s: Sight): Tail {
    if Keeps(t, s) then t
    else match s.found
      case None => t.(file := None)
      case Some(o) => Tail(Some(o.file), o.id, if t.id.inode == 0 then o.size else 0, "")
  }

  // Where reading starts: back at zero if the file shrank, then no further behind
  // its end than a tick may catch up.
  function Positioned(t: Tail, size: nat): Tail {
    var u := if size < t.offset then t.(offset := 0, partial := "") else t;
    if size - u.offset > MaxBytesPerTick then u.(offset := size - MaxBytesPerTick, partial := "") else u
  }

  function BytesFrom(content: string, offset: nat): string {
    if offset <= |content| then content[offset..] else ""
  }

  function Polled(t: Tail, s: Sight): (Tail, Result<seq<string>, PollError>) {
    var o := EnsuredOpen(t, s);
    if o.file.None? then (o, Err(OpenFailed))
    else match s.size
      case None => (o.(file := None), Err(StatFailed))
      case Some(size) =>
        var u := Positioned(o, size);
        if size == u.offset then (u, Ok([]))
        else if !s.seekable then (u.(file := None), Err(SeekFailed))
        else
          var bytes := BytesFrom(s.content, u.offset);
          var (lines, fragment) := Feed(u.partial, bytes);
          (u.(offset := u.offset + |bytes|, partial := Carry(fragment)), Ok(lines))
  }

  // A poll fails if and only if it leaves no file open.
  lemma FailsExactly(t: Tail, s: Sight)
    ensures Polled(t, s).1.Err? <==> Polled(t, s).0.file.None?
  {
    hide Feed;
  }

  class LogTail {
    var file: Option<FileId>
    var inode: nat
    var device: nat
    var offset: nat
    var partial: string

    function Now(): Tail
      reads this
    {
      Tail(file, Identity(device, inode), offset, partial)
    }

    constructor ()
      ensures Now() == Unopened
    {
      file, inode, device, offset, partial := None, 0, 0, 0, "";
    }

    method Close()
      modifies this`file
      ensures file == None
    {
      file := None;
    }

    method Rotated(s: Sight) returns (rotated: bool, failed: bool)
      ensures failed <==> s.named.None?
      ensures !failed ==> (rotated <==> s.named.value != Identity(device, inode))
    {
      match s.named {
        case None => return true, true;
        case Some(id) => return id.device != device || id.inode != inode, false;
      }
    }

    method EnsureOpen(s: Sight) returns (ok: bool)
      modifies this
      ensures Now() == EnsuredOpen(old(Now()), s)
      ensures ok <==> Now().file.Some?
    {
      if file.Some? {
        var rotated, failed := Rotated(s);
        if !failed && !rotated {
          return true;
        }
        Close();
      }
      if s.found.None? {
        return false;
      }
      var firstOpen := inode == 0;
      file := Some(s.found.value.file);
      device, inode := s.found.value.id.device, s.found.value.id.inode;
      partial := "";
      if firstOpen {
        offset := s.found.value.size;
      } else {
        offset := 0;
      }
      return true;
    }

    method ReadNewLines(s: Sight) returns (r: Result<seq<string>, PollError>)
      modifies this
      ensures (Now(), r) == Polled(old(Now()), s)
    {
      var ok := EnsureOpen(s);
      if !ok {
        return Err(OpenFailed);
      }
      if s.size.None? {
        Close();
        return Err(StatFailed);
      }
      var size := s.size.value;
      if size < offset {
        offset := 0;
        partial := "";
      }
      if size == offset {
        return Ok([]);
      }
      if size - offset > MaxBytesPerTick {
        offset := size - MaxBytesPerTick;
        partial := "";
      }
      if !s.seekable {
        Close();
        return Err(SeekFailed);
      }
      var left := BytesFrom(s.content, offset);
      hide Feed, TrimRight;
      var lines, read := [], 0;
      ghost var whole, all := left, Feed(partial, left);
      assert lines + all.0 == all.0;
      while true
        invariant read + |left| == |whole|
        invariant lines + Feed(partial, left).0 == all.0 && Feed(partial, left).1 == all.1
        decreases |left|
        modifies this`partial
      {
        var i := IndexByte(left, '\n');
        if i < 0 {
          FeedEnds(partial, left);
          read := read + |left|;
          partial := partial + left;
          assert lines + [] == lines;
          if |partial| > MaxLineBytes {
            partial := "";
          }
          break;
        }
        FeedStep(lines, partial, left);
        var chunk := left[..i + 1];
        read := read + |chunk|;
        var line := partial + TrimRight(chunk, {'\r', '\n'});
        partial := "";
        if line != "" {
          lines := lines + [line];
        }
        left := left[i + 1..];
      }
      offset := offset + read;
      return Ok(lines);
    }
  }
}
