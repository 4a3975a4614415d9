/**
 The log reader in a world that appends to files, truncates them, gives the log's
 name to other files, and whose system calls may fail: what any run delivers.
 */
module LogRuns {
  import opened Text
  import opened Wrappers
  import opened LogLines
  import opened LogTails

  datatype File = File(id: Identity, data: string)

  // One read: `from` is where the reader stood, `size` what it took the file's
  // size to be, `lo` where it sought to, `hi` where it stopped; `carried` is the
  // fragment it joined the bytes to.
  datatype Read = Read(session: nat, file: FileId, from: nat, size: nat, lo: nat, hi: nat,
                       carried: string, bytes: string, lines: seq<string>)

  // A session starts with every open and with every shrink the reader observes;
  // sessions[i] is the file session i reads.
  datatype System = System(
    files: seq<File>,
    path: Option<FileId>,
    tail: Tail,
    sessions: seq<FileId>,
    log: seq<Read>
  )

  // Which of a poll's system calls work.
  datatype Faults = Faults(named: bool, open: bool, size: bool, seek: bool)

  const NoFaults: Faults := Faults(true, true, true, true)

  datatype Step =
    | Append(file: FileId, bytes: string)
    | Truncate(file: FileId, length: nat)
    | Rotate(id: Identity)             // a new, empty file takes the name
    | Point(path: Option<FileId>)      // the name moves to another file, or is lost
    | Poll(faults: Faults, late: string, stop: nat)
      // `late` arrives between the size check and the read, which stops at `stop`

  function Min(a: nat, b: nat): nat { if a < b then a else b }

  function NamedFile(s: System): Option<FileId> {
    if s.path.Some? && s.path.value < |s.files| then s.path else None
  }

  predicate IsOpen(s: System) { s.tail.file.Some? && s.tail.file.value < |s.files| }

  function OpenData(s: System): string
    requires IsOpen(s)
  {
    s.files[s.tail.file.value].data
  }

  function WithData(s: System, f: FileId, data: string): System {
    if f < |s.files| then s.(files := s.files[f := s.files[f].(data := data)]) else s
  }

  // --- one poll, stage by stage -------------------------------------------

  // What the system calls about the path answer.
  function Seen(s: System, faults: Faults): Sight {
    match NamedFile(s)
    case None => Sight(None, None, None, faults.seek, "")
    case Some(f) =>
      var file := s.files[f];
      Sight(if faults.named then Some(file.id) else None,
            if faults.open then Some(Opened(f, file.id, |file.data|)) else None,
            None, faults.seek, "")
  }

  function Reopen(s: System, faults: Faults): System {
    var t := EnsuredOpen(s.tail, Seen(s, faults));
    if Keeps(s.tail, Seen(s, faults)) || t.file.None? then s.(tail := t)
    else s.(tail := t, sessions := s.sessions + [t.file.value])
  }

  function NoticeShrink(s: System): System
    requires IsOpen(s)
  {
    if |OpenData(s)| < s.tail.offset then
      s.(tail := s.tail.(offset := 0, partial := ""), sessions := s.sessions + [s.tail.file.value])
    else s
  }

  function ReadOn(s: System, seek: bool, late: string, stop: nat): System
    requires IsOpen(s) && s.sessions != []
  {
    var f, size, from := s.tail.file.value, |OpenData(s)|, s.tail.offset;
    var u := Positioned(s.tail, size);
    if size == u.offset then s.(tail := u)
    else if !seek then s.(tail := u.(file := None))
    else
      var data := OpenData(s) + late;
      var bytes := BytesFrom(data[..Min(stop, |data|)], u.offset);
      var (lines, fragment) := Feed(u.partial, bytes);
      var read := Read(|s.sessions| - 1, f, from, size, u.offset, u.offset + |bytes|, u.partial, bytes, lines);
      WithData(s, f, data).(tail := u.(offset := u.offset + |bytes|, partial := Carry(fragment)),
                            log := s.log + [read])
  }

  function AfterPoll(s: System, faults: Faults, late: string, stop: nat): System {
    var o := Reopen(s, faults);
    if !IsOpen(o) || o.sessions == [] then o
    else if !faults.size then o.(tail := o.tail.(file := None))
    else ReadOn(NoticeShrink(o), faults.seek, late, stop)
  }

  function Apply(s: System, step: Step): System {
    match step
    case Append(f, bytes) => if f < |s.files| then WithData(s, f, s.files[f].data + bytes) else s
    case Truncate(f, n) =>
      if f < |s.files| then WithData(s, f, s.files[f].data[..Min(n, |s.files[f].data|)]) else s
    case Rotate(id) => s.(files := s.files + [File(id, "")], path := Some(|s.files|))
    case Point(path) => s.(path := path)
    case Poll(faults, late, stop) => AfterPoll(s, faults, late, stop)
  }

  function Run(s: System, steps: seq<Step>): System {
    if steps == [] then s else Apply(Run(s, steps[..|steps| - 1]), steps[|steps| - 1])
  }

  ghost predicate Initial(s: System) {
    s.tail == Unopened && s.sessions == [] && s.log == []
  }

  // ---------------------------------------------------------------------
  // The stages are what the reader does
  // ---------------------------------------------------------------------

  // Everything one poll's system calls answer.
  function SightOf(s: System, faults: Faults, late: string, stop: nat): Sight {
    var o := Reopen(s, faults);
    if !IsOpen(o) then Seen(s, faults)
    else
      var data := OpenData(o) + late;
      Seen(s, faults).(size := if faults.size then Some(|OpenData(o)|) else None,
                       content := data[..Min(stop, |data|)])
  }

  // The staged poll leaves the reader in the state its own code computes, and
  // the read it logs, if any, holds the lines that code returns.
  lemma PollIsReader(s: System, faults: Faults, late: string, stop: nat)
    requires Inv(s)
    ensures var (t, outcome) := Polled(s.tail, SightOf(s, faults, late, stop));
            var after := AfterPoll(s, faults, late, stop);
            && after.tail == t
            && (after.log == s.log ==> outcome.Err? || outcome == Ok([]))
            && (after.log != s.log ==>
                  |after.log| == |s.log| + 1 && outcome == Ok(after.log[|s.log|].lines))
  {
    hide Feed, LogOk, Positions;
    var sight := SightOf(s, faults, late, stop);
    assert EnsuredOpen(s.tail, sight) == EnsuredOpen(s.tail, Seen(s, faults));
    ReopenKeeps(s, faults);
    var o := Reopen(s, faults);
    assert o.tail == EnsuredOpen(s.tail, sight);
    if IsOpen(o) && faults.size {
      var size := |OpenData(o)|;
      assert Positioned(NoticeShrink(o).tail, size) == Positioned(o.tail, size);
    }
  }

  // ---------------------------------------------------------------------
  // What every run keeps
  // ---------------------------------------------------------------------

  ghost predicate ReadOk(sessions: seq<FileId>, r: Read) {
    && r.session < |sessions| && sessions[r.session] == r.file
    && r.lo == (if r.size - r.from > MaxBytesPerTick then r.size - MaxBytesPerTick else r.from)
    && r.from <= r.size && r.hi == r.lo + |r.bytes|
    && r.lines == Feed(r.carried, r.bytes).0
    && '\n' !in r.carried
  }

  // A session's first read carries nothing, and starts at byte 0 unless it is the
  // first open of all.
  ghost predicate StartsFresh(q: Read) { q.carried == "" && (q.session > 0 ==> q.from == 0) }

  // The next read of the same session resumes exactly where this one stopped and
  // carries its fragment, which only the catch-up jump drops; that of a later session
  // starts afresh.
  ghost predicate Resumes(r: Read, q: Read) {
    && r.session <= q.session
    && (r.session == q.session ==>
          && q.from == r.hi
          && q.carried == if q.lo == q.from then Carry(Feed(r.carried, r.bytes).1) else "")
    && (r.session < q.session ==> StartsFresh(q))
  }

  ghost predicate LogOk(sessions: seq<FileId>, log: seq<Read>) {
    && (forall i :: 0 <= i < |log| ==> ReadOk(sessions, log[i]))
    && (forall i :: 0 < i < |log| ==> Resumes(log[i - 1], log[i]))
    && (log != [] ==> StartsFresh(log[0]))
  }

  // The current session has been read from.
  ghost predicate Reading(s: System) {
    s.log != [] && s.log[|s.log| - 1].session == |s.sessions| - 1
  }

  // Where the reader stands: after the last read of its session, or at its start.
  ghost predicate Positions(s: System) {
    if Reading(s) then
      var last := s.log[|s.log| - 1];
      s.tail.offset == last.hi && s.tail.partial == Carry(Feed(last.carried, last.bytes).1)
    else
      s.tail.partial == "" && (|s.sessions| > 1 ==> s.tail.offset == 0)
  }

  ghost predicate TailOk(s: System) {
    && '\n' !in s.tail.partial
    && (s.sessions == [] ==> s.tail == Unopened)
    && (s.sessions != [] ==> s.tail.id.inode != 0)
    && (s.tail.file.Some? ==>
          && IsOpen(s) && s.tail.id == s.files[s.tail.file.value].id
          && s.sessions != [] && s.sessions[|s.sessions| - 1] == s.tail.file.value
          && Positions(s))
  }

  // Files on disk have inode numbers other than zero.
  ghost predicate RealFiles(files: seq<File>) {
    forall f :: 0 <= f < |files| ==> files[f].id.inode != 0
  }

  ghost predicate Inv(s: System) { RealFiles(s.files) && TailOk(s) && LogOk(s.sessions, s.log) }

  lemma LogOkAt(sessions: seq<FileId>, log: seq<Read>, i: nat)
    requires LogOk(sessions, log) && i < |log|
    ensures ReadOk(sessions, log[i])
    ensures i > 0 ==> Resumes(log[i - 1], log[i])
    ensures i == 0 ==> StartsFresh(log[i])
  {
    hide ReadOk, Resumes;
  }

  lemma LogOkMore(sessions: seq<FileId>, log: seq<Read>, f: FileId)
    requires LogOk(sessions, log)
    ensures LogOk(sessions + [f], log)
  {
    forall i | 0 <= i < |log| ensures ReadOk(sessions + [f], log[i]) {
      assert ReadOk(sessions, log[i]);
    }
  }

  lemma ReopenKeeps(s: System, faults: Faults)
    requires Inv(s)
    ensures Inv(Reopen(s, faults))
    ensures Reopen(s, faults).log == s.log && Reopen(s, faults).files == s.files
  {
    var o := Reopen(s, faults);
    if o.sessions != s.sessions {
      LogOkMore(s.sessions, s.log, o.tail.file.value);
      assert !Reading(o) by {
        if s.log != [] { assert ReadOk(s.sessions, s.log[|s.log| - 1]); }
      }
    }
  }

  lemma ShrinkKeeps(s: System)
    requires Inv(s) && IsOpen(s)
    ensures Inv(NoticeShrink(s)) && IsOpen(NoticeShrink(s))
    ensures NoticeShrink(s).log == s.log && NoticeShrink(s).files == s.files
    ensures NoticeShrink(s).tail.offset <= |OpenData(s)|
  {
    var t := NoticeShrink(s);
    if t != s {
      LogOkMore(s.sessions, s.log, s.tail.file.value);
      if s.log != [] { assert ReadOk(s.sessions, s.log[|s.log| - 1]); }
    }
  }

  lemma FragmentHasNoNewline(partial: string, bytes: string)
    requires '\n' !in partial
    ensures '\n' !in Feed(partial, bytes).1
  {
    FeedAgrees(partial, bytes);
  }

  lemma LogOkSnoc(sessions: seq<FileId>, log: seq<Read>, r: Read)
    requires LogOk(sessions, log) && ReadOk(sessions, r)
    requires log != [] ==> Resumes(log[|log| - 1], r)
    requires log == [] ==> StartsFresh(r)
    ensures LogOk(sessions, log + [r])
  {
    hide ReadOk, Resumes;
    var all := log + [r];
    assert forall i :: 0 <= i < |log| ==> all[i] == log[i];
    forall i | 0 <= i < |all| ensures ReadOk(sessions, all[i]) {
      if i < |log| { assert ReadOk(sessions, log[i]); }
    }
    forall i | 0 < i < |all| ensures Resumes(all[i - 1], all[i]) {
      if i < |log| { assert Resumes(log[i - 1], log[i]); }
    }
  }

  lemma ReadOnKeeps(s: System, seek: bool, late: string, stop: nat)
    requires Inv(s) && IsOpen(s) && s.tail.offset <= |OpenData(s)|
    ensures Inv(ReadOn(s, seek, late, stop))
  {
    hide LogOk, Feed;
    var after := ReadOn(s, seek, late, stop);
    if after.log != s.log {
      var r := after.log[|s.log|];
      FragmentHasNoNewline(r.carried, r.bytes);
      if s.log != [] { LastRead(s); }
      LogOkSnoc(s.sessions, s.log, r);
    }
  }

  lemma LastRead(s: System)
    requires LogOk(s.sessions, s.log) && s.log != []
    ensures ReadOk(s.sessions, s.log[|s.log| - 1])
  {
  }

  lemma PollKeeps(s: System, faults: Faults, late: string, stop: nat)
    requires Inv(s)
    ensures Inv(AfterPoll(s, faults, late, stop))
  {
    hide LogOk, ReadOn, Reopen, Positions;
    ReopenKeeps(s, faults);
    var o := Reopen(s, faults);
    if IsOpen(o) && faults.size {
      ShrinkKeeps(o);
      ReadOnKeeps(NoticeShrink(o), faults.seek, late, stop);
    }
  }

  lemma StepKeeps(s: System, step: Step)
    requires Inv(s)
    requires step.Rotate? ==> step.id.inode != 0
    ensures Inv(Apply(s, step))
  {
    hide LogOk, AfterPoll, Positions;
    if step.Poll? {
      PollKeeps(s, step.faults, step.late, step.stop);
    } else {
      PositionsUnmoved(s, Apply(s, step));
    }
  }

  lemma PositionsUnmoved(s: System, t: System)
    requires t.log == s.log && t.sessions == s.sessions && t.tail == s.tail
    ensures Positions(s) <==> Positions(t)
  {
  }

  ghost predicate RealSteps(steps: seq<Step>) {
    forall i :: 0 <= i < |steps| && steps[i].Rotate? ==> steps[i].id.inode != 0
  }

  lemma {:induction false} RunKeeps(s: System, steps: seq<Step>)
    requires Inv(s) && RealSteps(steps)
    ensures Inv(Run(s, steps))
  {
    if steps != [] {
      RunKeeps(s, steps[..|steps| - 1]);
      StepKeeps(Run(s, steps[..|steps| - 1]), steps[|steps| - 1]);
    }
  }

  // ---------------------------------------------------------------------
  // What a run delivers
  // ---------------------------------------------------------------------

  // Within a session the ranges read are disjoint and increasing.
  lemma {:induction false} SessionRangesIncrease(s: System, i: nat, j: nat)
    requires LogOk(s.sessions, s.log) && i < j < |s.log|
    ensures s.log[i].session <= s.log[j].session
    ensures s.log[i].session == s.log[j].session ==> s.log[i].hi <= s.log[j].from <= s.log[j].lo
    decreases j
  {
    hide LogOk;
    LogOkAt(s.sessions, s.log, j - 1);
    LogOkAt(s.sessions, s.log, j);
    if i < j - 1 {
      SessionRangesIncrease(s, i, j - 1);
    }
  }

  function Bytes(log: seq<Read>): seq<string> {
    if log == [] then [] else Bytes(log[..|log| - 1]) + [log[|log| - 1].bytes]
  }

  function AllLines(log: seq<Read>): seq<string> {
    if log == [] then [] else AllLines(log[..|log| - 1]) + log[|log| - 1].lines
  }

  // Reads i to j are all of one session, the first carries nothing, and none of the
  // others skips.
  ghost predicate Unbroken(s: System, i: nat, j: nat) {
    && i < j <= |s.log|
    && s.log[i].carried == ""
    && s.log[j - 1].session == s.log[i].session
    && forall k :: i < k < j ==> s.log[k].lo == s.log[k].from
  }

  // Such a stretch can begin where a session does, and after every catch-up jump.
  lemma StretchBegins(s: System, i: nat)
    requires LogOk(s.sessions, s.log) && i < |s.log|
    requires i == 0 || s.log[i - 1].session < s.log[i].session || s.log[i].lo != s.log[i].from
    ensures s.log[i].carried == "" && Unbroken(s, i, i + 1)
  {
    hide LogOk;
    LogOkAt(s.sessions, s.log, i);
  }

  lemma {:induction false} FeedAllSnoc(partial: string, chunks: seq<string>, chunk: string)
    ensures var (lines, held) := FeedAll(partial, chunks);
            && FeedAll(partial, chunks + [chunk]).0 == lines + Feed(held, chunk).0
            && FeedAll(partial, chunks + [chunk]).1 == Carry(Feed(held, chunk).1)
    decreases chunks
  {
    hide Feed;
    var whole := chunks + [chunk];
    if chunks == [] {
      assert whole[1..] == [];
    } else {
      var next := Carry(Feed(partial, chunks[0]).1);
      assert whole[0] == chunks[0] && whole[1..] == chunks[1..] + [chunk];
      FeedAllSnoc(next, chunks[1..], chunk);
    }
  }

  lemma SessionMiddle(s: System, i: nat, j: nat)
    requires LogOk(s.sessions, s.log) && Unbroken(s, i, j)
    ensures s.log[j - 1].lines == Feed(s.log[j - 1].carried, s.log[j - 1].bytes).0
    ensures j > i + 1 ==>
              && Unbroken(s, i, j - 1)
              && s.log[j - 1].carried == Carry(Feed(s.log[j - 2].carried, s.log[j - 2].bytes).1)
  {
    hide Feed, LogOk;
    LogOkAt(s.sessions, s.log, j - 1);
    if j > i + 1 {
      SessionRangesIncrease(s, i, j - 1);
      if j - 2 > i { SessionRangesIncrease(s, i, j - 2); }
      SessionRangesIncrease(s, j - 2, j - 1);
    }
  }

  // A session's reads are one feeding of its bytes, poll by poll.
  lemma {:induction false} SessionIsFeeding(s: System, i: nat, j: nat)
    requires LogOk(s.sessions, s.log) && Unbroken(s, i, j)
    ensures var last := s.log[j - 1];
            FeedAll("", Bytes(s.log[i..j])) == (AllLines(s.log[i..j]), Carry(Feed(last.carried, last.bytes).1))
    decreases j
  {
    hide Feed, LogOk, FeedAll;
    var before, last := s.log[i..j - 1], s.log[j - 1];
    assert s.log[i..j] == before + [last];
    SessionMiddle(s, i, j);
    FeedAllSnoc("", Bytes(before), last.bytes);
    if j == i + 1 {
      assert before == [];
      NothingFed("");
    } else {
      SessionIsFeeding(s, i, j - 1);
    }
  }

  lemma NothingFed(partial: string)
    ensures FeedAll(partial, []) == ([], partial)
  {
  }

  // Whatever happened before, the lines of an unbroken stretch are those of one cut of
  // its bytes, if and only if it dropped the beginning of none.
  lemma SessionLines(s: System, i: nat, j: nat)
    requires Inv(s) && Unbroken(s, i, j)
    ensures Tidy(AllLines(s.log[i..j])) == Tidy(Lines(Flatten(Bytes(s.log[i..j]))))
            <==> NothingLost("", Bytes(s.log[i..j]))
  {
    hide NothingLost, Tidy, Lines;
    SessionIsFeeding(s, i, j);
    LinesKeptExactly("", Bytes(s.log[i..j]));
    assert "" + Flatten(Bytes(s.log[i..j])) == Flatten(Bytes(s.log[i..j]));
  }

  // --- one file that only grows -------------------------------------------

  ghost predicate GrowthStep(s: System, step: Step) {
    || step.Append?
    || (step.Poll? && step.faults == NoFaults && IsOpen(s)
        && |OpenData(s)| - s.tail.offset <= MaxBytesPerTick)
  }

  // Only appends and faultless polls, none of them with too great a backlog.
  ghost predicate Growing(s: System, steps: seq<Step>) {
    forall i :: 0 <= i < |steps| ==> GrowthStep(Run(s, steps[..i]), steps[i])
  }

  // The reader has the named file open and stands inside it.
  ghost predicate Following(s: System) {
    IsOpen(s) && NamedFile(s) == s.tail.file && s.tail.offset <= |OpenData(s)|
  }

  // The reads t has that s had not yet made.
  function Since(s: System, t: System): seq<Read> {
    if |s.log| <= |t.log| then t.log[|s.log|..] else []
  }

  ghost predicate Advanced(s: System, t: System) {
    && Following(s) && Following(t) && t.tail.file == s.tail.file
    && OpenData(s) <= OpenData(t)
    && s.tail.offset <= t.tail.offset
    && s.log <= t.log
    && Flatten(Bytes(Since(s, t))) == OpenData(t)[s.tail.offset..t.tail.offset]
    && FeedAll(s.tail.partial, Bytes(Since(s, t))) == (AllLines(Since(s, t)), t.tail.partial)
  }

  // A faultless poll of a growing file reads on from where the last one stopped.
  lemma PollAdvances(t: System, late: string, stop: nat) returns (bytes: string)
    requires Inv(t) && Following(t) && |OpenData(t)| - t.tail.offset <= MaxBytesPerTick
    ensures var u := AfterPoll(t, NoFaults, late, stop);
            && Following(u) && u.tail.file == t.tail.file && OpenData(t) <= OpenData(u)
            && u.tail.offset == t.tail.offset + |bytes|
            && bytes == OpenData(u)[t.tail.offset..u.tail.offset]
            && (u.log == t.log ==> bytes == "" && u.tail == t.tail)
            && (u.log != t.log ==>
                  && |u.log| == |t.log| + 1 && u.log[..|t.log|] == t.log
                  && u.log[|t.log|].bytes == bytes && u.log[|t.log|].lines == Feed(t.tail.partial, bytes).0
                  && u.tail.partial == Carry(Feed(t.tail.partial, bytes).1))
  {
    hide Feed;
    assert Keeps(t.tail, Seen(t, NoFaults));
    assert Reopen(t, NoFaults) == t && NoticeShrink(t) == t;
    var u := AfterPoll(t, NoFaults, late, stop);
    if u.log == t.log {
      bytes := "";
    } else {
      bytes := u.log[|t.log|].bytes;
    }
  }

  lemma SnocReads(log: seq<Read>, r: Read)
    ensures Bytes(log + [r]) == Bytes(log) + [r.bytes]
    ensures AllLines(log + [r]) == AllLines(log) + r.lines
  {
    assert (log + [r])[..|log|] == log;
  }

  lemma ReadsAdvance(partial: string, before: seq<Read>, r: Read, held: string)
    requires FeedAll(partial, Bytes(before)) == (AllLines(before), held)
    requires r.lines == Feed(held, r.bytes).0
    ensures FeedAll(partial, Bytes(before + [r])) == (AllLines(before + [r]), Carry(Feed(held, r.bytes).1))
    ensures Flatten(Bytes(before + [r])) == Flatten(Bytes(before)) + r.bytes
  {
    hide Feed, FeedAll, Flatten;
    SnocReads(before, r);
    hide Bytes, AllLines;
    FlattenSnoc(Bytes(before), r.bytes);
    FeedAllSnoc(partial, Bytes(before), r.bytes);
  }

  lemma Advance(s: System, t: System, u: System, bytes: string)
    requires Advanced(s, t) && Following(u) && u.tail.file == t.tail.file && OpenData(t) <= OpenData(u)
    requires u.tail.offset == t.tail.offset + |bytes| && bytes == OpenData(u)[t.tail.offset..u.tail.offset]
    requires |u.log| == |t.log| + 1 && u.log[..|t.log|] == t.log
    requires u.log[|t.log|].bytes == bytes && u.log[|t.log|].lines == Feed(t.tail.partial, bytes).0
    requires u.tail.partial == Carry(Feed(t.tail.partial, bytes).1)
    ensures Advanced(s, u)
  {
    hide Feed, FeedAll, Flatten, Bytes, AllLines, Carry;
    var before, r := Since(s, t), u.log[|t.log|];
    assert Since(s, u) == before + [r];
    ReadsAdvance(s.tail.partial, before, r, t.tail.partial);
    SpanGrows(OpenData(t), OpenData(u), s.tail.offset, t.tail.offset, u.tail.offset);
    hide Since;
  }

  lemma SpanGrows(a: string, b: string, i: nat, j: nat, k: nat)
    requires a <= b && i <= j <= |a| && j <= k <= |b|
    ensures b[i..k] == a[i..j] + b[j..k]
  {
  }

  lemma AdvanceStep(s: System, t: System, step: Step)
    requires Inv(t) && Advanced(s, t) && GrowthStep(t, step)
    ensures Advanced(s, Apply(t, step))
  {
    hide Feed, FeedAll, Flatten, Bytes, AllLines, Inv, AfterPoll;
    if step.Poll? {
      var bytes := PollAdvances(t, step.late, step.stop);
      var u := Apply(t, step);
      if u.log == t.log {
        assert OpenData(u)[s.tail.offset..u.tail.offset] == OpenData(t)[s.tail.offset..t.tail.offset];
      } else {
        Advance(s, t, u, bytes);
      }
    } else {
      var u := Apply(t, step);
      assert OpenData(u)[s.tail.offset..u.tail.offset] == OpenData(t)[s.tail.offset..t.tail.offset];
    }
  }

  lemma GrowthIsNoRotation(s: System, step: Step)
    requires GrowthStep(s, step)
    ensures !step.Rotate?
  {
  }

  lemma NothingNew(s: System)
    requires Following(s)
    ensures Advanced(s, s)
  {
    assert Since(s, s) == [];
  }

  lemma {:induction false} GrowthAdvances(s: System, steps: seq<Step>)
    requires Inv(s) && Following(s) && Growing(s, steps)
    ensures Advanced(s, Run(s, steps)) && Inv(Run(s, steps))
  {
    hide Inv, Advanced, GrowthStep, Apply;
    if steps == [] {
      NothingNew(s);
    } else {
      var earlier := steps[..|steps| - 1];
      forall i | 0 <= i < |earlier| ensures GrowthStep(Run(s, earlier[..i]), earlier[i]) {
        assert steps[..i] == earlier[..i];
      }
      GrowthAdvances(s, earlier);
      GrowthIsNoRotation(Run(s, earlier), steps[|steps| - 1]);
      AdvanceStep(s, Run(s, earlier), steps[|steps| - 1]);
      StepKeeps(Run(s, earlier), steps[|steps| - 1]);
    }
  }

  // While one file only grows, the polls together report one cut of exactly the
  // bytes between where the reader stood and where it stands, however they fell, if and
  // only if none of them dropped the beginning of a line.
  lemma GrowingFile(s: System, steps: seq<Step>)
    requires Inv(s) && Following(s) && Growing(s, steps)
    ensures var t := Run(s, steps);
            && Following(t) && s.tail.offset <= t.tail.offset
            && var consumed, polls := s.tail.partial + OpenData(t)[s.tail.offset..t.tail.offset], Bytes(Since(s, t));
               && (Tidy(AllLines(Since(s, t))) == Tidy(Lines(consumed)) <==> NothingLost(s.tail.partial, polls))
               && (FragmentsFit(s.tail.partial, polls) ==>
                     NothingLost(s.tail.partial, polls) && t.tail.partial == Rest(consumed))
  {
    GrowthAdvances(s, steps);
    HeldNoNewline(s);
    hide Inv, Following, Run, Growing, NothingLost, FragmentsFit;
    var t := Run(s, steps);
    var polls := Bytes(Since(s, t));
    LinesKeptExactly(s.tail.partial, polls);
    if FragmentsFit(s.tail.partial, polls) {
      FitsLosesNothing(s.tail.partial, polls);
      ChunkingIndependent(s.tail.partial, polls);
    }
  }

  lemma HeldNoNewline(s: System)
    requires Inv(s)
    ensures '\n' !in s.tail.partial
  {
  }

  // --- rotation ------------------------------------------------------------

  // Once the name belongs to a file of another identity, the next poll opens that file
  // and reads it from its first byte, or as far back as the catch-up limit reaches;
  // what the old file still held, carried fragment included, is never delivered.
  lemma RotationReadsFromStart(s: System, late: string, stop: nat)
    requires Inv(s) && s.tail.file.Some? && NamedFile(s).Some?
    requires s.files[NamedFile(s).value].id != s.tail.id
    ensures var u, size := AfterPoll(s, NoFaults, late, stop), |s.files[NamedFile(s).value].data|;
            && u.tail.file == NamedFile(s)
            && (size == 0 ==> u.log == s.log && u.tail.offset == 0 && u.tail.partial == "")
            && (size > 0 ==>
                  && |u.log| == |s.log| + 1 && u.log[..|s.log|] == s.log
                  && var r := u.log[|s.log|];
                     && r.file == NamedFile(s).value && r.from == 0 && r.carried == ""
                     && r.lo == (if size > MaxBytesPerTick then size - MaxBytesPerTick else 0)
                     && IsOpen(u) && r.lo <= r.hi <= |OpenData(u)| && r.bytes == OpenData(u)[r.lo..r.hi]
                     && r.lines == Feed("", r.bytes).0)
  {
    hide Feed;
    ReopenKeeps(s, NoFaults);
  }

  // --- no byte twice -------------------------------------------------------

  // Exactly which sessions a poll starts, by what its system calls answer.
  lemma SessionsStarted(s: System, faults: Faults, late: string, stop: nat)
    requires Inv(s)
    ensures var kept := Keeps(s.tail, Seen(s, faults));
            var reopened := if !kept && NamedFile(s).Some? && faults.open then [NamedFile(s).value] else [];
            var shrunk := if kept && IsOpen(s) && faults.size && |OpenData(s)| < s.tail.offset
                          then [s.tail.file.value] else [];
            AfterPoll(s, faults, late, stop).sessions == s.sessions + reopened + shrunk
  {
    hide Feed, LogOk, Positions;
    ReopenKeeps(s, faults);
  }

  // A file that was never reopened and never seen to shrink delivers each of its
  // bytes at most once.
  lemma NoReplay(s: System, i: nat, j: nat)
    requires LogOk(s.sessions, s.log) && i < j < |s.log| && s.log[i].file == s.log[j].file
    requires forall a, b :: 0 <= a < b < |s.sessions| ==> s.sessions[a] != s.sessions[b]
    ensures s.log[i].hi <= s.log[j].lo
  {
    hide LogOk;
    LogOkAt(s.sessions, s.log, i);
    LogOkAt(s.sessions, s.log, j);
    SessionRangesIncrease(s, i, j);
  }

  // The name belongs to the file last read, at or before which the reader stands, and
  // the reader has it open or has closed it after a failed call.
  ghost predicate NamedAgain(s: System) {
    && s.sessions != [] && NamedFile(s) == Some(s.sessions[|s.sessions| - 1])
    && (s.tail.file.Some? ==> s.tail.file == NamedFile(s))
    && 0 < s.tail.offset <= |s.files[NamedFile(s).value].data|
  }

  // The condition is needed. While the name still belongs to the file last read, a
  // poll delivers bytes it had consumed already exactly when an earlier failure had
  // closed the file or its stat of the path fails, everything after that works, and the
  // read gets past where it starts again: at byte 0, or as far back as the catch-up
  // limit reaches.
  lemma ReplaysExactly(s: System, faults: Faults, late: string, stop: nat)
    requires Inv(s) && NamedAgain(s)
    ensures var u, f := AfterPoll(s, faults, late, stop), NamedFile(s).value;
            var size := |s.files[f].data|;
            var again := if size > MaxBytesPerTick then size - MaxBytesPerTick else 0;
            u.log != s.log && u.log[..|s.log|] == s.log && u.log[|s.log|].file == f
              && u.log[|s.log|].lo < s.tail.offset && u.log[|s.log|].bytes != ""
            <==> (s.tail.file.None? || !faults.named) && faults.open && faults.size && faults.seek
                 && again < s.tail.offset && again < stop
  {
    hide Feed;
    ReopenKeeps(s, faults);
  }

  // The file a poll would read: the one open if it is still the one named, else the one
  // named, reopened.
  function Target(s: System, faults: Faults): Option<FileId> {
    if Keeps(s.tail, Seen(s, faults)) then s.tail.file else if faults.open then NamedFile(s) else None
  }

  // Where the reader would stand in that file before any catch-up.
  function Stands(s: System, faults: Faults, size: nat): nat {
    if Keeps(s.tail, Seen(s, faults)) then (if size < s.tail.offset then 0 else s.tail.offset)
    else if s.tail.id.inode == 0 then size
    else 0
  }

  function CaughtUp(from: nat, size: nat): nat { if size - from > MaxBytesPerTick then size - MaxBytesPerTick else from }

  // Exactly when a poll reads, and what.
  lemma PollReadsExactly(s: System, faults: Faults, late: string, stop: nat)
    requires Inv(s)
    ensures var u, target := AfterPoll(s, faults, late, stop), Target(s, faults);
            && (target.Some? ==> target.value < |s.files|)
            && (u.log != s.log <==>
                  target.Some? && faults.size && faults.seek
                  && Stands(s, faults, |s.files[target.value].data|) != |s.files[target.value].data|)
            && (u.log != s.log ==>
                  && |u.log| == |s.log| + 1 && u.log[..|s.log|] == s.log
                  && var r, size := u.log[|s.log|], |s.files[target.value].data|;
                     var end := Min(stop, size + |late|);
                     && r.file == target.value && r.lo == CaughtUp(Stands(s, faults, size), size)
                     && r.hi == if r.lo < end then end else r.lo)
  {
    hide Feed, LogOk, Positions;
    ReopenKeeps(s, faults);
  }

  // And what it leaves: the file it would read, at the end of what it read or of the
  // file, or no file at all when a call failed that it could not do without.
  lemma PollLeavesExactly(s: System, faults: Faults, late: string, stop: nat)
    requires Inv(s)
    ensures var u, target := AfterPoll(s, faults, late, stop), Target(s, faults);
            && (target.Some? ==> target.value < |s.files|)
            && u.tail.file == (if target.None? || !faults.size then None
                               else if Stands(s, faults, |s.files[target.value].data|) == |s.files[target.value].data|
                                    || faults.seek then target else None)
            && (target.Some? ==> u.tail.id == s.files[target.value].id)
            && (u.tail.file.Some? ==>
                  u.tail.offset == if u.log == s.log then |s.files[target.value].data| else u.log[|u.log| - 1].hi)
  {
    hide Feed, LogOk, Positions;
    ReopenKeeps(s, faults);
  }

  // Two reads share bytes of one file.
  predicate Overlap(r: Read, q: Read) { r.file == q.file && r.lo < r.hi && q.lo < q.hi && r.lo < q.hi && q.lo < r.hi }

  // Some bytes of f between the two positions were delivered already.
  ghost predicate DeliveredWithin(log: seq<Read>, f: FileId, lo: nat, hi: nat) {
    exists i :: 0 <= i < |log| && log[i].file == f && log[i].lo < log[i].hi && log[i].lo < hi && lo < log[i].hi
  }

  // In any state at all: a poll delivers bytes of a file a second time if and only if it
  // gets to read and the span from where it stands to where it stops holds some that
  // were delivered before.
  lemma RedeliversExactly(s: System, faults: Faults, late: string, stop: nat)
    requires Inv(s)
    ensures var u, target := AfterPoll(s, faults, late, stop), Target(s, faults);
            (u.log != s.log && exists i :: 0 <= i < |s.log| && Overlap(s.log[i], u.log[|u.log| - 1]))
            <==>
            && target.Some? && target.value < |s.files| && faults.size && faults.seek
            && var size := |s.files[target.value].data|;
               var from, end := Stands(s, faults, size), Min(stop, size + |late|);
               && from != size && CaughtUp(from, size) < end
               && DeliveredWithin(s.log, target.value, CaughtUp(from, size), end)
  {
    hide Inv, AfterPoll, Target, Stands, CaughtUp;
    PollReadsExactly(s, faults, late, stop);
    var u := AfterPoll(s, faults, late, stop);
    if u.log != s.log {
      var r := u.log[|s.log|];
      hide Min;
      if i :| 0 <= i < |s.log| && Overlap(s.log[i], r) { assert s.log[i].file == r.file; }
      if r.lo < r.hi && DeliveredWithin(s.log, r.file, r.lo, r.hi) {
        var i :| 0 <= i < |s.log| && s.log[i].file == r.file && s.log[i].lo < s.log[i].hi
                 && s.log[i].lo < r.hi && r.lo < s.log[i].hi;
        assert Overlap(s.log[i], r);
      }
    }
  }
}
