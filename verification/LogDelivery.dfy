/**
 What the log reader delivers, in terms of the files: the lines of each session are
 those of a span of its file, and across a rotation those of the end of the old file
 and the beginning of the new one.
 */
module LogDeliveries {
  import opened Text
  import opened Wrappers
  import opened LogLines
  import opened LogTails
  import opened LogRuns

  // ---------------------------------------------------------------------
  // The bytes read are the file's
  // ---------------------------------------------------------------------

  ghost predicate FromFile(s: System, r: Read) {
    && r.file < |s.files| && r.lo <= r.hi <= |s.files[r.file].data|
    && r.bytes == s.files[r.file].data[r.lo..r.hi]
  }

  ghost predicate AllFromFiles(s: System) { forall i :: 0 <= i < |s.log| ==> FromFile(s, s.log[i]) }

  // No file has shrunk or gone, and none has changed but at its end.
  ghost predicate Grown(files: seq<File>, later: seq<File>) {
    |files| <= |later| && forall f :: 0 <= f < |files| ==> files[f].data <= later[f].data
  }

  lemma StillFromFile(s: System, t: System, r: Read)
    requires FromFile(s, r) && Grown(s.files, t.files)
    ensures FromFile(t, r)
  {
    assert s.files[r.file].data <= t.files[r.file].data;
  }

  lemma DataGrown(s: System, f: FileId, data: string)
    requires f < |s.files| && s.files[f].data <= data
    ensures Grown(s.files, WithData(s, f, data).files)
  {
  }

  // Whatever happened before and whichever calls fail, what a poll reads is its file's
  // bytes at that time.
  lemma PollReadsFile(s: System, faults: Faults, late: string, stop: nat)
    requires Inv(s)
    ensures var u := AfterPoll(s, faults, late, stop);
            && Grown(s.files, u.files)
            && (u.log != s.log ==> |u.log| == |s.log| + 1 && u.log[..|s.log|] == s.log && FromFile(u, u.log[|s.log|]))
  {
    hide Feed, Inv;
    var o := Reopen(s, faults);
    ReopenKeeps(s, faults);
    if IsOpen(o) && o.sessions != [] && faults.size {
      ShrinkKeeps(o);
      ReadReadsFile(NoticeShrink(o), faults.seek, late, stop);
    }
  }

  lemma ReadReadsFile(s: System, seek: bool, late: string, stop: nat)
    requires IsOpen(s) && s.sessions != [] && s.tail.offset <= |OpenData(s)|
    ensures var u := ReadOn(s, seek, late, stop);
            && Grown(s.files, u.files)
            && (u.log != s.log ==> |u.log| == |s.log| + 1 && u.log[..|s.log|] == s.log && FromFile(u, u.log[|s.log|]))
  {
    hide Feed;
    var u := ReadOn(s, seek, late, stop);
    if u.log != s.log {
      DataGrown(s, s.tail.file.value, OpenData(s) + late);
    }
  }

  lemma StepReadsFiles(s: System, step: Step)
    requires Inv(s) && AllFromFiles(s) && !step.Truncate?
    ensures AllFromFiles(Apply(s, step))
  {
    hide Inv, AfterPoll, FromFile;
    var t := Apply(s, step);
    if step.Poll? {
      PollReadsFile(s, step.faults, step.late, step.stop);
    } else if step.Append? && step.file < |s.files| {
      DataGrown(s, step.file, s.files[step.file].data + step.bytes);
    }
    assert Grown(s.files, t.files);
    hide Grown, Apply;
    forall i | 0 <= i < |t.log| ensures FromFile(t, t.log[i]) {
      if i < |s.log| {
        assert t.log[i] == s.log[i];
        StillFromFile(s, t, s.log[i]);
      }
    }
  }

  ghost predicate Untruncated(steps: seq<Step>) { forall i :: 0 <= i < |steps| ==> !steps[i].Truncate? }

  // In any run without truncation, with whatever rotations and failing calls, all that
  // was ever read is what the files hold at the end.
  lemma {:induction false} RunReadsFiles(s: System, steps: seq<Step>)
    requires Inv(s) && AllFromFiles(s) && RealSteps(steps) && Untruncated(steps)
    ensures AllFromFiles(Run(s, steps))
  {
    hide Inv, AllFromFiles, Apply;
    if steps != [] {
      var earlier := steps[..|steps| - 1];
      RunReadsFiles(s, earlier);
      RunKeeps(s, earlier);
      StepReadsFiles(Run(s, earlier), steps[|steps| - 1]);
    }
  }

  // ---------------------------------------------------------------------
  // The lines of a session are those of a span of its file
  // ---------------------------------------------------------------------

  lemma SameSession(s: System, i: nat, j: nat)
    requires LogOk(s.sessions, s.log) && Unbroken(s, i, j) && i + 1 < j
    ensures Unbroken(s, i, j - 1)
    ensures s.log[j - 1].file == s.log[i].file && s.log[j - 1].lo == s.log[j - 2].hi
  {
    hide LogOk, Feed, Carry;
    SessionMiddle(s, i, j);
    LogOkAt(s.sessions, s.log, i);
    LogOkAt(s.sessions, s.log, j - 1);
  }

  lemma Joined(data: string, i: nat, j: nat, k: nat)
    requires i <= j <= k <= |data|
    ensures data[i..j] + data[j..k] == data[i..k]
  {
  }

  lemma {:induction false} SessionSpan(s: System, i: nat, j: nat)
    requires Inv(s) && AllFromFiles(s) && Unbroken(s, i, j)
    ensures var f := s.log[i].file;
            && f < |s.files| && s.log[i].lo <= s.log[j - 1].hi <= |s.files[f].data|
            && s.log[j - 1].file == f
            && Flatten(Bytes(s.log[i..j])) == s.files[f].data[s.log[i].lo..s.log[j - 1].hi]
    decreases j
  {
    hide LogOk, Flatten, Bytes, AllFromFiles;
    var before, last := s.log[i..j - 1], s.log[j - 1];
    assert s.log[i..j] == before + [last];
    SnocReads(before, last);
    FlattenSnoc(Bytes(before), last.bytes);
    ReadAt(s, i);
    ReadAt(s, j - 1);
    if j == i + 1 {
      assert before == [];
      NothingRead();
      assert "" + last.bytes == last.bytes;
    } else {
      SameSession(s, i, j);
      SessionSpan(s, i, j - 1);
      Joined(s.files[last.file].data, s.log[i].lo, last.lo, last.hi);
    }
  }

  lemma ReadAt(s: System, i: nat)
    requires AllFromFiles(s) && i < |s.log|
    ensures FromFile(s, s.log[i])
  {
    hide FromFile;
  }

  lemma NothingRead()
    ensures Flatten(Bytes([])) == ""
  {
  }

  // After any run without truncation, an unbroken stretch of a session has reported the
  // lines of one cut of the span of its file it read, if and only if it dropped the
  // beginning of none.
  lemma SessionFileLines(s: System, steps: seq<Step>, i: nat, j: nat)
    requires Initial(s) && Inv(s) && RealSteps(steps) && Untruncated(steps) && Unbroken(Run(s, steps), i, j)
    ensures var t := Run(s, steps);
            var f, lo, hi := t.log[i].file, t.log[i].lo, t.log[j - 1].hi;
            && f < |t.files| && lo <= hi <= |t.files[f].data|
            && (Tidy(AllLines(t.log[i..j])) == Tidy(Lines(t.files[f].data[lo..hi])) <==>
                  NothingLost("", Bytes(t.log[i..j])))
  {
    hide Inv, Unbroken, NothingLost;
    RunKeeps(s, steps);
    RunReadsFiles(s, steps);
    hide AllFromFiles, Run;
    var t := Run(s, steps);
    SessionSpan(t, i, j);
    SessionLines(t, i, j);
  }

  // And they complete the lines of the file before it if and only if, besides, it did
  // not start inside a line.
  lemma SessionCompletesLines(s: System, steps: seq<Step>, i: nat, j: nat)
    requires Initial(s) && Inv(s) && RealSteps(steps) && Untruncated(steps) && Unbroken(Run(s, steps), i, j)
    ensures var t := Run(s, steps);
            var f, lo, hi := t.log[i].file, t.log[i].lo, t.log[j - 1].hi;
            && f < |t.files| && lo <= hi <= |t.files[f].data|
            && var data := t.files[f].data;
               Tidy(Lines(data[..hi])) == Tidy(Lines(data[..lo])) + Tidy(AllLines(t.log[i..j])) <==>
                 !Cuts(Rest(data[..lo]), data[lo..hi]) && NothingLost("", Bytes(t.log[i..j]))
  {
    hide Inv, Unbroken, NothingLost, Cuts, Lines, Tidy, Rest;
    RunKeeps(s, steps);
    RunReadsFiles(s, steps);
    hide AllFromFiles, Run;
    StretchCompletes(Run(s, steps), i, j);
  }

  lemma StretchCompletes(t: System, i: nat, j: nat)
    requires Inv(t) && AllFromFiles(t) && Unbroken(t, i, j)
    ensures var f, lo, hi := t.log[i].file, t.log[i].lo, t.log[j - 1].hi;
            && f < |t.files| && lo <= hi <= |t.files[f].data|
            && var data := t.files[f].data;
               Tidy(Lines(data[..hi])) == Tidy(Lines(data[..lo])) + Tidy(AllLines(t.log[i..j])) <==>
                 !Cuts(Rest(data[..lo]), data[lo..hi]) && NothingLost("", Bytes(t.log[i..j]))
  {
    hide Inv, AllFromFiles, NothingLost, Cuts, Lines, Tidy, Rest, Bytes, AllLines, Flatten;
    SessionSpan(t, i, j);
    StretchFed(t, i, j);
    var data, lo, hi := t.files[t.log[i].file].data, t.log[i].lo, t.log[j - 1].hi;
    LinesCompletedExactly(data[..lo], Bytes(t.log[i..j]));
    Joined(data, 0, lo, hi);
    assert data[0..lo] == data[..lo] && data[0..hi] == data[..hi];
  }

  lemma StretchFed(t: System, i: nat, j: nat)
    requires Inv(t) && Unbroken(t, i, j)
    ensures FeedAll("", Bytes(t.log[i..j])).0 == AllLines(t.log[i..j])
  {
    hide LogOk, Unbroken, FeedAll;
    SessionIsFeeding(t, i, j);
  }

  // One cut of a span of a file gives whole lines of the file if and only if the span
  // starts at the start of a line, or ends none.
  lemma WholeLinesDelivered(data: string, lo: nat, hi: nat)
    requires lo <= hi <= |data|
    ensures Lines(data[..hi]) == Lines(data[..lo]) + Lines(data[lo..hi])
       <==> (lo > 0 ==> data[lo - 1] == '\n') || '\n' !in data[lo..hi]
  {
    hide Lines;
    WholeLinesExactly(data[..lo], data[lo..hi]);
    assert data[..lo] + data[lo..hi] == data[..hi];
  }

  // ---------------------------------------------------------------------
  // Across a rotation
  // ---------------------------------------------------------------------

  lemma {:induction false} RunConcat(s: System, a: seq<Step>, b: seq<Step>)
    ensures Run(s, a + b) == Run(Run(s, a), b)
    decreases |b|
  {
    hide Apply;
    if b == [] {
      assert a + b == a;
    } else {
      RunConcat(s, a, b[..|b| - 1]);
      assert (a + b)[..|a + b| - 1] == a + b[..|b| - 1];
    }
  }

  lemma {:induction false} AllLinesConcat(a: seq<Read>, b: seq<Read>)
    ensures AllLines(a + b) == AllLines(a) + AllLines(b)
    decreases |b|
  {
    hide AllLines;
    if b == [] {
      assert a + b == a;
      NoReads();
    } else {
      var front, last := b[..|b| - 1], b[|b| - 1];
      assert b == front + [last];
      AllLinesConcat(a, front);
      Associative(a, front, [last]);
      SnocReads(a + front, last);
      SnocReads(front, last);
      Associative(AllLines(a), AllLines(front), last.lines);
    }
  }

  lemma NoReads()
    ensures AllLines([]) == [] && Bytes([]) == [] && Flatten([]) == ""
  {
  }

  // The name belongs to an empty file of another identity than the one last opened.
  ghost predicate Rotated(v: System) {
    && NamedFile(v).Some? && v.tail.id.inode != 0
    && var g := v.files[NamedFile(v).value]; g.data == "" && g.id != v.tail.id
  }

  // The reader as it will stand once it has opened that file.
  function Switched(v: System): System {
    if NamedFile(v).None? then v
    else v.(tail := Tail(NamedFile(v), v.files[NamedFile(v).value].id, 0, ""))
  }

  // Since the rotation, nothing but appends.
  ghost predicate Waiting(v: System, t: System) {
    && t.tail == v.tail && t.log == v.log && t.path == v.path && |t.files| == |v.files|
    && (NamedFile(v).Some? ==> t.files[NamedFile(v).value].id == v.files[NamedFile(v).value].id)
  }

  // Appends to any file, and faultless polls that find no great backlog in the file
  // of the name.
  ghost predicate NamedGrowth(s: System, step: Step) {
    || step.Append?
    || (step.Poll? && step.faults == NoFaults && NamedFile(s).Some?
        && |s.files[NamedFile(s).value].data| - (if s.tail.file == NamedFile(s) then s.tail.offset else 0)
           <= MaxBytesPerTick)
  }

  ghost predicate NamedGrowing(s: System, steps: seq<Step>) {
    forall i :: 0 <= i < |steps| ==> NamedGrowth(Run(s, steps[..i]), steps[i])
  }

  ghost predicate SomePoll(steps: seq<Step>) { exists i :: 0 <= i < |steps| && steps[i].Poll? }

  // The first poll after the rotation is one of a reader that has just opened the
  // new file.
  lemma PollSwitches(t: System, late: string, stop: nat)
    requires Inv(t) && NamedFile(t).Some? && t.tail.id.inode != 0
    requires t.files[NamedFile(t).value].id != t.tail.id
    ensures var o := Reopen(t, NoFaults);
            && Inv(o) && o.files == t.files && o.path == t.path && o.log == t.log
            && o.tail == Tail(NamedFile(t), t.files[NamedFile(t).value].id, 0, "")
            && AfterPoll(t, NoFaults, late, stop) == AfterPoll(o, NoFaults, late, stop)
  {
    hide Inv, ReadOn, NoticeShrink;
    ReopenKeeps(t, NoFaults);
    var o := Reopen(t, NoFaults);
    assert Reopen(o, NoFaults) == o;
  }

  lemma JustSwitched(v: System, o: System)
    requires Rotated(v) && NamedFile(o) == NamedFile(v) && o.log == v.log && o.tail == Switched(v).tail
    ensures Advanced(Switched(v), o)
  {
    NoReads();
    NothingFed("");
    hide FeedAll, Flatten, Bytes, AllLines;
    var w := Switched(v);
    assert Since(w, o) == [];
    assert OpenData(o)[0..0] == "";
  }

  lemma OpenElsewhere(t: System)
    requires Inv(t) && NamedFile(t).Some? && t.files[NamedFile(t).value].id != t.tail.id
    ensures t.tail.file != NamedFile(t)
  {
    hide LogOk;
  }

  lemma SwitchStep(v: System, t: System, step: Step)
    requires Inv(t) && Rotated(v) && Waiting(v, t) && NamedGrowth(t, step)
    ensures step.Append? ==> Waiting(v, Apply(t, step))
    ensures step.Poll? ==> Advanced(Switched(v), Apply(t, step))
  {
    hide Inv, AfterPoll, Reopen, Advanced;
    if step.Poll? {
      PollSwitches(t, step.late, step.stop);
      var o := Reopen(t, NoFaults);
      OpenElsewhere(t);
      JustSwitched(v, o);
      AdvanceStep(Switched(v), o, step);
    }
  }

  lemma FollowingGrowth(w: System, t: System, step: Step)
    requires Advanced(w, t) && NamedGrowth(t, step)
    ensures GrowthStep(t, step)
  {
    hide FeedAll, Flatten, Bytes, AllLines, Since;
  }

  lemma {:induction false} AfterRotation(v: System, steps: seq<Step>)
    requires Inv(v) && Rotated(v) && NamedGrowing(v, steps)
    ensures var t := Run(v, steps);
            Inv(t) && if SomePoll(steps) then Advanced(Switched(v), t) else Waiting(v, t)
  {
    hide Inv, Advanced, Apply, NamedGrowth, Rotated, Waiting, Switched;
    if steps == [] {
      StillWaiting(v);
    } else {
      var earlier, last := steps[..|steps| - 1], steps[|steps| - 1];
      assert steps == earlier + [last];
      forall i | 0 <= i < |earlier| ensures NamedGrowth(Run(v, earlier[..i]), earlier[i]) {
        assert steps[..i] == earlier[..i];
      }
      AfterRotation(v, earlier);
      var t := Run(v, earlier);
      GrowthSteps(t, last);
      StepKeeps(t, last);
      PollsSnoc(earlier, last);
      hide Run, SomePoll;
      if SomePoll(earlier) {
        FollowingGrowth(Switched(v), t, last);
        AdvanceStep(Switched(v), t, last);
      } else {
        SwitchStep(v, t, last);
      }
    }
  }

  lemma StillWaiting(v: System)
    ensures Waiting(v, v)
  {
  }

  lemma GrowthSteps(s: System, step: Step)
    requires NamedGrowth(s, step)
    ensures step.Append? || step.Poll?
  {
  }

  lemma PollsSnoc(steps: seq<Step>, last: Step)
    ensures SomePoll(steps + [last]) <==> SomePoll(steps) || last.Poll?
  {
    var all := steps + [last];
    if i :| 0 <= i < |steps| && steps[i].Poll? { assert all[i].Poll?; }
    if last.Poll? { assert all[|steps|].Poll?; }
  }

  lemma {:induction false} RunGrows(s: System, steps: seq<Step>)
    requires Inv(s) && RealSteps(steps) && Untruncated(steps)
    ensures Grown(s.files, Run(s, steps).files)
  {
    hide Inv, AfterPoll;
    if steps != [] {
      var earlier, last := steps[..|steps| - 1], steps[|steps| - 1];
      RunGrows(s, earlier);
      RunKeeps(s, earlier);
      if last.Poll? { PollReadsFile(Run(s, earlier), last.faults, last.late, last.stop); }
    }
  }

  lemma GrowthIsUntruncated(s: System, steps: seq<Step>)
    requires NamedGrowing(s, steps)
    ensures RealSteps(steps) && Untruncated(steps)
  {
    hide Run;
    forall i | 0 <= i < |steps| ensures !steps[i].Truncate? && !steps[i].Rotate? {
      assert NamedGrowth(Run(s, steps[..i]), steps[i]);
    }
  }

  lemma NewFileRotated(r: System, id: Identity)
    requires Inv(r) && Following(r) && id.inode != 0 && id != r.tail.id
    ensures var v := Apply(r, Rotate(id));
            && Inv(v) && Rotated(v) && NamedFile(v) == Some(|r.files|)
            && v.log == r.log && Grown(r.files, v.files)
  {
    StepKeeps(r, Rotate(id));
    hide LogOk, Positions;
  }

  // What the polls before and after a rotation report, put together.
  lemma ReportedAcross(a: seq<Read>, b: seq<Read>, held: string, past: string, current: string)
    requires Flatten(Bytes(a)) == past && Flatten(Bytes(b)) == current && '\n' !in held
    requires FeedAll(held, Bytes(a)).0 == AllLines(a) && FeedAll("", Bytes(b)).0 == AllLines(b)
    ensures Tidy(AllLines(a + b)) == Tidy(Lines(held + past)) + Tidy(Lines(current))
            <==> NothingLost(held, Bytes(a)) && NothingLost("", Bytes(b))
    ensures FragmentsFit("", Bytes(b)) ==> FeedAll("", Bytes(b)).1 == Rest(current)
  {
    hide FragmentsFit, NothingLost, Bytes, Flatten, FeedAll, AllLines, Lines, Tidy, Rest, Size;
    FedSize(held, Bytes(a));
    FedSize("", Bytes(b));
    assert "" + current == current;
    if FragmentsFit("", Bytes(b)) { ChunkingIndependent("", Bytes(b)); }
    AllLinesConcat(a, b);
    TidyConcat(AllLines(a), AllLines(b));
    SizeConcat(Tidy(AllLines(a)), Tidy(AllLines(b)));
    SizeConcat(Tidy(Lines(held + past)), Tidy(Lines(current)));
  }

  lemma SinceConcat(s: System, r: System, t: System)
    requires s.log <= r.log <= t.log
    ensures Since(s, t) == Since(s, r) + Since(r, t)
  {
  }

  // A log that grows, is rotated to a file of another identity, and grows on: once
  // the reader has polled again, it has reported the lines of the old file up to where
  // its last poll before the rotation stopped, then those of the new file from its
  // first byte, if and only if no poll dropped the beginning of a line. The end of the
  // old file and the fragment carried from it are lost.
  lemma RotationDelivers(s: System, before: seq<Step>, id: Identity, after: seq<Step>)
    requires Inv(s) && Following(s) && Growing(s, before)
    requires id.inode != 0 && id != Run(s, before).tail.id
    requires var v := Apply(Run(s, before), Rotate(id)); NamedGrowing(v, after) && SomePoll(after)
    ensures var r, t := Run(s, before), Run(s, before + [Rotate(id)] + after);
            && t.tail.file == Some(|r.files|) && Following(t) && s.tail.file.value < |t.files|
            && var past, current := t.files[s.tail.file.value].data, OpenData(t);
               && s.tail.offset <= r.tail.offset <= |past|
               && (Tidy(AllLines(Since(s, t))) == Tidy(Lines(s.tail.partial + past[s.tail.offset..r.tail.offset]))
                                                  + Tidy(Lines(current[..t.tail.offset]))
                   <==> NothingLost(s.tail.partial, Bytes(Since(s, r))) && NothingLost("", Bytes(Since(r, t))))
               && (FragmentsFit("", Bytes(Since(r, t))) ==> t.tail.partial == Rest(current[..t.tail.offset]))
  {
    hide Inv, Apply, Growing, NamedGrowing, FragmentsFit, NothingLost;
    var r := Run(s, before);
    GrowthAdvances(s, before);
    HeldNoNewline(s);
    NewFileRotated(r, id);
    var v := Apply(r, Rotate(id));
    AfterRotation(v, after);
    GrowthIsUntruncated(v, after);
    RunGrows(v, after);
    var t := Run(v, after);
    RunThrough(s, before, Rotate(id), after);
    hide Run, Rotated;
    Delivered(s, r, v, t);
  }

  lemma RunThrough(s: System, before: seq<Step>, step: Step, after: seq<Step>)
    ensures Run(s, before + [step] + after) == Run(Apply(Run(s, before), step), after)
  {
    hide Apply;
    RunConcat(s, before + [step], after);
    assert (before + [step])[..|before|] == before;
  }

  lemma Delivered(s: System, r: System, v: System, t: System)
    requires Advanced(s, r) && Advanced(Switched(v), t) && NamedFile(v) == Some(|r.files|)
    requires v.log == r.log && Grown(r.files, v.files) && Grown(v.files, t.files) && '\n' !in s.tail.partial
    ensures t.tail.file == Some(|r.files|) && Following(t) && s.tail.file.value < |t.files|
    ensures var past, current := t.files[s.tail.file.value].data, OpenData(t);
            && s.tail.offset <= r.tail.offset <= |past|
            && (Tidy(AllLines(Since(s, t))) == Tidy(Lines(s.tail.partial + past[s.tail.offset..r.tail.offset]))
                                               + Tidy(Lines(current[..t.tail.offset]))
                <==> NothingLost(s.tail.partial, Bytes(Since(s, r))) && NothingLost("", Bytes(Since(r, t))))
            && (FragmentsFit("", Bytes(Since(r, t))) ==> t.tail.partial == Rest(current[..t.tail.offset]))
  {
    hide FragmentsFit, NothingLost, Bytes, Flatten, FeedAll, AllLines, Lines, Tidy, Rest;
    var f := s.tail.file.value;
    assert r.files[f].data <= v.files[f].data <= t.files[f].data;
    SameSpan(r.files[f].data, t.files[f].data, s.tail.offset, r.tail.offset);
    assert Since(Switched(v), t) == Since(v, t);
    SinceConcat(s, r, t);
    assert Since(r, t) == Since(v, t);
    var span := t.files[f].data[s.tail.offset..r.tail.offset];
    assert OpenData(t)[0..t.tail.offset] == OpenData(t)[..t.tail.offset];
    ReportedAcross(Since(s, r), Since(v, t), s.tail.partial, span, OpenData(t)[..t.tail.offset]);
  }

  lemma SameSpan(data: string, later: string, i: nat, j: nat)
    requires data <= later && i <= j <= |data|
    ensures later[i..j] == data[i..j]
  {
  }

  // ---------------------------------------------------------------------
  // Orderly runs
  // ---------------------------------------------------------------------

  // In an orderly run system calls work, nothing is truncated, and the name is
  // only ever given to new files of new identity, or lost.
  ghost predicate Orderly(s: System, step: Step) {
    match step
    case Append(_, _) => true
    case Truncate(_, _) => false
    case Rotate(id) => id.inode != 0 && forall f :: 0 <= f < |s.files| ==> s.files[f].id != id
    case Point(path) => path == None
    case Poll(faults, _, _) => faults == NoFaults
  }

  ghost predicate OrderlyRun(s: System, steps: seq<Step>) {
    forall i :: 0 <= i < |steps| ==> Orderly(Run(s, steps[..i]), steps[i])
  }

  ghost predicate Ascending(sessions: seq<FileId>, bound: nat) {
    && (forall a, b :: 0 <= a < b < |sessions| ==> sessions[a] < sessions[b])
    && (forall a :: 0 <= a < |sessions| ==> sessions[a] < bound)
  }

  // Sessions move to ever newer files, and the reader never falls behind a shrink.
  ghost predicate OnceEach(s: System) {
    && (forall f, g :: 0 <= f < g < |s.files| ==> s.files[f].id != s.files[g].id)
    && (IsOpen(s) ==> s.tail.offset <= |OpenData(s)|)
    && (s.path.Some? ==> s.path.value == |s.files| - 1)
    && Ascending(s.sessions, if s.path.None? || s.tail.file == s.path then |s.files| else |s.files| - 1)
  }

  lemma AscendingSnoc(sessions: seq<FileId>, f: FileId)
    requires Ascending(sessions, f)
    ensures Ascending(sessions + [f], f + 1)
  {
  }

  lemma OrderlyPoll(s: System, late: string, stop: nat)
    requires Inv(s) && OnceEach(s)
    ensures OnceEach(AfterPoll(s, NoFaults, late, stop))
  {
    hide Feed, LogOk, Positions;
    var u := AfterPoll(s, NoFaults, late, stop);
    SessionsStarted(s, NoFaults, late, stop);
    ReopenKeeps(s, NoFaults);
    if u.sessions != s.sessions {
      AscendingSnoc(s.sessions, |s.files| - 1);
    }
  }

  lemma OrderlyStep(s: System, step: Step)
    requires Inv(s) && OnceEach(s) && Orderly(s, step)
    ensures OnceEach(Apply(s, step))
  {
    if step.Poll? {
      OrderlyPoll(s, step.late, step.stop);
    }
  }

  lemma {:induction false} OrderlyKeeps(s: System, steps: seq<Step>)
    requires Inv(s) && OnceEach(s) && OrderlyRun(s, steps)
    ensures Inv(Run(s, steps)) && OnceEach(Run(s, steps))
  {
    if steps != [] {
      var earlier := steps[..|steps| - 1];
      forall i | 0 <= i < |earlier| ensures Orderly(Run(s, earlier[..i]), earlier[i]) {
        assert steps[..i] == earlier[..i];
      }
      OrderlyKeeps(s, earlier);
      OrderlyStep(Run(s, earlier), steps[|steps| - 1]);
      StepKeeps(Run(s, earlier), steps[|steps| - 1]);
    }
  }

  lemma OrderlyIsUntruncated(s: System, steps: seq<Step>)
    requires OrderlyRun(s, steps)
    ensures RealSteps(steps) && Untruncated(steps)
  {
    hide Run;
    forall i | 0 <= i < |steps| ensures !steps[i].Truncate? && (steps[i].Rotate? ==> steps[i].id.inode != 0) {
      assert Orderly(Run(s, steps[..i]), steps[i]);
    }
  }

  // An orderly run delivers bytes of the files, none of them twice, and each file's in
  // order.
  lemma OrderlyRunDeliversOnce(s: System, steps: seq<Step>, i: nat, j: nat)
    requires Initial(s) && Inv(s) && OnceEach(s) && OrderlyRun(s, steps)
    requires i < j < |Run(s, steps).log|
    ensures var t := Run(s, steps);
            && FromFile(t, t.log[i]) && FromFile(t, t.log[j])
            && (t.log[i].file == t.log[j].file ==> t.log[i].hi <= t.log[j].lo)
  {
    OrderlyKeeps(s, steps);
    OrderlyIsUntruncated(s, steps);
    RunReadsFiles(s, steps);
    hide Run, FromFile;
    if Run(s, steps).log[i].file == Run(s, steps).log[j].file {
      NoReplay(Run(s, steps), i, j);
    }
  }

  // ---------------------------------------------------------------------
  // Two runs that go wrong
  // ---------------------------------------------------------------------

  const Log: Identity := Identity(1, 7)

  // A log of one line that the reader opened when it was empty, and has read.
  const Watched: System := System(
    [File(Log, "ab\n")], Some(0), Tail(Some(0), Log, 3, ""), [0],
    [Read(0, 0, 0, 3, 0, 3, "", "ab\n", ["ab"])])

  lemma FeedLine(line: string)
    requires '\n' !in line && line != "" && line[|line| - 1] != '\r'
    ensures Feed("", line + "\n") == ([line], "")
  {
    IndexAnyNone("", {'\n'});
    assert "" + "" == "";
    assert Feed("", "") == ([], "");
    hide Feed;
    FeedFirst("", line, "");
    assert line + "\n" + "" == line + "\n" && "" + line == line && [line] + [] == [line];
    assert line + "" == line;
    TrimRightIs(line, "", {'\r'});
  }

  lemma OpenedEmpty()
    ensures Apply(System([File(Log, "")], Some(0), Unopened, [], []), Poll(NoFaults, "", 0))
         == System([File(Log, "")], Some(0), Tail(Some(0), Log, 0, ""), [0], [])
  {
    hide Feed;
  }

  lemma LineRead()
    ensures Apply(System([File(Log, "ab\n")], Some(0), Tail(Some(0), Log, 0, ""), [0], []), Poll(NoFaults, "", 3))
         == Watched
  {
    var s := System([File(Log, "ab\n")], Some(0), Tail(Some(0), Log, 0, ""), [0], []);
    assert Reopen(s, NoFaults) == s && NoticeShrink(s) == s;
    hide Reopen, NoticeShrink, ReadOn;
    FirstLineRead();
  }

  lemma FirstLineRead()
    ensures ReadOn(System([File(Log, "ab\n")], Some(0), Tail(Some(0), Log, 0, ""), [0], []), true, "", 3) == Watched
  {
    hide Feed;
    OneLineRead();
    var s := System([File(Log, "ab\n")], Some(0), Tail(Some(0), Log, 0, ""), [0], []);
    assert s.files[0 := File(Log, "ab\n")] == s.files;
  }

  lemma OneLineRead()
    ensures "ab\n" + "" == "ab\n" && BytesFrom("ab\n"[..3], 0) == "ab\n" && Feed("", "ab\n") == (["ab"], "")
  {
    hide Feed;
    FeedLine("ab");
    assert "ab" + "\n" == "ab\n" && "ab\n"[..3] == "ab\n" && "ab\n"[0..] == "ab\n";
  }

  lemma WatchedReached()
    ensures Run(System([File(Log, "")], Some(0), Unopened, [], []),
                [Poll(NoFaults, "", 0), Append(0, "ab\n"), Poll(NoFaults, "", 3)]) == Watched
  {
    hide AfterPoll;
    OpenedEmpty();
    LineRead();
    var s := System([File(Log, "")], Some(0), Unopened, [], []);
    var t := System([File(Log, "")], Some(0), Tail(Some(0), Log, 0, ""), [0], []);
    assert "" + "ab\n" == "ab\n" && t.files[0 := File(Log, "ab\n")] == [File(Log, "ab\n")];
    ThreeSteps(s, Poll(NoFaults, "", 0), Append(0, "ab\n"), Poll(NoFaults, "", 3));
  }

  lemma ThreeSteps(s: System, a: Step, b: Step, c: Step)
    ensures Run(s, [a, b, c]) == Apply(Apply(Apply(s, a), b), c)
    ensures Run(s, [a]) == Apply(s, a)
  {
    hide Apply;
    assert [a, b, c][..2] == [a, b] && [a, b][..1] == [a] && [a][..0] == [];
    assert Run(s, []) == s;
    assert Run(s, [a]) == Apply(s, a);
    assert Run(s, [a, b]) == Apply(Run(s, [a]), b);
  }

  // One failed stat of the path, and the line is reported a second time.
  lemma ReplayShown()
    ensures var t := Run(Watched, [Poll(NoFaults.(named := false), "", 3)]);
            |t.log| == 2 && t.log[0].lines == t.log[1].lines == ["ab"] && t.log[1].bytes == "ab\n"
  {
    hide AfterPoll;
    var poll := Poll(NoFaults.(named := false), "", 3);
    ReplayPoll();
    ThreeSteps(Watched, poll, poll, poll);
  }

  lemma ReplayPoll()
    ensures var t := AfterPoll(Watched, NoFaults.(named := false), "", 3);
            |t.log| == 2 && t.log[0] == Watched.log[0] && t.log[1].lines == ["ab"] && t.log[1].bytes == "ab\n"
  {
    Reopened();
    ReadAgain();
    hide ReadOn, Reopen, NoticeShrink;
  }

  lemma Reopened()
    ensures var o := Watched.(tail := Tail(Some(0), Log, 0, ""), sessions := [0, 0]);
            Reopen(Watched, NoFaults.(named := false)) == o && NoticeShrink(o) == o
  {
    assert [0] + [0] == [0, 0];
  }

  lemma ReadAgain()
    ensures var t := ReadOn(Watched.(tail := Tail(Some(0), Log, 0, ""), sessions := [0, 0]), true, "", 3);
            |t.log| == 2 && t.log[0] == Watched.log[0] && t.log[1].lines == ["ab"] && t.log[1].bytes == "ab\n"
  {
    hide Feed;
    OneLineRead();
  }

  // A failed stat of the open file closes it, and the next poll, in which every call
  // works, reports the line a second time.
  lemma ClosedReplayShown()
    ensures var t := Run(Watched, [Poll(NoFaults.(size := false), "", 3), Poll(NoFaults, "", 3)]);
            |t.log| == 2 && t.log[0].lines == t.log[1].lines == ["ab"] && t.log[1].bytes == "ab\n"
  {
    hide AfterPoll;
    var a, b := Poll(NoFaults.(size := false), "", 3), Poll(NoFaults, "", 3);
    ClosingPoll();
    ReopeningPoll();
    ThreeSteps(Watched, a, b, b);
    assert [a, b][..1] == [a];
    assert Run(Watched, [a, b]) == Apply(Run(Watched, [a]), b);
  }

  const ClosedLog: System := Watched.(tail := Tail(None, Log, 3, ""))

  lemma ClosingPoll()
    ensures AfterPoll(Watched, NoFaults.(size := false), "", 3) == ClosedLog
  {
    assert Reopen(Watched, NoFaults.(size := false)) == Watched;
  }

  lemma ReopeningPoll()
    ensures var t := AfterPoll(ClosedLog, NoFaults, "", 3);
            |t.log| == 2 && t.log[0] == Watched.log[0] && t.log[1].lines == ["ab"] && t.log[1].bytes == "ab\n"
  {
    var o := Watched.(tail := Tail(Some(0), Log, 0, ""), sessions := [0, 0]);
    assert [0] + [0] == [0, 0];
    assert Reopen(ClosedLog, NoFaults) == o && NoticeShrink(o) == o;
    ReadAgain();
    hide ReadOn, Reopen, NoticeShrink;
  }

  // The file is truncated and grows past the offset before the next poll: the poll
  // reads on in mid-file, "cc" is never reported, and no session starts.
  lemma TruncationUnseen()
    ensures var t := Run(Watched, [Truncate(0, 0), Append(0, "cc\ndd\n"), Poll(NoFaults, "", 6)]);
            && t.sessions == Watched.sessions && t.files == [File(Log, "cc\ndd\n")]
            && |t.log| == 2 && t.log[1].lo == 3 && t.log[1].lines == ["dd"]
  {
    hide AfterPoll;
    UnseenPoll();
    ThreeSteps(Watched, Truncate(0, 0), Append(0, "cc\ndd\n"), Poll(NoFaults, "", 6));
    var cut := Watched.(files := [File(Log, "")]);
    assert "ab\n"[..0] == "" && Watched.files[0 := File(Log, "")] == cut.files;
    assert Apply(Watched, Truncate(0, 0)) == cut;
    assert "" + "cc\ndd\n" == "cc\ndd\n" && cut.files[0 := File(Log, "cc\ndd\n")] == [File(Log, "cc\ndd\n")];
  }

  lemma UnseenPoll()
    ensures var t := AfterPoll(Watched.(files := [File(Log, "cc\ndd\n")]), NoFaults, "", 6);
            && t.sessions == Watched.sessions && t.files == [File(Log, "cc\ndd\n")]
            && |t.log| == 2 && t.log[1].lo == 3 && t.log[1].lines == ["dd"]
  {
    var s := Watched.(files := [File(Log, "cc\ndd\n")]);
    assert Reopen(s, NoFaults) == s && NoticeShrink(s) == s;
    hide Reopen, NoticeShrink, ReadOn;
    MidFileRead();
  }

  lemma MidFileRead()
    ensures var t := ReadOn(Watched.(files := [File(Log, "cc\ndd\n")]), true, "", 6);
            && t.sessions == Watched.sessions && t.files == [File(Log, "cc\ndd\n")]
            && |t.log| == 2 && t.log[1].lo == 3 && t.log[1].lines == ["dd"]
  {
    FeedLine("dd");
    hide Feed;
    var s := Watched.(files := [File(Log, "cc\ndd\n")]);
    var data := "cc\ndd\n" + "";
    assert data == "cc\ndd\n" && data[..6] == data && data[3..] == "dd" + "\n";
    assert s.files[0 := File(Log, data)] == s.files;
  }

  // ---------------------------------------------------------------------
  // One that goes right
  // ---------------------------------------------------------------------

  const Next: Identity := Identity(1, 8)

  // The log is rotated and a line is written to the new file.
  const RotatedLog: System := Watched.(files := [File(Log, "ab\n"), File(Next, "")], path := Some(1))
  const WrittenLog: System := Watched.(files := [File(Log, "ab\n"), File(Next, "cc\n")], path := Some(1))
  const FollowedLog: System := WrittenLog.(
    tail := Tail(Some(1), Next, 3, ""), sessions := [0, 1],
    log := Watched.log + [Read(1, 1, 0, 3, 0, 3, "", "cc\n", ["cc"])])

  lemma WatchedKept()
    ensures Inv(Watched) && Following(Watched)
  {
    hide Run;
    var s, steps := System([File(Log, "")], Some(0), Unopened, [], []),
                    [Poll(NoFaults, "", 0), Append(0, "ab\n"), Poll(NoFaults, "", 3)];
    RunKeeps(s, steps);
    WatchedReached();
  }

  lemma SecondLineRead()
    ensures AfterPoll(WrittenLog, NoFaults, "", 3) == FollowedLog
  {
    var o := WrittenLog.(tail := Tail(Some(1), Next, 0, ""), sessions := [0, 1]);
    assert [0] + [1] == [0, 1];
    assert Reopen(WrittenLog, NoFaults) == o && NoticeShrink(o) == o;
    hide Reopen, NoticeShrink, ReadOn;
    NewFileRead(o);
  }

  lemma NewFileRead(o: System)
    requires o == WrittenLog.(tail := Tail(Some(1), Next, 0, ""), sessions := [0, 1])
    ensures ReadOn(o, true, "", 3) == FollowedLog
  {
    hide Feed;
    NextLineRead();
    assert o.files[1 := File(Next, "cc\n")] == o.files;
  }

  lemma NextLineRead()
    ensures "cc\n" + "" == "cc\n" && BytesFrom("cc\n"[..3], 0) == "cc\n" && Feed("", "cc\n") == (["cc"], "")
  {
    hide Feed;
    FeedLine("cc");
    assert "cc" + "\n" == "cc\n" && "cc\n"[..3] == "cc\n" && "cc\n"[0..] == "cc\n";
  }

  lemma LogRotated()
    ensures Apply(Watched, Rotate(Next)) == RotatedLog && Apply(RotatedLog, Append(1, "cc\n")) == WrittenLog
  {
    assert Watched.files + [File(Next, "")] == RotatedLog.files;
    assert "" + "cc\n" == "cc\n" && RotatedLog.files[1 := File(Next, "cc\n")] == WrittenLog.files;
  }

  lemma RotatedRun()
    ensures var steps := [Append(1, "cc\n"), Poll(NoFaults, "", 3)];
            && Run(RotatedLog, steps) == FollowedLog
            && NamedGrowing(RotatedLog, steps) && SomePoll(steps)
  {
    hide AfterPoll;
    LogRotated();
    SecondLineRead();
    var a, b := Append(1, "cc\n"), Poll(NoFaults, "", 3);
    var steps := [a, b];
    ThreeSteps(RotatedLog, a, b, b);
    assert steps[..1] == [a] && steps[..0] == [];
    assert Run(RotatedLog, steps) == Apply(Run(RotatedLog, [a]), b);
    assert steps[1].Poll?;
    assert NamedGrowth(WrittenLog, b);
  }

  lemma ShortChunk(chunk: string)
    requires Feed("", chunk).1 == ""
    ensures NothingLost("", [chunk]) && NothingLost("", [])
  {
    hide Feed, Cuts;
    assert [chunk][1..] == [];
  }

  // The rotation theorem at work: the old line, then the new one.
  lemma RotationShown()
    ensures var t := Run(Watched, [] + [Rotate(Next)] + [Append(1, "cc\n"), Poll(NoFaults, "", 3)]);
            t == FollowedLog && AllLines(t.log) == ["ab", "cc"]
            && Tidy(AllLines(Since(Watched, t))) == Tidy(Lines("")) + Tidy(Lines("cc\n"))
  {
    hide Inv, Following, Apply, NamedGrowing, SomePoll, AfterPoll, Feed, Lines, Tidy;
    var before: seq<Step>, after := [], [Append(1, "cc\n"), Poll(NoFaults, "", 3)];
    WatchedKept();
    LogRotated();
    RotatedRun();
    RunThrough(Watched, before, Rotate(Next), after);
    assert Run(Watched, before) == Watched;
    RotatedReads();
    hide Run;
    RotationDelivers(Watched, before, Next, after);
    var past := FollowedLog.files[0].data;
    assert past[3..3] == "" && "" + past[3..3] == "";
  }

  const SecondRead := Read(1, 1, 0, 3, 0, 3, "", "cc\n", ["cc"])

  lemma RotatedReads()
    ensures AllLines(FollowedLog.log) == ["ab", "cc"]
    ensures OpenData(FollowedLog)[..3] == "cc\n"
    ensures NothingLost("", Bytes(Since(Watched, FollowedLog))) && NothingLost("", Bytes(Since(Watched, Watched)))
  {
    hide Feed, NothingLost;
    NoReads();
    SnocReads([], Watched.log[0]);
    SnocReads(Watched.log, SecondRead);
    assert [] + [Watched.log[0]] == Watched.log;
    hide AllLines, Bytes;
    RotatedBytes();
  }

  lemma RotatedBytes()
    ensures NothingLost("", Bytes(Since(Watched, FollowedLog))) && NothingLost("", Bytes(Since(Watched, Watched)))
  {
    hide Feed, NothingLost;
    NoReads();
    SnocReads([], SecondRead);
    assert [] + [SecondRead] == [SecondRead] && [] + ["cc\n"] == ["cc\n"];
    hide AllLines, Bytes;
    assert Since(Watched, FollowedLog) == [SecondRead] && Since(Watched, Watched) == [];
    FeedLine("cc");
    assert "cc" + "\n" == "cc\n";
    ShortChunk("cc\n");
  }
}
