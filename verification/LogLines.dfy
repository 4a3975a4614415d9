/**
 Cutting a log into lines poll by poll, and the proof that it gives what one cut
 of all the bytes gives, wherever the polls stopped.
 */
module LogLines {
  import opened Text

  const MaxLineBytes: nat := 64 * 1024

  // ---------------------------------------------------------------------
  // Lines
  // ---------------------------------------------------------------------

  // The finished lines of a byte string, without their newlines.
  function Lines(bytes: string): seq<string>
    decreases |bytes|
  {
    var i := IndexByte(bytes, '\n');
    if i < 0 then [] else [bytes[..i]] + Lines(bytes[i + 1..])
  }

  // What follows the last newline.
  function Rest(bytes: string): (r: string)
    ensures '\n' !in r
    decreases |bytes|
  {
    var i := IndexByte(bytes, '\n');
    if i < 0 then bytes else Rest(bytes[i + 1..])
  }

  // Two readers agree on a line up to the carriage returns that end it.
  function TrimCR(line: string): string { TrimRight(line, {'\r'}) }

  // An empty line is not reported.
  function Reported(line: string): seq<string> { if line == "" then [] else [line] }

  // Lines with their trailing carriage returns stripped and the empty ones dropped.
  function Tidy(lines: seq<string>): seq<string> {
    if lines == [] then []
    else
      Reported(TrimCR(lines[0])) + Tidy(lines[1..])
  }

  lemma {:induction false} TidyConcat(a: seq<string>, b: seq<string>)
    ensures Tidy(a + b) == Tidy(a) + Tidy(b)
  {
    hide TrimCR, Reported;
    if a == [] {
      assert a + b == b;
    } else {
      hide Tidy;
      TidyConcat(a[1..], b);
      TidyCons(a[0], a[1..]);
      TidyCons(a[0], a[1..] + b);
      assert a == [a[0]] + a[1..];
      Associative([a[0]], a[1..], b);
      Associative(Reported(TrimCR(a[0])), Tidy(a[1..]), Tidy(b));
    }
  }

  lemma TidyCons(line: string, rest: seq<string>)
    ensures Tidy([line] + rest) == Reported(TrimCR(line)) + Tidy(rest)
  {
    assert ([line] + rest)[1..] == rest;
  }

  lemma LinesFirst(line: string, rest: string)
    requires '\n' !in line
    ensures Lines(line + "\n" + rest) == [line] + Lines(rest)
    ensures Rest(line + "\n" + rest) == Rest(rest)
  {
    var all := line + "\n" + rest;
    assert all == line + ("\n" + rest);
    IndexAnyAfter(line, "\n" + rest, {'\n'});
    assert all[..|line|] == line && all[|line| + 1..] == rest;
  }

  // Cutting can be interrupted anywhere, as long as the fragment is carried.
  lemma {:induction false} LinesConcat(a: string, b: string)
    ensures Lines(a + b) == Lines(a) + Lines(Rest(a) + b)
    ensures Rest(a + b) == Rest(Rest(a) + b)
    decreases |a|
  {
    var i := IndexByte(a, '\n');
    if i >= 0 {
      hide Lines, Rest;
      var line, rest := a[..i], a[i + 1..];
      assert a == line + "\n" + rest;
      Associative(line + "\n", rest, b);
      LinesFirst(line, rest);
      LinesFirst(line, rest + b);
      LinesConcat(rest, b);
      Associative([line], Lines(rest), Lines(Rest(rest) + b));
    }
  }

  // What one poll makes of the bytes it read: the lines it reports and the
  // fragment it is left holding.
  function Feed(partial: string, bytes: string): (r: (seq<string>, string))
    decreases |bytes|
  {
    var i := IndexByte(bytes, '\n');
    if i < 0 then ([], partial + bytes)
    else
      var line := partial + TrimRight(bytes[..i + 1], {'\r', '\n'});
      var (more, rest) := Feed("", bytes[i + 1..]);
      (Reported(line) + more, rest)
  }

  lemma FeedEnds(partial: string, bytes: string)
    requires IndexByte(bytes, '\n') < 0
    ensures Feed(partial, bytes) == ([], partial + bytes)
  {
  }

  // One line taken off the front, with `taken` already reported.
  lemma FeedStep(taken: seq<string>, partial: string, bytes: string)
    ensures var i := IndexByte(bytes, '\n');
            i >= 0 ==>
              var line := partial + TrimRight(bytes[..i + 1], {'\r', '\n'});
              var next := Feed("", bytes[i + 1..]);
              && taken + Feed(partial, bytes).0 == (if line == "" then taken else taken + [line]) + next.0
              && Feed(partial, bytes).1 == next.1
  {
    var i := IndexByte(bytes, '\n');
    if i >= 0 {
      var line := partial + TrimRight(bytes[..i + 1], {'\r', '\n'});
      var more := Feed("", bytes[i + 1..]).0;
      hide TrimRight;
      Associative(taken, [line], more);
      assert [] + more == more;
    }
  }

  lemma TrimEnding(chunk: string)
    requires '\n' !in chunk
    ensures TrimRight(chunk + "\n", {'\r', '\n'}) == TrimCR(chunk)
  {
    var kept := TrimCR(chunk);
    var tail := chunk[|kept|..] + "\n";
    assert chunk + "\n" == kept + tail;
    TrimRightIs(kept, tail, {'\r', '\n'});
  }

  lemma TrimTwice(a: string, b: string)
    ensures TrimCR(a + TrimCR(b)) == TrimCR(a + b)
  {
    var kept := TrimCR(b);
    var once := TrimCR(a + kept);
    assert a + b == once + ((a + kept)[|once|..] + b[|kept|..]);
    TrimRightIs(once, (a + kept)[|once|..] + b[|kept|..], {'\r'});
  }

  lemma FeedFirst(partial: string, chunk: string, after: string)
    requires '\n' !in chunk
    ensures Feed(partial, chunk + "\n" + after)
         == (Reported(partial + TrimCR(chunk)) + Feed("", after).0, Feed("", after).1)
  {
    hide TrimCR, Reported;
    var bytes := chunk + "\n" + after;
    assert bytes == chunk + ("\n" + after);
    IndexAnyAfter(chunk, "\n" + after, {'\n'});
    assert bytes[..|chunk| + 1] == chunk + "\n" && bytes[|chunk| + 1..] == after;
    TrimEnding(chunk);
  }

  lemma TidyHead(line: string, raw: string, more: seq<string>, rawMore: seq<string>)
    requires TrimCR(line) == TrimCR(raw) && Tidy(more) == Tidy(rawMore)
    ensures Tidy(Reported(line) + more) == Tidy([raw] + rawMore)
  {
    hide Tidy;
    TidyCons(raw, rawMore);
    if line == "" {
      assert [] + more == more && [] + Tidy(more) == Tidy(more);
    } else {
      hide TrimCR;
      TidyCons(line, more);
    }
  }

  lemma FeedAgreesStep(partial: string, chunk: string, after: string)
    requires '\n' !in partial && '\n' !in chunk
    requires Tidy(Feed("", after).0) == Tidy(Lines(after)) && Feed("", after).1 == Rest(after)
    ensures var (lines, held) := Feed(partial, chunk + "\n" + after);
            var all := (partial + chunk) + "\n" + after;
            Tidy(lines) == Tidy(Lines(all)) && held == Rest(all)
  {
    hide Feed, Lines, Rest, Tidy, TrimCR, Reported;
    FeedFirst(partial, chunk, after);
    TrimTwice(partial, chunk);
    LinesFirst(partial + chunk, after);
    TidyHead(partial + TrimCR(chunk), partial + chunk, Feed("", after).0, Lines(after));
  }

  lemma {:induction false} FeedAgrees(partial: string, bytes: string)
    requires '\n' !in partial
    ensures Tidy(Feed(partial, bytes).0) == Tidy(Lines(partial + bytes))
    ensures Feed(partial, bytes).1 == Rest(partial + bytes)
    decreases |bytes|
  {
    var i := IndexByte(bytes, '\n');
    if i < 0 {
      IndexAnyNone(partial + bytes, {'\n'});
    } else {
      hide Feed, Lines, Rest, Tidy;
      var chunk, after := bytes[..i], bytes[i + 1..];
      assert bytes == chunk + "\n" + after;
      assert partial + bytes == (partial + chunk) + "\n" + after;
      assert "" + after == after;
      FeedAgrees("", after);
      FeedAgreesStep(partial, chunk, after);
    }
  }

  // The fragment kept between polls is dropped once it is longer than a line may be.
  function Carry(fragment: string): string {
    if |fragment| > MaxLineBytes then "" else fragment
  }

  // All the polls of one open file, in order.
  function FeedAll(partial: string, chunks: seq<string>): (r: (seq<string>, string))
    decreases chunks
  {
    if chunks == [] then ([], partial)
    else
      var (lines, fragment) := Feed(partial, chunks[0]);
      var (more, rest) := FeedAll(Carry(fragment), chunks[1..]);
      (lines + more, rest)
  }

  // No poll ended on a fragment longer than a line may be.
  ghost predicate FragmentsFit(partial: string, chunks: seq<string>)
    decreases chunks
  {
    chunks != [] ==>
      var fragment := Feed(partial, chunks[0]).1;
      |fragment| <= MaxLineBytes && FragmentsFit(fragment, chunks[1..])
  }

  // However the polls chop the bytes up, the lines and the final fragment are
  // those of one cut of everything read.
  lemma {:induction false} ChunkingIndependent(partial: string, chunks: seq<string>)
    requires '\n' !in partial && FragmentsFit(partial, chunks)
    ensures Tidy(FeedAll(partial, chunks).0) == Tidy(Lines(partial + Flatten(chunks)))
    ensures FeedAll(partial, chunks).1 == Rest(partial + Flatten(chunks))
    decreases chunks
  {
    if chunks == [] {
      assert partial + "" == partial;
      IndexAnyNone(partial, {'\n'});
    } else {
      hide Feed, Lines, Rest, Tidy, FeedAll, Flatten;
      var fragment, later := Feed(partial, chunks[0]).1, Flatten(chunks[1..]);
      FirstChunk(partial, chunks);
      ChunkingIndependent(fragment, chunks[1..]);
      hide FragmentsFit;
      ChunkFirst(partial, chunks[0], later, FeedAll(fragment, chunks[1..]).0);
    }
  }

  lemma FirstChunk(partial: string, chunks: seq<string>)
    requires '\n' !in partial && FragmentsFit(partial, chunks) && chunks != []
    ensures var (lines, fragment) := Feed(partial, chunks[0]);
            && '\n' !in fragment && FragmentsFit(fragment, chunks[1..])
            && FeedAll(partial, chunks).0 == lines + FeedAll(fragment, chunks[1..]).0
            && FeedAll(partial, chunks).1 == FeedAll(fragment, chunks[1..]).1
    ensures partial + Flatten(chunks) == (partial + chunks[0]) + Flatten(chunks[1..])
  {
    hide Feed, Lines, Rest, Tidy;
    FeedAgrees(partial, chunks[0]);
    Associative(partial, chunks[0], Flatten(chunks[1..]));
  }

  lemma ChunkFirst(partial: string, chunk: string, later: string, more: seq<string>)
    requires '\n' !in partial
    requires Tidy(more) == Tidy(Lines(Feed(partial, chunk).1 + later))
    ensures Tidy(Feed(partial, chunk).0 + more) == Tidy(Lines((partial + chunk) + later))
    ensures Rest(Feed(partial, chunk).1 + later) == Rest((partial + chunk) + later)
  {
    hide Feed, Lines, Rest, Tidy;
    FeedAgrees(partial, chunk);
    LinesConcat(partial + chunk, later);
    TidyConcat(Feed(partial, chunk).0, more);
    TidyConcat(Lines(partial + chunk), Lines(Rest(partial + chunk) + later));
  }

  // ---------------------------------------------------------------------
  // Lines cut short
  // ---------------------------------------------------------------------

  // How much text a list of lines holds.
  function Size(lines: seq<string>): nat {
    if lines == [] then 0 else |lines[0]| + Size(lines[1..])
  }

  lemma {:induction false} SizeConcat(a: seq<string>, b: seq<string>)
    ensures Size(a + b) == Size(a) + Size(b)
  {
    if a == [] {
      assert a + b == b;
    } else {
      SizeConcat(a[1..], b);
      assert (a + b)[1..] == a[1..] + b;
    }
  }

  lemma SizeReported(line: string)
    ensures Size(Reported(line)) == |line|
  {
    assert [line][1..] == [];
  }

  // Forgetting `held` before `later` is read changes the line that it began.
  ghost predicate Cuts(held: string, later: string) {
    held != "" && '\n' in later && TrimCR(held + later[..IndexByte(later, '\n')]) != ""
  }

  lemma TrimLonger(held: string, line: string)
    ensures |TrimCR(line)| <= |TrimCR(held + line)|
    ensures held != "" && TrimCR(held + line) != "" ==> |TrimCR(line)| < |TrimCR(held + line)|
    ensures held == "" || TrimCR(held + line) == "" ==> TrimCR(held + line) == TrimCR(line)
  {
    var kept := TrimCR(line);
    TrimTwice(held, line);
    assert "" + line == line;
    if kept != "" {
      var all := held + kept;
      assert all[|all| - 1] == kept[|kept| - 1];
      assert all + "" == all;
      TrimRightIs(all, "", {'\r'});
    }
  }

  lemma CutLine(held: string, line: string, rest: string)
    requires '\n' !in held && '\n' !in line
    ensures var later := line + "\n" + rest;
            && Tidy(Lines(held + later)) == Reported(TrimCR(held + line)) + Tidy(Lines(rest))
            && Tidy(Lines(later)) == Reported(TrimCR(line)) + Tidy(Lines(rest))
  {
    hide Lines, Tidy, TrimCR, Reported;
    Associative(held, line + "\n", rest);
    Associative(held, line, "\n");
    LinesFirst(line, rest);
    LinesFirst(held + line, rest);
    TidyCons(line, Lines(rest));
    TidyCons(held + line, Lines(rest));
  }

  // Then less text is reported; otherwise the same lines are.
  lemma CutSize(held: string, later: string)
    requires '\n' !in held
    ensures Size(Tidy(Lines(later))) <= Size(Tidy(Lines(held + later)))
    ensures Cuts(held, later) ==> Size(Tidy(Lines(later))) < Size(Tidy(Lines(held + later)))
    ensures !Cuts(held, later) ==> Tidy(Lines(later)) == Tidy(Lines(held + later))
  {
    hide Lines, Tidy, TrimCR, Reported, Size;
    if '\n' in later {
      var i := IndexByte(later, '\n');
      var line, rest := later[..i], later[i + 1..];
      assert later == line + "\n" + rest;
      CutLine(held, line, rest);
      TrimLonger(held, line);
      SizeConcat(Reported(TrimCR(held + line)), Tidy(Lines(rest)));
      SizeConcat(Reported(TrimCR(line)), Tidy(Lines(rest)));
      SizeReported(TrimCR(held + line));
      SizeReported(TrimCR(line));
    } else {
      NoLines(later);
      NoLines(held + later);
    }
  }

  // A fragment too long to carry is dropped, and the rest of its line comes later.
  ghost predicate Loses(fragment: string, later: string) { |fragment| > MaxLineBytes && Cuts(fragment, later) }

  ghost predicate NothingLost(partial: string, chunks: seq<string>)
    decreases chunks
  {
    chunks != [] ==>
      var fragment := Feed(partial, chunks[0]).1;
      !Loses(fragment, Flatten(chunks[1..])) && NothingLost(Carry(fragment), chunks[1..])
  }

  lemma {:induction false} FitsLosesNothing(partial: string, chunks: seq<string>)
    requires FragmentsFit(partial, chunks)
    ensures NothingLost(partial, chunks)
    decreases chunks
  {
    hide Feed, Cuts;
    if chunks != [] {
      FitsLosesNothing(Feed(partial, chunks[0]).1, chunks[1..]);
    }
  }

  // One poll's lines, and what its fragment and the later bytes will give.
  lemma ChunkSplits(partial: string, chunk: string, later: string)
    requires '\n' !in partial
    ensures Tidy(Lines((partial + chunk) + later))
         == Tidy(Feed(partial, chunk).0) + Tidy(Lines(Feed(partial, chunk).1 + later))
  {
    hide Feed, Lines, Rest, Tidy;
    FeedAgrees(partial, chunk);
    LinesConcat(partial + chunk, later);
    TidyConcat(Lines(partial + chunk), Lines(Rest(partial + chunk) + later));
  }

  lemma FedFirst(partial: string, chunks: seq<string>)
    requires '\n' !in partial && chunks != []
    ensures var (lines, fragment) := Feed(partial, chunks[0]);
            var held, later := Carry(fragment), Flatten(chunks[1..]);
            && '\n' !in fragment && '\n' !in held
            && Tidy(FeedAll(partial, chunks).0) == Tidy(lines) + Tidy(FeedAll(held, chunks[1..]).0)
            && Tidy(Lines(partial + Flatten(chunks))) == Tidy(lines) + Tidy(Lines(fragment + later))
            && (NothingLost(partial, chunks) <==> !Loses(fragment, later) && NothingLost(held, chunks[1..]))
  {
    hide Feed, Lines, Rest, Tidy, Loses;
    var later := Flatten(chunks[1..]);
    FeedAgrees(partial, chunks[0]);
    Associative(partial, chunks[0], later);
    ChunkSplits(partial, chunks[0], later);
    TidyConcat(Feed(partial, chunks[0]).0, FeedAll(Carry(Feed(partial, chunks[0]).1), chunks[1..]).0);
  }

  lemma CarrySize(fragment: string, later: string)
    requires '\n' !in fragment
    ensures Size(Tidy(Lines(Carry(fragment) + later))) <= Size(Tidy(Lines(fragment + later)))
    ensures Loses(fragment, later) ==>
              Size(Tidy(Lines(Carry(fragment) + later))) < Size(Tidy(Lines(fragment + later)))
    ensures !Loses(fragment, later) ==> Tidy(Lines(Carry(fragment) + later)) == Tidy(Lines(fragment + later))
  {
    hide Lines, Tidy, Cuts, Size;
    CutSize(fragment, later);
    assert "" + later == later;
  }

  lemma {:induction false} FedSize(partial: string, chunks: seq<string>)
    requires '\n' !in partial
    ensures Size(Tidy(FeedAll(partial, chunks).0)) <= Size(Tidy(Lines(partial + Flatten(chunks))))
    ensures NothingLost(partial, chunks) ==>
              Tidy(FeedAll(partial, chunks).0) == Tidy(Lines(partial + Flatten(chunks)))
    ensures !NothingLost(partial, chunks) ==>
              Size(Tidy(FeedAll(partial, chunks).0)) < Size(Tidy(Lines(partial + Flatten(chunks))))
    decreases chunks
  {
    if chunks == [] {
      assert partial + "" == partial;
      NoLines(partial);
    } else {
      hide Feed, FeedAll, Lines, Tidy, NothingLost, Loses, Flatten, Size, Carry;
      var lines, fragment := Feed(partial, chunks[0]).0, Feed(partial, chunks[0]).1;
      var held, later := Carry(fragment), Flatten(chunks[1..]);
      FedFirst(partial, chunks);
      FedSize(held, chunks[1..]);
      CarrySize(fragment, later);
      SizeConcat(Tidy(lines), Tidy(FeedAll(held, chunks[1..]).0));
      SizeConcat(Tidy(lines), Tidy(Lines(fragment + later)));
    }
  }

  // Up to trailing carriage returns, the polls report the lines of one cut of all the
  // bytes if and only if none of them dropped the beginning of a line.
  lemma LinesKeptExactly(partial: string, chunks: seq<string>)
    requires '\n' !in partial
    ensures Tidy(FeedAll(partial, chunks).0) == Tidy(Lines(partial + Flatten(chunks))) <==> NothingLost(partial, chunks)
  {
    hide FeedAll, Tidy, Lines, NothingLost;
    FedSize(partial, chunks);
  }

  // Whatever came before, what the polls of some later bytes report completes the lines
  // of all if and only if they did not start inside a line and dropped no beginning.
  lemma LinesCompletedExactly(before: string, chunks: seq<string>)
    ensures Tidy(Lines(before + Flatten(chunks))) == Tidy(Lines(before)) + Tidy(FeedAll("", chunks).0)
       <==> !Cuts(Rest(before), Flatten(chunks)) && NothingLost("", chunks)
  {
    hide FeedAll, Tidy, Lines, Rest, NothingLost, Flatten, Cuts, Size;
    var bytes := Flatten(chunks);
    LinesConcat(before, bytes);
    TidyConcat(Lines(before), Lines(Rest(before) + bytes));
    FedSize("", chunks);
    assert "" + bytes == bytes;
    CutSize(Rest(before), bytes);
    SamePrefix(Tidy(Lines(before)), Tidy(Lines(Rest(before) + bytes)), Tidy(FeedAll("", chunks).0));
  }

  lemma SamePrefix(front: seq<string>, a: seq<string>, b: seq<string>)
    ensures front + a == front + b <==> a == b
  {
    assert (front + a)[|front|..] == a && (front + b)[|front|..] == b;
  }

  // The other way the reported lines can differ from a single cut: a poll stopped
  // between a carriage return and the newline it belongs to, so that the return
  // was carried over and is no longer trimmed.
  ghost predicate SplitEnding(partial: string, chunk: string) {
    var i := IndexByte(chunk, '\n');
    && i >= 0
    && partial != "" && partial[|partial| - 1] == '\r'
    && forall j :: 0 <= j < i ==> chunk[j] == '\r'
  }

  ghost predicate NoSplitEnding(partial: string, chunks: seq<string>)
    decreases chunks
  {
    chunks != [] ==>
      && !SplitEnding(partial, chunks[0])
      && NoSplitEnding(Carry(Feed(partial, chunks[0]).1), chunks[1..])
  }

  predicate Clean(line: string) { line != "" && line[|line| - 1] != '\r' }

  lemma {:induction false} TidyIsClean(ls: seq<string>)
    ensures forall line :: line in Tidy(ls) ==> Clean(line)
  {
    if ls != [] {
      TidyIsClean(ls[1..]);
    }
  }

  lemma {:induction false} CleanIsTidy(ls: seq<string>)
    requires forall line :: line in ls ==> Clean(line)
    ensures Tidy(ls) == ls
  {
    if ls != [] {
      CleanIsTidy(ls[1..]);
      assert Clean(ls[0]) && ls == [ls[0]] + ls[1..];
    }
  }

  lemma {:induction false} AllCR(s: string)
    ensures TrimCR(s) == "" <==> forall j :: 0 <= j < |s| ==> s[j] == '\r'
  {
    if s != "" && s[|s| - 1] == '\r' {
      AllCR(s[..|s| - 1]);
    }
  }

  // Only the first line of a poll can be affected.
  lemma FeedClean(partial: string, bytes: string)
    ensures (forall line :: line in Feed(partial, bytes).0 ==> Clean(line)) <==> !SplitEnding(partial, bytes)
  {
    var i := IndexByte(bytes, '\n');
    if i >= 0 {
      var chunk, after := bytes[..i], bytes[i + 1..];
      assert bytes == chunk + "\n" + after;
      FeedFirst(partial, chunk, after);
      FeedFreshClean(after);
      hide Feed;
      FirstLineClean(partial, chunk);
      var head, more := Reported(partial + TrimCR(chunk)), Feed("", after).0;
      forall line ensures line in head + more <==> line in head || line in more {}
    }
  }

  lemma FirstLineClean(partial: string, chunk: string)
    ensures (forall line :: line in Reported(partial + TrimCR(chunk)) ==> Clean(line))
       <==> !(partial != "" && partial[|partial| - 1] == '\r' && forall j :: 0 <= j < |chunk| ==> chunk[j] == '\r')
  {
    AllCR(chunk);
    var kept := TrimCR(chunk);
    var line := partial + kept;
    assert kept == "" ==> line == partial;
    assert kept != "" ==> line[|line| - 1] == kept[|kept| - 1];
    hide TrimCR;
    assert line != "" ==> line in Reported(line);
  }

  lemma {:induction false} FeedFreshClean(bytes: string)
    ensures forall line :: line in Feed("", bytes).0 ==> Clean(line)
    decreases |bytes|
  {
    var i := IndexByte(bytes, '\n');
    if i >= 0 {
      var chunk := bytes[..i];
      assert bytes[..i + 1] == chunk + "\n";
      TrimEnding(chunk);
      assert "" + TrimCR(chunk) == TrimCR(chunk);
      FeedFreshClean(bytes[i + 1..]);
    }
  }

  lemma {:induction false} FeedAllClean(partial: string, chunks: seq<string>)
    ensures (forall line :: line in FeedAll(partial, chunks).0 ==> Clean(line)) <==> NoSplitEnding(partial, chunks)
    decreases chunks
  {
    if chunks != [] {
      var (lines, fragment) := Feed(partial, chunks[0]);
      var more := FeedAll(Carry(fragment), chunks[1..]).0;
      FeedClean(partial, chunks[0]);
      FeedAllClean(Carry(fragment), chunks[1..]);
      forall line ensures line in lines + more <==> line in lines || line in more {}
    }
  }

  // The reported lines are, byte for byte, those of a single cut if and only if no poll
  // dropped the beginning of a line and none stopped inside a line ending.
  lemma ChunkingExact(partial: string, chunks: seq<string>)
    requires '\n' !in partial
    ensures FeedAll(partial, chunks).0 == Tidy(Lines(partial + Flatten(chunks)))
            <==> NothingLost(partial, chunks) && NoSplitEnding(partial, chunks)
  {
    hide FeedAll, Tidy, Lines, NothingLost, NoSplitEnding, Flatten;
    var cut := Lines(partial + Flatten(chunks));
    LinesKeptExactly(partial, chunks);
    FeedAllClean(partial, chunks);
    TidyIsClean(cut);
    CleanIsTidy(Tidy(cut));
    if NoSplitEnding(partial, chunks) {
      CleanIsTidy(FeedAll(partial, chunks).0);
    }
  }

  // A line whose first 65537 bytes came alone is reported without them.
  lemma LongFragmentShown(start: string)
    requires |start| == MaxLineBytes + 1 && '\n' !in start
    ensures FeedAll("", [start, "b\n"]).0 == ["b"] && Lines(start + "b\n") == [start + "b"]
  {
    hide Feed, FeedAll, Lines;
    OneFragment(start);
    OneLineFed();
    TwoFed("", start, "b\n");
    assert [] + ["b"] == ["b"];
    assert start + "b\n" == (start + "b") + "\n" + "";
    LinesFirst(start + "b", "");
    NoLines("");
    assert [start + "b"] + [] == [start + "b"];
  }

  lemma TwoFed(partial: string, a: string, b: string)
    ensures var f := Feed(partial, a);
            FeedAll(partial, [a, b]).0 == f.0 + Feed(Carry(f.1), b).0
  {
    hide Feed;
    assert [a, b][1..] == [b] && [b][1..] == [];
    var held := Carry(Feed(partial, a).1);
    var g := Feed(held, b);
    assert FeedAll(Carry(g.1), []) == ([], Carry(g.1));
    assert g.0 + [] == g.0;
    assert FeedAll(held, [b]).0 == g.0;
  }

  lemma OneFragment(start: string)
    requires '\n' !in start
    ensures Feed("", start) == ([], start)
  {
    IndexAnyNone(start, {'\n'});
    assert "" + start == start;
  }

  lemma OneLineFed()
    ensures Feed("", "b\n") == (["b"], "")
  {
    OneFragment("");
    hide Feed;
    FeedFirst("", "b", "");
    assert "b" + "\n" + "" == "b\n" && "" + "b" == "b" && "b" + "" == "b" && ["b"] + [] == ["b"];
    TrimRightIs("b", "", {'\r'});
  }

  // The shortest case: the second poll reports "a\r" where one cut has "a".
  lemma SplitEndingShown()
    ensures FeedAll("", ["a\r", "\n"]).0 == ["a\r"]
    ensures Tidy(Lines(Flatten(["a\r", "\n"]))) == ["a"]
  {
    hide Feed;
    var chunks := ["a\r", "\n"];
    assert chunks[1..] == ["\n"] && ["\n"][1..] == [];
    TwoFeeds();
    hide Lines, Tidy;
    assert Flatten(chunks) == "a\r\n";
    OneCut();
  }

  lemma TwoFeeds()
    ensures Feed("", "a\r") == ([], "a\r") && Feed("a\r", "\n") == (["a\r"], "")
  {
    assert "a\r"[0] == 'a' && "a\r"[1] == '\r';
    IndexAnyNone("a\r", {'\n'});
    assert "" + "a\r" == "a\r";
    IndexAnyNone("", {'\n'});
    assert "" + "" == "";
    assert Feed("", "") == ([], "");
    hide Feed;
    assert "" + "\n" + "" == "\n" && "a\r" + "" == "a\r" && ["a\r"] + [] == ["a\r"];
    FeedFirst("a\r", "", "");
  }

  lemma OneCut()
    ensures Tidy(Lines("a\r\n")) == ["a"]
  {
    LinesFirst("a\r", "");
    assert "a\r" + "\n" + "" == "a\r\n" && "a\r" == "a" + "\r";
    TrimRightIs("a", "\r", {'\r'});
    assert Lines("a\r\n") == ["a\r"] && ["a\r"][1..] == [];
  }

  // ---------------------------------------------------------------------
  // Whole lines
  // ---------------------------------------------------------------------

  predicate AtLineStart(before: string) { before != "" ==> before[|before| - 1] == '\n' }

  lemma {:induction false} RestAtLineStart(before: string)
    ensures Rest(before) == "" <==> AtLineStart(before)
    decreases |before|
  {
    var i := IndexByte(before, '\n');
    if i >= 0 {
      RestAtLineStart(before[i + 1..]);
    }
  }

  // Cutting bytes from the middle of a file gives whole lines of the file if and only
  // if they start at the start of a line, or end no line.
  lemma WholeLinesExactly(before: string, bytes: string)
    ensures Lines(before + bytes) == Lines(before) + Lines(bytes) <==> AtLineStart(before) || '\n' !in bytes
  {
    hide Lines, Rest, AtLineStart;
    RestAtLineStart(before);
    LinesConcat(before, bytes);
    if '\n' in bytes {
      var i := IndexByte(bytes, '\n');
      var line, rest := bytes[..i], bytes[i + 1..];
      assert bytes == line + "\n" + rest;
      LineCutShort(Lines(before), Rest(before), line, rest);
    } else {
      NoLines(bytes);
      NoLines(Rest(before) + bytes);
    }
  }

  // Starting after the first byte of the line "ab" reports the line "b".
  lemma MidLineShown()
    ensures Lines("ab\n") == ["ab"] && Lines("ab\n"[1..]) == ["b"]
  {
    assert "ab" + "\n" + "" == "ab\n" && "b" + "\n" + "" == "ab\n"[1..];
    LinesFirst("ab", "");
    LinesFirst("b", "");
    NoLines("");
  }

  lemma NoLines(bytes: string)
    requires '\n' !in bytes
    ensures Lines(bytes) == []
  {
    IndexAnyNone(bytes, {'\n'});
  }

  lemma LineCutShort(front: seq<string>, held: string, line: string, rest: string)
    requires '\n' !in held && '\n' !in line
    ensures var bytes := line + "\n" + rest;
            front + Lines(held + bytes) == front + Lines(bytes) <==> held == ""
  {
    hide Lines;
    Associative(held, line + "\n", rest);
    Associative(held, line, "\n");
    LinesFirst(line, rest);
    LinesFirst(held + line, rest);
    FirstLineDiffers(front, line, held, Lines(rest));
  }

  lemma FirstLineDiffers(front: seq<string>, line: string, held: string, rest: seq<string>)
    ensures front + ([held + line] + rest) == front + ([line] + rest) <==> held == ""
  {
    if held == "" {
      assert held + line == line;
    } else {
      assert (front + ([held + line] + rest))[|front|] == held + line;
      assert (front + ([line] + rest))[|front|] == line;
    }
  }
}
