/**
 One tick of the access-log collector: lines in, events out. Counts and times
 first, the ranked lists last, so that what a full queue drops is never a metric
 the host had before it asked for the lists.
 */
module AccessLog {
  import opened Text
  import opened Wrappers
  import opened Reservoirs
  import opened LogTails
  import opened Referrers
  import opened Rows

  const DefaultTimeSamples: nat := 20

  const MaxRankedRowsPerTick: nat := 5000

  datatype Event =
    | RequestCount(class_: string, n: nat)
    | RequestTime(ms: real)
    | UpstreamTime(ms: real)
    | Top(visitor: nat, metric: string, item: string)

  const MetricPages: string := "nginx.pages"
  const MetricErrorPages: string := "nginx.error_pages"
  const MetricReferrers: string := "nginx.referrers"

  // The line parser, which rests on float parsing, and the address hash.
  type Parser = string -> Option<Entry>
  type Hash = string -> nat

  // ---------------------------------------------------------------------
  // What a tick reports
  // ---------------------------------------------------------------------

  function Parsed(parse: Parser, lines: seq<string>): seq<Entry> {
    if lines == [] then []
    else
      var last := parse(lines[|lines| - 1]);
      Parsed(parse, lines[..|lines| - 1]) + if last.Some? then [last.value] else []
  }

  // Every line that parses is an entry, in order.
  lemma {:induction false} ParsedConcat(parse: Parser, a: seq<string>, b: seq<string>)
    ensures Parsed(parse, a + b) == Parsed(parse, a) + Parsed(parse, b)
    ensures |b| == 1 ==> Parsed(parse, b) == match parse(b[0]) case Some(e) => [e] case None => []
    decreases |b|
  {
    if b == [] {
      assert a + b == a;
    } else {
      var front := b[..|b| - 1];
      ParsedConcat(parse, a, front);
      assert (a + b)[..|a + b| - 1] == a + front;
      assert Parsed(parse, []) == [];
    }
  }

  function Times(es: seq<Entry>, upstream: bool): seq<real> {
    if es == [] then []
    else
      var last := es[|es| - 1];
      var time := if upstream then last.upstreamTime else last.requestTime;
      Times(es[..|es| - 1], upstream) + if time.Some? then [time.value] else []
  }

  function Counted(es: seq<Entry>, class_: string): nat {
    if es == [] then 0
    else Counted(es[..|es| - 1], class_) + if es[|es| - 1].statusClass == class_ then 1 else 0
  }

  // Both reservoirs share one random source; which of its answers each received
  // depends on the entries alone.
  datatype Tapes = Tapes(request: seq<nat>, upstream: seq<nat>, pos: nat)

  function OneDraw(k: nat, offered: nat, draws: seq<nat>, pos: nat): seq<nat> {
    if offered < k then [] else [Draw(draws, pos, offered + 1)]
  }

  function TapesOf(k: nat, es: seq<Entry>, draws: seq<nat>, pos: nat): Tapes {
    if es == [] then Tapes([], [], pos)
    else
      var earlier, last := es[..|es| - 1], es[|es| - 1];
      var t := TapesOf(k, earlier, draws, pos);
      var r := if last.requestTime.Some? then OneDraw(k, |Times(earlier, false)|, draws, t.pos) else [];
      var u := if last.upstreamTime.Some? then OneDraw(k, |Times(earlier, true)|, draws, t.pos + |r|) else [];
      Tapes(t.request + r, t.upstream + u, t.pos + |r| + |u|)
  }

  lemma {:induction false} TapesFit(k: nat, es: seq<Entry>, draws: seq<nat>, pos: nat)
    ensures var t := TapesOf(k, es, draws, pos);
            && |t.request| == Drawn(k, |Times(es, false)|) && ValidTape(k, t.request)
            && |t.upstream| == Drawn(k, |Times(es, true)|) && ValidTape(k, t.upstream)
  {
    if es != [] {
      TapesFit(k, es[..|es| - 1], draws, pos);
    }
  }

  // --- one source, two samples ---------------------------------------------

  // The n-th time offered draws once the sample is full.
  function Draws(k: nat, time: Option<real>, offered: nat): nat { if time.Some? && offered >= k then 1 else 0 }

  // The order in which one source gives out the answers of two tapes.
  function Merged(k: nat, es: seq<Entry>, request: seq<nat>, upstream: seq<nat>): seq<nat> {
    if es == [] then []
    else
      var earlier, last := es[..|es| - 1], es[|es| - 1];
      var r := Draws(k, last.requestTime, |Times(earlier, false)|);
      var u := Draws(k, last.upstreamTime, |Times(earlier, true)|);
      if |request| < r || |upstream| < u then []
      else
        Merged(k, earlier, request[..|request| - r], upstream[..|upstream| - u])
        + (request[|request| - r..] + upstream[|upstream| - u..])
  }

  // A tape for the times offered so far.
  ghost predicate TapeFor(k: nat, times: seq<real>, tape: seq<nat>) {
    |tape| == Drawn(k, |times|) && ValidTape(k, tape)
  }

  // One entry's part of a tape: everything before it, and its own draw if it has one.
  lemma TapeFront(k: nat, earlier: seq<real>, time: Option<real>, tape: seq<nat>) returns (rest: seq<nat>, own: seq<nat>)
    requires TapeFor(k, earlier + (if time.Some? then [time.value] else []), tape)
    ensures |own| == Draws(k, time, |earlier|)
    ensures tape == rest + own && TapeFor(k, earlier, rest) && (own != [] ==> own[0] < |earlier| + 1)
  {
    var n := Draws(k, time, |earlier|);
    rest, own := tape[..|tape| - n], tape[|tape| - n..];
  }

  // The draw one value costs, if it costs one, as the source answers it.
  ghost predicate Answer(k: nat, time: Option<real>, offered: nat, own: seq<nat>, draws: seq<nat>, pos: nat) {
    && |own| == Draws(k, time, offered)
    && (own != [] ==> own[0] < offered + 1)
    && pos + |own| <= |draws| && draws[pos..pos + |own|] == own
  }

  lemma DrawnNext(k: nat, time: Option<real>, offered: nat, own: seq<nat>, draws: seq<nat>, pos: nat)
    requires Answer(k, time, offered, own, draws, pos)
    ensures (if time.Some? then OneDraw(k, offered, draws, pos) else []) == own
  {
    if own != [] {
      assert draws[pos] == draws[pos..pos + 1][0] == own[0];
    }
  }

  lemma StepTapes(k: nat, earlier: seq<Entry>, last: Entry, t: Tapes, own: seq<nat>, other: seq<nat>, draws: seq<nat>)
    requires TapesOf(k, earlier, draws, 0) == t
    requires Answer(k, last.requestTime, |Times(earlier, false)|, own, draws, t.pos)
    requires Answer(k, last.upstreamTime, |Times(earlier, true)|, other, draws, t.pos + |own|)
    ensures TapesOf(k, earlier + [last], draws, 0)
         == Tapes(t.request + own, t.upstream + other, t.pos + |own| + |other|)
  {
    hide Times, TapesOf, OneDraw;
    OneMoreEntry(k, earlier, last, draws, 0);
    DrawnNext(k, last.requestTime, |Times(earlier, false)|, own, draws, t.pos);
    DrawnNext(k, last.upstreamTime, |Times(earlier, true)|, other, draws, t.pos + |own|);
  }

  lemma MergedLast(k: nat, earlier: seq<Entry>, last: Entry,
                   rest: seq<nat>, own: seq<nat>, uRest: seq<nat>, uOwn: seq<nat>)
    requires |own| == Draws(k, last.requestTime, |Times(earlier, false)|)
    requires |uOwn| == Draws(k, last.upstreamTime, |Times(earlier, true)|)
    ensures Merged(k, earlier + [last], rest + own, uRest + uOwn) == Merged(k, earlier, rest, uRest) + (own + uOwn)
  {
    hide Draws, Times;
    assert (earlier + [last])[..|earlier|] == earlier;
    var request, upstream := rest + own, uRest + uOwn;
    assert request[..|rest|] == rest && request[|rest|..] == own;
    assert upstream[..|uRest|] == uRest && upstream[|uRest|..] == uOwn;
  }

  lemma Slices(draws: seq<nat>, before: seq<nat>, own: seq<nat>, other: seq<nat>)
    requires before + (own + other) <= draws
    ensures before <= draws && |before| + |own| + |other| <= |draws|
    ensures draws[|before|..|before| + |own|] == own
    ensures draws[|before| + |own|..|before| + |own| + |other|] == other
  {
    var all := before + (own + other);
    assert draws[..|all|] == all;
    assert all[|before|..|before| + |own|] == own;
    assert all[|before| + |own|..] == other;
  }

  lemma SharedStep(k: nat, earlier: seq<Entry>, last: Entry, request: seq<nat>, upstream: seq<nat>, draws: seq<nat>)
    returns (rest: seq<nat>, uRest: seq<nat>, own: seq<nat>, uOwn: seq<nat>)
    requires var es := earlier + [last];
             && TapeFor(k, Times(es, false), request) && TapeFor(k, Times(es, true), upstream)
             && Merged(k, es, request, upstream) <= draws
    ensures request == rest + own && upstream == uRest + uOwn
    ensures TapeFor(k, Times(earlier, false), rest) && TapeFor(k, Times(earlier, true), uRest)
    ensures var before := Merged(k, earlier, rest, uRest);
            && before <= draws
            && |Merged(k, earlier + [last], request, upstream)| == |before| + |own| + |uOwn|
            && Answer(k, last.requestTime, |Times(earlier, false)|, own, draws, |before|)
            && Answer(k, last.upstreamTime, |Times(earlier, true)|, uOwn, draws, |before| + |own|)
  {
    hide Times, TapesOf, Merged;
    TimesSnoc(earlier, last);
    rest, own := TapeFront(k, Times(earlier, false), last.requestTime, request);
    uRest, uOwn := TapeFront(k, Times(earlier, true), last.upstreamTime, upstream);
    hide TapeFor, Draws;
    MergedLast(k, earlier, last, rest, own, uRest, uOwn);
    Slices(draws, Merged(k, earlier, rest, uRest), own, uOwn);
  }

  lemma NoEntries(k: nat, request: seq<nat>, upstream: seq<nat>, draws: seq<nat>)
    requires TapeFor(k, Times([], false), request) && TapeFor(k, Times([], true), upstream)
    ensures request == upstream == [] == Merged(k, [], request, upstream)
    ensures TapesOf(k, [], draws, 0) == Tapes([], [], 0)
  {
  }

  // Sharing one source does not tie the two samples together: any pair of tapes is
  // what some answers of the source give the two reservoirs.
  lemma {:induction false} SharedSource(k: nat, es: seq<Entry>, request: seq<nat>, upstream: seq<nat>, draws: seq<nat>)
    requires TapeFor(k, Times(es, false), request) && TapeFor(k, Times(es, true), upstream)
    requires Merged(k, es, request, upstream) <= draws
    ensures |Merged(k, es, request, upstream)| == |request| + |upstream|
    ensures TapesOf(k, es, draws, 0) == Tapes(request, upstream, |request| + |upstream|)
  {
    hide Times, TapesOf, Merged, TapeFor, Answer, OneDraw, Draws;
    if es == [] {
      NoEntries(k, request, upstream, draws);
    } else {
      var earlier, last := es[..|es| - 1], es[|es| - 1];
      assert es == earlier + [last];
      var rest, uRest, own, uOwn := SharedStep(k, earlier, last, request, upstream, draws);
      SharedSource(k, earlier, rest, uRest, draws);
      StepTapes(k, earlier, last, Tapes(rest, uRest, |rest| + |uRest|), own, uOwn, draws);
    }
  }

  // And different pairs come from different answers.
  lemma AnswersUnique(k: nat, es: seq<Entry>, request: seq<nat>, upstream: seq<nat>, other: seq<nat>, otherUp: seq<nat>)
    requires TapeFor(k, Times(es, false), request) && TapeFor(k, Times(es, true), upstream)
    requires TapeFor(k, Times(es, false), other) && TapeFor(k, Times(es, true), otherUp)
    requires Merged(k, es, request, upstream) == Merged(k, es, other, otherUp)
    ensures request == other && upstream == otherUp
  {
    SharedSource(k, es, request, upstream, Merged(k, es, request, upstream));
    SharedSource(k, es, other, otherUp, Merged(k, es, request, upstream));
  }

  function CountEvents(es: seq<Entry>, classes: seq<string>): seq<Event> {
    if classes == [] then []
    else
      var n := Counted(es, classes[|classes| - 1]);
      CountEvents(es, classes[..|classes| - 1]) + if n == 0 then [] else [RequestCount(classes[|classes| - 1], n)]
  }

  function TimeEvent(sec: real, upstream: bool): Event {
    if upstream then UpstreamTime(sec * 1000.0) else RequestTime(sec * 1000.0)
  }

  function TimeEvents(samples: seq<real>, upstream: bool): seq<Event> {
    seq(|samples|, i requires 0 <= i < |samples| => TimeEvent(samples[i], upstream))
  }

  // One request's part in the ranked lists.
  function Recorded(siteHost: string, hash: Hash, e: Entry): seq<Event> {
    var rows := RowsFor(siteHost, e);
    if e.remoteAddr == "" then []
    else
      (if rows.page == "" then [] else [Top(hash(e.remoteAddr), MetricPages, rows.page)]) +
      (if rows.failing == "" then [] else [Top(hash(e.remoteAddr), MetricErrorPages, rows.failing)]) +
      (if rows.referrer == "" then [] else [Top(hash(e.remoteAddr), MetricReferrers, rows.referrer)])
  }

  function RankedEvents(siteHost: string, hash: Hash, es: seq<Entry>): seq<Event> {
    if es == [] then []
    else RankedEvents(siteHost, hash, es[..|es| - 1]) + Recorded(siteHost, hash, es[|es| - 1])
  }

  function FirstRows(es: seq<Entry>): seq<Entry> {
    if |es| <= MaxRankedRowsPerTick then es else es[..MaxRankedRowsPerTick]
  }

  // Everything a tick reports whether or not the ranked lists are on.
  function AlwaysOn(k: nat, es: seq<Entry>, draws: seq<nat>, pos: nat, classes: seq<string>): seq<Event> {
    TapesFit(k, es, draws, pos);
    var t := TapesOf(k, es, draws, pos);
    CountEvents(es, classes)
    + TimeEvents(Kept(k, Times(es, false), t.request), false)
    + TimeEvents(Kept(k, Times(es, true), t.upstream), true)
  }

  // `classes` is the order in which the map of counts happens to be walked.
  ghost predicate Walk(classes: seq<string>, es: seq<Entry>) {
    && (forall i, j :: 0 <= i < j < |classes| ==> classes[i] != classes[j])
    && (forall i :: 0 <= i < |es| ==> es[i].statusClass in classes)
  }

  // ---------------------------------------------------------------------
  // The collector
  // ---------------------------------------------------------------------

  class AccessLogCollector {
    const maxSamples: nat
    const topLists: bool
    const siteHost: string
    const rand: Rand
    const reader: LogTail

    constructor (maxSamples: int, topLists: bool, siteHost: string, draws: seq<nat>)
      ensures this.maxSamples == (if maxSamples <= 0 then DefaultTimeSamples else maxSamples) > 0
      ensures this.topLists == topLists && this.siteHost == Site(TrimSpace(siteHost))
      ensures fresh(rand) && rand.draws == draws && rand.pos == 0
      ensures fresh(reader) && reader.Now() == Unopened
    {
      hide Site, TrimSpace;
      this.maxSamples := if maxSamples <= 0 then DefaultTimeSamples else maxSamples;
      this.topLists := topLists;
      var site := ReferrerSite(TrimSpace(siteHost));
      this.siteHost := site;
      rand := new Rand(draws);
      reader := new LogTail();
    }

    // Both reservoirs have been offered what the entries `es` carry.
    ghost predicate Sampled(q: Reservoir<real>, u: Reservoir<real>, es: seq<Entry>, start: nat)
      reads rand, q, u
    {
      var t := TapesOf(maxSamples, es, rand.draws, start);
      && q.Valid() && q.limit == maxSamples && q.values == Times(es, false) && q.tape == t.request
      && u.Valid() && u.limit == maxSamples && u.values == Times(es, true) && u.tape == t.upstream
      && rand.pos == t.pos
    }

    method OfferIfTimed(q: Reservoir<real>, time: Option<real>)
      requires q.Valid()
      modifies rand, q
      ensures q.Valid()
      ensures q.values == old(q.values) + if time.Some? then [time.value] else []
      ensures var d := if time.Some? then OneDraw(q.limit, |old(q.values)|, rand.draws, old(rand.pos)) else [];
              q.tape == old(q.tape) + d && rand.pos == old(rand.pos) + |d|
    {
      hide Kept, ValidTape, Drawn, Draw;
      if time.Some? {
        q.Offer(rand, time.value);
      }
    }

    method OfferTimes(q: Reservoir<real>, u: Reservoir<real>, e: Entry, ghost es: seq<Entry>, ghost start: nat)
      requires q != u && Sampled(q, u, es, start)
      modifies rand, q, u
      ensures Sampled(q, u, es + [e], start)
    {
      hide Times, TapesOf, OneDraw, q.Valid;
      OneMoreEntry(maxSamples, es, e, rand.draws, start);
      OfferIfTimed(q, e.requestTime);
      OfferIfTimed(u, e.upstreamTime);
    }

    // The pass over the lines.
    method Tally(lines: seq<string>, parse: Parser)
      returns (counts: map<string, nat>, requestTimes: Reservoir<real>, upstreamTimes: Reservoir<real>, ranked: seq<Entry>)
      modifies rand
      ensures var es := Parsed(parse, lines);
              && CountsOk(es, counts)
              && ranked == (if topLists then FirstRows(es) else [])
              && Sampled(requestTimes, upstreamTimes, es, old(rand.pos))
    {
      hide Counted, Times, TapesOf;
      counts, ranked := map[], [];
      requestTimes := new Reservoir(maxSamples);
      upstreamTimes := new Reservoir(maxSamples);
      ghost var start := rand.pos;
      ghost var es: seq<Entry> := [];
      NothingYet(maxSamples, rand.draws, start);
      for i := 0 to |lines|
        invariant es == Parsed(parse, lines[..i])
        invariant fresh(requestTimes) && fresh(upstreamTimes) && requestTimes != upstreamTimes
        invariant Sampled(requestTimes, upstreamTimes, es, start)
        invariant ranked == if topLists then FirstRows(es) else []
        invariant CountsOk(es, counts)
      {
        assert lines[..i + 1][..i] == lines[..i];
        var entry := parse(lines[i]);
        if entry.Some? {
          var e := entry.value;
          CountOne(es, counts, e);
          counts := counts[e.statusClass := (if e.statusClass in counts then counts[e.statusClass] else 0) + 1];
          if topLists && |ranked| < MaxRankedRowsPerTick {
            ranked := ranked + [e];
          }
          OfferTimes(requestTimes, upstreamTimes, e, es, start);
          es := es + [e];
        }
      }
      assert lines[..|lines|] == lines;
    }

    // One tick. With the lists on, the events are those of a tick with them off,
    // followed only by the rows of the first MaxRankedRowsPerTick entries.
    method Collect(s: Sight, parse: Parser, hash: Hash, classes: seq<string>)
      returns (events: seq<Event>, failed: bool)
      modifies rand, reader
      ensures (reader.Now(), failed) == (Polled(old(reader.Now()), s).0, Polled(old(reader.Now()), s).1.Err?)
      ensures failed ==> events == [] && rand.pos == old(rand.pos)
      ensures !failed ==>
                var es := Parsed(parse, Polled(old(reader.Now()), s).1.value);
                && rand.pos == TapesOf(maxSamples, es, rand.draws, old(rand.pos)).pos
                && events == AlwaysOn(maxSamples, es, rand.draws, old(rand.pos), classes)
                             + if topLists then RankedEvents(siteHost, hash, FirstRows(es)) else []
    {
      hide Polled, Parsed, TapesOf, Times, Counted, Kept;
      var polled := reader.ReadNewLines(s);
      if polled.Err? {
        return [], true;
      }
      ghost var es := Parsed(parse, polled.value);
      ghost var start := rand.pos;
      var counts, requestTimes, upstreamTimes, ranked := Tally(polled.value, parse);
      TapesFit(maxSamples, es, rand.draws, start);
      var counted := EmitCounts(es, counts, classes);
      var request := EmitTimes(requestTimes.samples, false);
      var upstream := EmitTimes(upstreamTimes.samples, true);
      var rows := EmitRows(siteHost, hash, ranked);
      assert !topLists ==> rows == [];
      return counted + request + upstream + rows, false;
    }
  }

  method EmitCounts(ghost es: seq<Entry>, counts: map<string, nat>, classes: seq<string>) returns (events: seq<Event>)
    requires CountsOk(es, counts)
    ensures events == CountEvents(es, classes)
  {
    events := [];
    for i := 0 to |classes|
      invariant events == CountEvents(es, classes[..i])
    {
      assert classes[..i + 1][..i] == classes[..i];
      if classes[i] in counts {
        events := events + [RequestCount(classes[i], counts[classes[i]])];
      }
    }
    assert classes[..|classes|] == classes;
  }

  method EmitTimes(samples: seq<real>, upstream: bool) returns (events: seq<Event>)
    ensures events == TimeEvents(samples, upstream)
  {
    events := [];
    for i := 0 to |samples|
      invariant events == TimeEvents(samples, upstream)[..i]
    {
      events := events + [TimeEvent(samples[i], upstream)];
    }
  }

  method EmitRows(siteHost: string, hash: Hash, ranked: seq<Entry>) returns (events: seq<Event>)
    ensures events == RankedEvents(siteHost, hash, ranked)
  {
    hide Recorded;
    events := [];
    for i := 0 to |ranked|
      invariant events == RankedEvents(siteHost, hash, ranked[..i])
    {
      assert ranked[..i + 1][..i] == ranked[..i];
      events := events + Recorded(siteHost, hash, ranked[i]);
    }
    assert ranked[..|ranked|] == ranked;
  }

  ghost predicate CountsOk(es: seq<Entry>, counts: map<string, nat>) {
    && (forall c :: c in counts <==> Counted(es, c) > 0)
    && (forall c :: c in counts ==> counts[c] == Counted(es, c))
  }

  lemma NothingYet(k: nat, draws: seq<nat>, pos: nat)
    ensures CountsOk([], map[]) && TapesOf(k, [], draws, pos) == Tapes([], [], pos)
    ensures Times([], false) == [] && Times([], true) == []
  {
  }

  lemma TimesSnoc(es: seq<Entry>, e: Entry)
    ensures Times(es + [e], false) == Times(es, false) + if e.requestTime.Some? then [e.requestTime.value] else []
    ensures Times(es + [e], true) == Times(es, true) + if e.upstreamTime.Some? then [e.upstreamTime.value] else []
  {
    assert (es + [e])[..|es|] == es;
  }

  lemma OneMoreEntry(k: nat, es: seq<Entry>, e: Entry, draws: seq<nat>, pos: nat)
    ensures var t := TapesOf(k, es, draws, pos);
            var r := if e.requestTime.Some? then OneDraw(k, |Times(es, false)|, draws, t.pos) else [];
            var u := if e.upstreamTime.Some? then OneDraw(k, |Times(es, true)|, draws, t.pos + |r|) else [];
            TapesOf(k, es + [e], draws, pos) == Tapes(t.request + r, t.upstream + u, t.pos + |r| + |u|)
    ensures Times(es + [e], false) == Times(es, false) + if e.requestTime.Some? then [e.requestTime.value] else []
    ensures Times(es + [e], true) == Times(es, true) + if e.upstreamTime.Some? then [e.upstreamTime.value] else []
  {
    hide OneDraw, Draw;
    TimesSnoc(es, e);
    hide Times;
    assert (es + [e])[..|es|] == es;
  }

  lemma CountOne(es: seq<Entry>, counts: map<string, nat>, e: Entry)
    requires CountsOk(es, counts)
    ensures var n := if e.statusClass in counts then counts[e.statusClass] else 0;
            CountsOk(es + [e], counts[e.statusClass := n + 1])
  {
    assert (es + [e])[..|es|] == es;
    assert forall c :: Counted(es + [e], c) == Counted(es, c) + if e.statusClass == c then 1 else 0;
  }

  // ---------------------------------------------------------------------
  // Nothing is counted twice or not at all
  // ---------------------------------------------------------------------

  function Total(events: seq<Event>): nat {
    if events == [] then 0
    else Total(events[..|events| - 1]) +
         match events[|events| - 1] case RequestCount(_, n) => n case _ => 0
  }

  function CountedAll(es: seq<Entry>, classes: seq<string>): nat {
    if classes == [] then 0
    else CountedAll(es, classes[..|classes| - 1]) + Counted(es, classes[|classes| - 1])
  }

  lemma {:induction false} TotalOfCounts(es: seq<Entry>, classes: seq<string>)
    ensures Total(CountEvents(es, classes)) == CountedAll(es, classes)
  {
    if classes != [] {
      var earlier, last := classes[..|classes| - 1], classes[|classes| - 1];
      TotalOfCounts(es, earlier);
      var before := CountEvents(es, earlier);
      var more := before + [RequestCount(last, Counted(es, last))];
      assert more[..|more| - 1] == before;
      assert before + [] == before;
    }
  }

  // One more entry adds one to exactly the class it belongs to.
  lemma {:induction false} CountedAllStep(es: seq<Entry>, e: Entry, classes: seq<string>)
    requires forall i, j :: 0 <= i < j < |classes| ==> classes[i] != classes[j]
    ensures CountedAll(es + [e], classes) == CountedAll(es, classes) + if e.statusClass in classes then 1 else 0
  {
    assert (es + [e])[..|es|] == es;
    if classes != [] {
      var n := |classes| - 1;
      CountedAllStep(es, e, classes[..n]);
      assert classes == classes[..n] + [classes[n]];
      assert classes[n] !in classes[..n];
    }
  }

  lemma {:induction false} NoneCounted(classes: seq<string>)
    ensures CountedAll([], classes) == 0
  {
    if classes != [] {
      NoneCounted(classes[..|classes| - 1]);
    }
  }

  // The class counts of a tick add up to the number of lines that parsed.
  lemma {:induction false} CountsAddUp(es: seq<Entry>, classes: seq<string>)
    requires Walk(classes, es)
    ensures Total(CountEvents(es, classes)) == |es|
    decreases |es|
  {
    TotalOfCounts(es, classes);
    if es == [] {
      NoneCounted(classes);
    } else {
      var earlier, last := es[..|es| - 1], es[|es| - 1];
      CountsAddUp(earlier, classes);
      TotalOfCounts(earlier, classes);
      CountedAllStep(earlier, last, classes);
      assert es == earlier + [last];
    }
  }

  function OfClass(es: seq<Entry>, class_: string): set<nat> {
    set i: nat | i < |es| && es[i].statusClass == class_
  }

  lemma {:induction false} CountedIs(es: seq<Entry>, class_: string)
    ensures Counted(es, class_) == |OfClass(es, class_)|
  {
    if es != [] {
      var n := |es| - 1;
      CountedIs(es[..n], class_);
      assert OfClass(es, class_) == OfClass(es[..n], class_) + if es[n].statusClass == class_ then {n} else {};
    }
  }

  // In whatever order they are walked, each class that occurs is reported once, with the
  // number of entries of that class, and no other is.
  lemma {:induction false} ClassesReported(es: seq<Entry>, classes: seq<string>)
    requires forall i, j :: 0 <= i < j < |classes| ==> classes[i] != classes[j]
    ensures var events := CountEvents(es, classes);
            && (forall c, n :: RequestCount(c, n) in events <==> c in classes && n == |OfClass(es, c)| > 0)
            && forall i, j :: 0 <= i < j < |events| ==> events[i] != events[j]
  {
    hide Counted, OfClass;
    if classes != [] {
      var earlier, last := classes[..|classes| - 1], classes[|classes| - 1];
      ClassesReported(es, earlier);
      CountsOnly(es, earlier);
      CountedIs(es, last);
      assert classes == earlier + [last] && last !in earlier;
    }
  }

  // ---------------------------------------------------------------------
  // What a tick publishes
  // ---------------------------------------------------------------------

  // What of the events one looks at, in order.
  function Published<T>(events: seq<Event>, pick: Event -> seq<T>): seq<T> {
    if events == [] then [] else Published(events[..|events| - 1], pick) + pick(events[|events| - 1])
  }

  // The values of nginx.request_time_ms, and those of nginx.upstream_time_ms.
  function RequestMs(e: Event): seq<real> { match e case RequestTime(ms) => [ms] case _ => [] }

  function UpstreamMs(e: Event): seq<real> { match e case UpstreamTime(ms) => [ms] case _ => [] }

  // Visitors and items of each ranked list, and what belongs in none.
  function Listed(e: Event, metric: string): seq<(nat, string)> {
    match e
    case Top(visitor, m, item) => if m == metric then [(visitor, item)] else []
    case _ => []
  }

  function Page(e: Event): seq<(nat, string)> { Listed(e, "nginx.pages") }

  function ErrorPage(e: Event): seq<(nat, string)> { Listed(e, "nginx.error_pages") }

  function Referrer(e: Event): seq<(nat, string)> { Listed(e, "nginx.referrers") }

  function Unlisted(e: Event): seq<Event> {
    if e.Top? && e.metric !in {"nginx.pages", "nginx.error_pages", "nginx.referrers"} then [e] else []
  }

  lemma {:induction false} PublishedConcat<T>(a: seq<Event>, b: seq<Event>, pick: Event -> seq<T>)
    ensures Published(a + b, pick) == Published(a, pick) + Published(b, pick)
    decreases |b|
  {
    if b == [] {
      assert a + b == a;
    } else {
      var earlier, last := b[..|b| - 1], b[|b| - 1];
      PublishedConcat(a, earlier, pick);
      assert (a + b)[..|a + b| - 1] == a + earlier;
      Associative(Published(a, pick), Published(earlier, pick), pick(last));
    }
  }

  lemma {:induction false} NonePublished<T>(events: seq<Event>, pick: Event -> seq<T>)
    requires forall e :: e in events ==> pick(e) == []
    ensures Published(events, pick) == []
  {
    if events != [] {
      NonePublished(events[..|events| - 1], pick);
    }
  }

  lemma {:induction false} CountsOnly(es: seq<Entry>, classes: seq<string>)
    ensures forall e :: e in CountEvents(es, classes) ==> e.RequestCount?
  {
    if classes != [] {
      CountsOnly(es, classes[..|classes| - 1]);
    }
  }

  lemma {:induction false} EachTime(samples: seq<real>, upstream: bool, pick: Event -> seq<real>)
    requires forall ms :: pick(if upstream then UpstreamTime(ms) else RequestTime(ms)) == [ms]
    ensures var got := Published(TimeEvents(samples, upstream), pick);
            |got| == |samples| && forall i :: 0 <= i < |samples| ==> got[i] == samples[i] * 1000.0
  {
    if samples != [] {
      var n := |samples| - 1;
      EachTime(samples[..n], upstream, pick);
      assert TimeEvents(samples, upstream)[..n] == TimeEvents(samples[..n], upstream);
    }
  }

  // One entry shows in a list with its row of that list, if it has one and an address.
  lemma OneShown<T>(siteHost: string, hash: Hash, e: Entry, pick: Event -> seq<T>)
    ensures var rows, visitor := RowsFor(siteHost, e), hash(e.remoteAddr);
            Published(Recorded(siteHost, hash, e), pick) ==
            if e.remoteAddr == "" then []
            else (if rows.page == "" then [] else pick(Top(visitor, "nginx.pages", rows.page)))
                 + (if rows.failing == "" then [] else pick(Top(visitor, "nginx.error_pages", rows.failing)))
                 + (if rows.referrer == "" then [] else pick(Top(visitor, "nginx.referrers", rows.referrer)))
  {
    hide RowsFor;
    var rows, visitor := RowsFor(siteHost, e), hash(e.remoteAddr);
    if e.remoteAddr != "" {
      var a := if rows.page == "" then [] else [Top(visitor, "nginx.pages", rows.page)];
      var b := if rows.failing == "" then [] else [Top(visitor, "nginx.error_pages", rows.failing)];
      var c := if rows.referrer == "" then [] else [Top(visitor, "nginx.referrers", rows.referrer)];
      AtMostOne(a, pick);
      AtMostOne(b, pick);
      AtMostOne(c, pick);
      hide Published;
      PublishedConcat(a + b, c, pick);
      PublishedConcat(a, b, pick);
    }
  }

  lemma AtMostOne<T>(events: seq<Event>, pick: Event -> seq<T>)
    requires |events| <= 1
    ensures Published(events, pick) == if events == [] then [] else pick(events[0])
  {
    if events != [] {
      assert events[..0] == [];
    }
  }

  datatype List = Pages | ErrorPages | Referrers

  function RowIn(rows: RankedRows, list: List): string {
    match list
    case Pages => rows.page
    case ErrorPages => rows.failing
    case Referrers => rows.referrer
  }

  // The rows the entries have in one list, each with the visitor it came from.
  function Visits(siteHost: string, hash: Hash, es: seq<Entry>, list: List): seq<(nat, string)> {
    if es == [] then []
    else
      var e := es[|es| - 1];
      var item := RowIn(RowsFor(siteHost, e), list);
      Visits(siteHost, hash, es[..|es| - 1], list)
      + if e.remoteAddr != "" && item != "" then [(hash(e.remoteAddr), item)] else []
  }

  // What looking at the events of one list shows of an entry's row.
  ghost predicate Shows(pick: Event -> seq<(nat, string)>, list: List) {
    && (forall v: nat, item :: pick(Top(v, "nginx.pages", item)) == if list.Pages? then [(v, item)] else [])
    && (forall v: nat, item :: pick(Top(v, "nginx.error_pages", item)) == if list.ErrorPages? then [(v, item)] else [])
    && (forall v: nat, item :: pick(Top(v, "nginx.referrers", item)) == if list.Referrers? then [(v, item)] else [])
  }

  lemma EntryShown(siteHost: string, hash: Hash, e: Entry, list: List, pick: Event -> seq<(nat, string)>)
    requires Shows(pick, list)
    ensures var item := RowIn(RowsFor(siteHost, e), list);
            Published(Recorded(siteHost, hash, e), pick)
            == if e.remoteAddr != "" && item != "" then [(hash(e.remoteAddr), item)] else []
  {
    OneShown(siteHost, hash, e, pick);
    hide Published, Recorded, RowsFor;
  }

  lemma {:induction false} ListShown(siteHost: string, hash: Hash, es: seq<Entry>, list: List,
                                     pick: Event -> seq<(nat, string)>)
    requires Shows(pick, list)
    ensures Published(RankedEvents(siteHost, hash, es), pick) == Visits(siteHost, hash, es, list)
  {
    if es != [] {
      var earlier, e := es[..|es| - 1], es[|es| - 1];
      ListShown(siteHost, hash, earlier, list, pick);
      EntryShown(siteHost, hash, e, list, pick);
      hide Recorded, RowsFor, Shows, RowIn, Published;
      PublishedConcat(RankedEvents(siteHost, hash, earlier), Recorded(siteHost, hash, e), pick);
    }
  }

  predicate Ranked(e: Event) { e.Top? && e.metric in {"nginx.pages", "nginx.error_pages", "nginx.referrers"} }

  lemma OneRanked(siteHost: string, hash: Hash, e: Entry)
    ensures forall x :: x in Recorded(siteHost, hash, e) ==> Ranked(x)
  {
    hide RowsFor;
  }

  lemma {:induction false} AllRanked(siteHost: string, hash: Hash, es: seq<Entry>)
    ensures forall e :: e in RankedEvents(siteHost, hash, es) ==> Ranked(e)
  {
    hide Recorded, Ranked;
    if es != [] {
      AllRanked(siteHost, hash, es[..|es| - 1]);
      OneRanked(siteHost, hash, es[|es| - 1]);
    }
  }

  // Each in milliseconds.
  ghost predicate Thousandfold(published: seq<real>, seconds: seq<real>) {
    |published| == |seconds| && forall i :: 0 <= i < |seconds| ==> published[i] == seconds[i] * 1000.0
  }

  // Of what a tick publishes, the request times are exactly the request times kept and
  // the upstream times those kept, in milliseconds and in order.
  lemma TickPublishesTimes(k: nat, es: seq<Entry>, draws: seq<nat>, pos: nat, classes: seq<string>,
                           topLists: bool, siteHost: string, hash: Hash)
    ensures var t := TapesOf(k, es, draws, pos);
            && |t.request| == Drawn(k, |Times(es, false)|) && ValidTape(k, t.request)
            && |t.upstream| == Drawn(k, |Times(es, true)|) && ValidTape(k, t.upstream)
            && var events := AlwaysOn(k, es, draws, pos, classes)
                             + if topLists then RankedEvents(siteHost, hash, FirstRows(es)) else [];
               && Thousandfold(Published(events, RequestMs), Kept(k, Times(es, false), t.request))
               && Thousandfold(Published(events, UpstreamMs), Kept(k, Times(es, true), t.upstream))
  {
    hide Times, TapesOf, Kept, Counted, ValidTape, Drawn;
    TapesFit(k, es, draws, pos);
    var t := TapesOf(k, es, draws, pos);
    var ranked := if topLists then RankedEvents(siteHost, hash, FirstRows(es)) else [];
    AllRanked(siteHost, hash, FirstRows(es));
    hide RankedEvents, FirstRows;
    OnlyTimes(es, classes, Kept(k, Times(es, false), t.request), Kept(k, Times(es, true), t.upstream), ranked);
  }

  lemma OnlyTimes(es: seq<Entry>, classes: seq<string>, request: seq<real>, upstream: seq<real>, ranked: seq<Event>)
    requires forall e :: e in ranked ==> Ranked(e)
    ensures var events := CountEvents(es, classes) + TimeEvents(request, false) + TimeEvents(upstream, true) + ranked;
            Thousandfold(Published(events, RequestMs), request) && Thousandfold(Published(events, UpstreamMs), upstream)
  {
    hide CountEvents, TimeEvents, Published;
    CountsOnly(es, classes);
    EachTime(request, false, RequestMs);
    EachTime(upstream, true, UpstreamMs);
    var counts, asked, up := CountEvents(es, classes), TimeEvents(request, false), TimeEvents(upstream, true);
    TimesAlone(request, false);
    TimesAlone(upstream, true);
    FourParts(counts, asked, up, ranked, RequestMs);
    FourParts(counts, asked, up, ranked, UpstreamMs);
    NonePublished(asked, UpstreamMs);
    NonePublished(up, RequestMs);
    NonePublished(counts, RequestMs);
    NonePublished(counts, UpstreamMs);
    NonePublished(ranked, RequestMs);
    NonePublished(ranked, UpstreamMs);
  }

  lemma TimesAlone(samples: seq<real>, upstream: bool)
    ensures forall e :: e in TimeEvents(samples, upstream) ==> if upstream then e.UpstreamTime? else e.RequestTime?
  {
  }

  // And each ranked list gets, of each of the first 5000 requests that has an address
  // and a row in that list, that row and its visitor, in order; nothing else is ranked.
  lemma TickPublishesRows(k: nat, es: seq<Entry>, draws: seq<nat>, pos: nat, classes: seq<string>,
                          topLists: bool, siteHost: string, hash: Hash)
    ensures var events := AlwaysOn(k, es, draws, pos, classes)
                          + if topLists then RankedEvents(siteHost, hash, FirstRows(es)) else [];
            var ranked := if !topLists then [] else if |es| <= 5000 then es else es[..5000];
            && Published(events, Page) == Visits(siteHost, hash, ranked, Pages)
            && Published(events, ErrorPage) == Visits(siteHost, hash, ranked, ErrorPages)
            && Published(events, Referrer) == Visits(siteHost, hash, ranked, Referrers)
            && Published(events, Unlisted) == []
  {
    hide RankedEvents, Visits, AlwaysOn, Published;
    var ranked := if !topLists then [] else if |es| <= 5000 then es else es[..5000];
    var always, rows := AlwaysOn(k, es, draws, pos, classes), RankedEvents(siteHost, hash, ranked);
    assert (if topLists then RankedEvents(siteHost, hash, FirstRows(es)) else []) == rows by { NoneRanked(siteHost, hash); }
    AlwaysUnranked(k, es, draws, pos, classes);
    ListShown(siteHost, hash, ranked, Pages, Page);
    ListShown(siteHost, hash, ranked, ErrorPages, ErrorPage);
    ListShown(siteHost, hash, ranked, Referrers, Referrer);
    LeadsNothing(always, rows, Page);
    LeadsNothing(always, rows, ErrorPage);
    LeadsNothing(always, rows, Referrer);
    LeadsNothing(always, rows, Unlisted);
    AllRanked(siteHost, hash, ranked);
    NonePublished(rows, Unlisted);
  }

  lemma NoneRanked(siteHost: string, hash: Hash)
    ensures RankedEvents(siteHost, hash, []) == []
  {
  }

  lemma LeadsNothing<T>(a: seq<Event>, b: seq<Event>, pick: Event -> seq<T>)
    requires forall e :: e in a ==> pick(e) == []
    ensures Published(a + b, pick) == Published(b, pick)
  {
    NonePublished(a, pick);
    PublishedConcat(a, b, pick);
  }

  lemma AlwaysUnranked(k: nat, es: seq<Entry>, draws: seq<nat>, pos: nat, classes: seq<string>)
    ensures forall e :: e in AlwaysOn(k, es, draws, pos, classes) ==> !e.Top?
  {
    hide Times, TapesOf, Kept, Counted, CountEvents, ValidTape, Drawn;
    CountsOnly(es, classes);
    TapesFit(k, es, draws, pos);
  }

  lemma FourParts<T>(a: seq<Event>, b: seq<Event>, c: seq<Event>, d: seq<Event>, pick: Event -> seq<T>)
    ensures Published(a + b + c + d, pick)
         == Published(a, pick) + Published(b, pick) + Published(c, pick) + Published(d, pick)
  {
    hide Published;
    PublishedConcat(a + b + c, d, pick);
    PublishedConcat(a + b, c, pick);
    PublishedConcat(a, b, pick);
  }
}
