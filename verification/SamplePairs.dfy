/**
 The two samples of one tick draw from one random source. They are independent all
 the same: counted over what the source may answer, every pair of samples comes up
 equally often.
 */
module SamplePairs {
  import opened Text
  import opened Wrappers
  import opened Reservoirs
  import opened Rows
  import opened AccessLog

  // ---------------------------------------------------------------------
  // What a source may answer
  // ---------------------------------------------------------------------

  function Bound(k: nat, time: Option<real>, offered: nat): seq<nat> {
    if Draws(k, time, offered) == 1 then [offered + 1] else []
  }

  // The bounds of all the numbers asked for in one tick, in order.
  function Bounds(k: nat, es: seq<Entry>): seq<nat> {
    if es == [] then []
    else
      var earlier, last := es[..|es| - 1], es[|es| - 1];
      Bounds(k, earlier) + (Bound(k, last.requestTime, |Times(earlier, false)|)
                            + Bound(k, last.upstreamTime, |Times(earlier, true)|))
  }

  ghost predicate Within(draws: seq<nat>, bounds: seq<nat>) {
    |draws| == |bounds| && forall p :: 0 <= p < |draws| ==> draws[p] < bounds[p]
  }

  ghost predicate Answers(k: nat, es: seq<Entry>, draws: seq<nat>) { Within(draws, Bounds(k, es)) }

  lemma WithinConcat(a: seq<nat>, b: seq<nat>, c: seq<nat>, d: seq<nat>)
    requires Within(a, c) && Within(b, d)
    ensures Within(a + b, c + d)
  {
  }

  lemma WithinSplit(draws: seq<nat>, c: seq<nat>, d: seq<nat>) returns (a: seq<nat>, b: seq<nat>)
    requires Within(draws, c + d)
    ensures draws == a + b && Within(a, c) && Within(b, d)
  {
    a, b := draws[..|c|], draws[|c|..];
    forall p | 0 <= p < |b| ensures b[p] < d[p] { assert draws[|c| + p] < (c + d)[|c| + p]; }
    forall p | 0 <= p < |a| ensures a[p] < c[p] { assert draws[p] < (c + d)[p]; }
  }

  lemma BoundsLast(k: nat, earlier: seq<Entry>, last: Entry)
    ensures Bounds(k, earlier + [last])
         == Bounds(k, earlier) + (Bound(k, last.requestTime, |Times(earlier, false)|)
                                  + Bound(k, last.upstreamTime, |Times(earlier, true)|))
  {
    hide Bound, Times;
    assert (earlier + [last])[..|earlier|] == earlier;
  }

  // ---------------------------------------------------------------------
  // Answers and pairs of tapes are the same thing
  // ---------------------------------------------------------------------

  lemma OwnWithin(k: nat, time: Option<real>, offered: nat, own: seq<nat>)
    requires |own| == Draws(k, time, offered) && (own != [] ==> own[0] < offered + 1)
    ensures Within(own, Bound(k, time, offered))
  {
  }

  lemma {:induction false} MergedAnswers(k: nat, es: seq<Entry>, request: seq<nat>, upstream: seq<nat>)
    requires TapeFor(k, Times(es, false), request) && TapeFor(k, Times(es, true), upstream)
    ensures Answers(k, es, Merged(k, es, request, upstream))
  {
    hide Times, Merged, TapeFor, Draws, Bound, Bounds, Within;
    if es == [] {
      NoEntries(k, request, upstream, []);
      NothingAsked(k);
    } else {
      var earlier, last := es[..|es| - 1], es[|es| - 1];
      assert es == earlier + [last];
      TimesSnoc(earlier, last);
      var rest, own := TapeFront(k, Times(earlier, false), last.requestTime, request);
      var uRest, uOwn := TapeFront(k, Times(earlier, true), last.upstreamTime, upstream);
      MergedLast(k, earlier, last, rest, own, uRest, uOwn);
      MergedAnswers(k, earlier, rest, uRest);
      BoundsLast(k, earlier, last);
      OwnWithin(k, last.requestTime, |Times(earlier, false)|, own);
      OwnWithin(k, last.upstreamTime, |Times(earlier, true)|, uOwn);
      AllWithin(Merged(k, earlier, rest, uRest), own, uOwn, Bounds(k, earlier),
                Bound(k, last.requestTime, |Times(earlier, false)|), Bound(k, last.upstreamTime, |Times(earlier, true)|));
    }
  }

  lemma NothingAsked(k: nat)
    ensures Bounds(k, []) == [] && Within([], [])
  {
  }

  lemma AllWithin(a: seq<nat>, b: seq<nat>, c: seq<nat>, x: seq<nat>, y: seq<nat>, z: seq<nat>)
    requires Within(a, x) && Within(b, y) && Within(c, z)
    ensures Within(a + (b + c), x + (y + z))
  {
    WithinConcat(b, c, y, z);
    WithinConcat(a, b + c, x, y + z);
  }

  lemma AnswerWithin(k: nat, time: Option<real>, offered: nat, own: seq<nat>, draws: seq<nat>, pos: nat)
    requires Within(own, Bound(k, time, offered))
    requires pos + |own| <= |draws| && draws[pos..pos + |own|] == own
    ensures Answer(k, time, offered, own, draws, pos)
  {
  }

  lemma AnswerParts(k: nat, earlier: seq<Entry>, last: Entry, draws: seq<nat>)
    returns (front: seq<nat>, own: seq<nat>, uOwn: seq<nat>)
    requires Answers(k, earlier + [last], draws)
    ensures draws == front + (own + uOwn) && Answers(k, earlier, front)
    ensures Within(own, Bound(k, last.requestTime, |Times(earlier, false)|))
    ensures Within(uOwn, Bound(k, last.upstreamTime, |Times(earlier, true)|))
  {
    hide Times, Bound, Bounds, Within;
    BoundsLast(k, earlier, last);
    var r, u := Bound(k, last.requestTime, |Times(earlier, false)|), Bound(k, last.upstreamTime, |Times(earlier, true)|);
    var rest;
    front, rest := WithinSplit(draws, Bounds(k, earlier), r + u);
    own, uOwn := WithinSplit(rest, r, u);
  }

  lemma AnswerStep(k: nat, earlier: seq<Entry>, last: Entry, t: Tapes, own: seq<nat>, uOwn: seq<nat>, draws: seq<nat>)
    requires TapesOf(k, earlier, draws, 0) == t
    requires var front := Merged(k, earlier, t.request, t.upstream); |front| == t.pos && draws == front + (own + uOwn)
    requires Within(own, Bound(k, last.requestTime, |Times(earlier, false)|))
    requires Within(uOwn, Bound(k, last.upstreamTime, |Times(earlier, true)|))
    ensures var r := TapesOf(k, earlier + [last], draws, 0);
            Merged(k, earlier + [last], r.request, r.upstream) == draws && r.pos == |draws|
  {
    hide Times, TapesOf, Merged, Draws, Bound, Within, Answer;
    var front := Merged(k, earlier, t.request, t.upstream);
    Slices(draws, front, own, uOwn);
    AnswerWithin(k, last.requestTime, |Times(earlier, false)|, own, draws, |front|);
    AnswerWithin(k, last.upstreamTime, |Times(earlier, true)|, uOwn, draws, |front| + |own|);
    StepTapes(k, earlier, last, t, own, uOwn, draws);
    OwnSize(k, last.requestTime, |Times(earlier, false)|, own);
    OwnSize(k, last.upstreamTime, |Times(earlier, true)|, uOwn);
    MergedLast(k, earlier, last, t.request, own, t.upstream, uOwn);
  }

  // Every answer sequence is that of the two tapes it gives.
  lemma {:induction false} AnswersMerged(k: nat, es: seq<Entry>, draws: seq<nat>)
    requires Answers(k, es, draws)
    ensures var t := TapesOf(k, es, draws, 0);
            && TapeFor(k, Times(es, false), t.request) && TapeFor(k, Times(es, true), t.upstream)
            && Merged(k, es, t.request, t.upstream) == draws && t.pos == |draws|
  {
    hide Times, TapesOf, Merged, TapeFor, Bound, Answers, Within;
    FitIsFor(k, es, draws);
    if es == [] {
      NothingAnswered(k, draws);
    } else {
      var earlier, last := es[..|es| - 1], es[|es| - 1];
      assert es == earlier + [last];
      var front, own, uOwn := AnswerParts(k, earlier, last, draws);
      AnswersMerged(k, earlier, front);
      var t := TapesOf(k, earlier, front, 0);
      SharedSource(k, earlier, t.request, t.upstream, draws);
      AnswerStep(k, earlier, last, t, own, uOwn, draws);
    }
  }

  lemma FitIsFor(k: nat, es: seq<Entry>, draws: seq<nat>)
    ensures var t := TapesOf(k, es, draws, 0);
            TapeFor(k, Times(es, false), t.request) && TapeFor(k, Times(es, true), t.upstream)
  {
    TapesFit(k, es, draws, 0);
    hide ValidTape, Drawn, Times, TapesOf;
  }

  lemma NothingAnswered(k: nat, draws: seq<nat>)
    requires Answers(k, [], draws)
    ensures draws == [] && TapesOf(k, [], draws, 0) == Tapes([], [], 0) && Merged(k, [], [], []) == []
  {
  }

  lemma OwnSize(k: nat, time: Option<real>, offered: nat, own: seq<nat>)
    requires Within(own, Bound(k, time, offered))
    ensures |own| == Draws(k, time, offered)
  {
  }

  // ---------------------------------------------------------------------
  // Counting
  // ---------------------------------------------------------------------

  // The answer sequences of these pairs of tapes.
  ghost function Sequences(k: nat, es: seq<Entry>, requests: set<seq<nat>>, upstreams: set<seq<nat>>): set<seq<nat>> {
    set r, u | r in requests && u in upstreams :: Merged(k, es, r, u)
  }

  ghost predicate AllFor(k: nat, times: seq<real>, tapes: set<seq<nat>>) {
    forall t :: t in tapes ==> TapeFor(k, times, t)
  }

  lemma {:induction false} RowSize(k: nat, es: seq<Entry>, r: seq<nat>, upstreams: set<seq<nat>>)
    requires TapeFor(k, Times(es, false), r) && AllFor(k, Times(es, true), upstreams)
    ensures |Sequences(k, es, {r}, upstreams)| == |upstreams|
    decreases upstreams
  {
    hide Times, Merged, TapeFor;
    if upstreams == {} {
      assert Sequences(k, es, {r}, upstreams) == {};
    } else {
      var u :| u in upstreams;
      RowSize(k, es, r, upstreams - {u});
      var all, rest, d := Sequences(k, es, {r}, upstreams), Sequences(k, es, {r}, upstreams - {u}), Merged(k, es, r, u);
      forall v | v in upstreams - {u} ensures Merged(k, es, r, v) != d {
        if Merged(k, es, r, v) == d { AnswersUnique(k, es, r, u, r, v); }
      }
      assert all == rest + {d};
      assert d !in rest;
    }
  }

  lemma {:induction false} SequencesSize(k: nat, es: seq<Entry>, requests: set<seq<nat>>, upstreams: set<seq<nat>>)
    requires AllFor(k, Times(es, false), requests) && AllFor(k, Times(es, true), upstreams)
    ensures |Sequences(k, es, requests, upstreams)| == |requests| * |upstreams|
    decreases requests
  {
    hide Times, Merged, TapeFor;
    if requests == {} {
      assert Sequences(k, es, requests, upstreams) == {};
    } else {
      var r :| r in requests;
      var others := requests - {r};
      SequencesSize(k, es, others, upstreams);
      RowSize(k, es, r, upstreams);
      RowsDisjoint(k, es, requests, upstreams, r);
      MulSucc(|others|, |upstreams|);
    }
  }

  lemma RowsDisjoint(k: nat, es: seq<Entry>, requests: set<seq<nat>>, upstreams: set<seq<nat>>, r: seq<nat>)
    requires AllFor(k, Times(es, false), requests) && AllFor(k, Times(es, true), upstreams) && r in requests
    ensures |Sequences(k, es, requests, upstreams)|
         == |Sequences(k, es, requests - {r}, upstreams)| + |Sequences(k, es, {r}, upstreams)|
  {
    hide Times, Merged, TapeFor;
    var rest, row := Sequences(k, es, requests - {r}, upstreams), Sequences(k, es, {r}, upstreams);
    forall d | d in rest ensures d !in row {
      if d in row {
        var s, u :| s in requests - {r} && u in upstreams && Merged(k, es, s, u) == d;
        var v :| v in upstreams && Merged(k, es, r, v) == d;
        AnswersUnique(k, es, s, u, r, v);
      }
    }
    assert Sequences(k, es, requests, upstreams) == rest + row;
  }

  // The answer sequences that leave these positions in the two samples.
  ghost function Leaving(k: nat, es: seq<Entry>, request: set<nat>, upstream: set<nat>): set<seq<nat>> {
    Sequences(k, es, Keeping(k, Drawn(k, |Times(es, false)|), request), Keeping(k, Drawn(k, |Times(es, true)|), upstream))
  }

  lemma LeavingExactly(k: nat, es: seq<Entry>, request: set<nat>, upstream: set<nat>, draws: seq<nat>)
    ensures draws in Leaving(k, es, request, upstream) <==>
              && Answers(k, es, draws)
              && SampleSet(k, TapesOf(k, es, draws, 0).request) == request
              && SampleSet(k, TapesOf(k, es, draws, 0).upstream) == upstream
  {
    hide Times, Merged, TapesOf, SampleSet, Bounds, Within;
    if draws in Leaving(k, es, request, upstream) {
      var r, u :| r in Keeping(k, Drawn(k, |Times(es, false)|), request)
                  && u in Keeping(k, Drawn(k, |Times(es, true)|), upstream) && Merged(k, es, r, u) == draws;
      TapesExact(k, Drawn(k, |Times(es, false)|), r);
      TapesExact(k, Drawn(k, |Times(es, true)|), u);
      MergedAnswers(k, es, r, u);
      SharedSource(k, es, r, u, draws);
    }
    if Answers(k, es, draws) {
      AnswersMerged(k, es, draws);
      TapesExact(k, Drawn(k, |Times(es, false)|), TapesOf(k, es, draws, 0).request);
      TapesExact(k, Drawn(k, |Times(es, true)|), TapesOf(k, es, draws, 0).upstream);
    }
  }

  lemma KeepingFor(k: nat, times: seq<real>, chosen: set<nat>)
    ensures AllFor(k, times, Keeping(k, Drawn(k, |times|), chosen))
  {
    hide SampleSet, Reservoirs.Tapes;
    forall t | t in Keeping(k, Drawn(k, |times|), chosen) ensures TapeFor(k, times, t) {
      TapesExact(k, Drawn(k, |times|), t);
    }
  }

  // Of two samples that are full, each pair of subsets is left by exactly
  // (n1 - k)! (n2 - k)! answer sequences, whichever the subsets are.
  lemma PairsUniform(k: nat, es: seq<Entry>, request: set<nat>, upstream: set<nat>)
    requires k <= |Times(es, false)| && k <= |Times(es, true)| && |request| == k == |upstream|
    requires request <= Below(|Times(es, false)|) && upstream <= Below(|Times(es, true)|)
    ensures |Leaving(k, es, request, upstream)|
         == Factorial(|Times(es, false)| - k) * Factorial(|Times(es, true)| - k)
  {
    hide Times, Keeping, Sequences, Factorial, Below, AllFor;
    KeepingFor(k, Times(es, false), request);
    KeepingFor(k, Times(es, true), upstream);
    SequencesSize(k, es, Keeping(k, Drawn(k, |Times(es, false)|), request), Keeping(k, Drawn(k, |Times(es, true)|), upstream));
    UniformSubsets(k, |Times(es, false)| - k, request);
    UniformSubsets(k, |Times(es, true)| - k, upstream);
  }
}
