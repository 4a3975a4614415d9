/**
 One Docker round: a sender hands the running containers, over an unbuffered
 channel, to a pool of workers that share the map of previous readings under a
 mutex. Every interleaving is shown to do what a plain loop would.
 */
module DockerPool {
  import opened Wrappers

  datatype Reading = Reading(total: nat, system: nat, periods: nat, throttled: nat)

  // A running container and what asking the daemon about it yields this round.
  datatype Container = Container(id: string, name: string, stats: Option<Reading>)

  // What a worker stores for a container: nothing when it has no ID or no label,
  // when the daemon does not answer, or when either CPU counter reads zero.
  function Measured(c: Container): Option<Reading> {
    if c.id == "" || c.name == "" || c.stats.None? then None
    else if c.stats.value.total == 0 || c.stats.value.system == 0 then None
    else c.stats
  }

  type Previous = map<string, Reading>

  function Lookup(m: Previous, id: string): Option<Reading> {
    if id in m then Some(m[id]) else None
  }

  function Store(m: Previous, c: Container): Previous {
    match Measured(c)
    case None => m
    case Some(r) => m[c.id := r]
  }

  // ---------------------------------------------------------------------
  // The plain loop
  // ---------------------------------------------------------------------

  function Loop(m: Previous, cs: seq<Container>): Previous {
    if cs == [] then m else Store(Loop(m, cs[..|cs| - 1]), cs[|cs| - 1])
  }

  function Ids(cs: seq<Container>): set<string> { set i | 0 <= i < |cs| :: cs[i].id }

  function Restrict(m: Previous, ids: set<string>): Previous {
    map id | id in m && id in ids :: m[id]
  }

  // ---------------------------------------------------------------------
  // The pool
  // ---------------------------------------------------------------------

  datatype Worker = Idle | Busy(item: nat) | Exited

  datatype Phase = Sending | Closed | Finished

  // `taken[k]` is the worker that received container k; `compared[k]` the previous
  // reading container k was compared with.
  datatype Pool = Pool(
    phase: Phase,
    cancelled: bool,
    next: nat,
    workers: seq<Worker>,
    prev: Previous,
    taken: seq<nat>,
    compared: map<nat, Option<Reading>>
  )

  datatype Step =
    | Cancel              // the deadline passes
    | HandOut(w: nat)     // the sender meets an idle worker on the channel
    | GiveUp              // the sender sees the deadline instead and stops
    | AllSent             // the sender runs out of containers
    | Update(w: nat)      // a worker enters and leaves the critical section
    | Exit(w: nat)        // a worker finds the channel closed
    | Prune               // all workers gone: forget what is no longer running

  predicate Enabled(cs: seq<Container>, s: Pool, step: Step) {
    match step
    case Cancel => true
    case HandOut(w) => s.phase == Sending && s.next < |cs| && w < |s.workers| && s.workers[w] == Idle
    case GiveUp => s.phase == Sending && s.next < |cs| && s.cancelled
    case AllSent => s.phase == Sending && s.next == |cs|
    case Update(w) => w < |s.workers| && s.workers[w].Busy? && s.workers[w].item < |cs|
    case Exit(w) => s.phase == Closed && w < |s.workers| && s.workers[w] == Idle
    case Prune => s.phase == Closed && forall w :: 0 <= w < |s.workers| ==> s.workers[w] == Exited
  }

  function Apply(cs: seq<Container>, s: Pool, step: Step): Pool
    requires Enabled(cs, s, step)
  {
    match step
    case Cancel => s.(cancelled := true)
    case HandOut(w) =>
      s.(workers := s.workers[w := Busy(s.next)], taken := s.taken + [w], next := s.next + 1)
    case GiveUp => s.(phase := Closed)
    case AllSent => s.(phase := Closed)
    case Update(w) =>
      var k := s.workers[w].item;
      s.(workers := s.workers[w := Idle],
         prev := Store(s.prev, cs[k]),
         compared := s.compared[k := Lookup(s.prev, cs[k].id)])
    case Exit(w) => s.(workers := s.workers[w := Exited])
    case Prune => s.(phase := Finished, prev := Restrict(s.prev, Ids(cs)))
  }

  function Start(prev: Previous, workers: nat): Pool {
    Pool(Sending, false, 0, seq(workers, _ => Idle), prev, [], map[])
  }

  // Any number of steps, in any order; None if the pool does not allow one of them.
  function Run(cs: seq<Container>, s: Pool, steps: seq<Step>): Option<Pool> {
    if steps == [] then Some(s)
    else match Run(cs, s, steps[..|steps| - 1])
      case None => None
      case Some(before) =>
        if Enabled(cs, before, steps[|steps| - 1]) then Some(Apply(cs, before, steps[|steps| - 1])) else None
  }

  // ---------------------------------------------------------------------
  // What every interleaving keeps
  // ---------------------------------------------------------------------

  ghost predicate Distinct(cs: seq<Container>) {
    forall i, j :: 0 <= i < j < |cs| ==> cs[i].id != cs[j].id
  }

  // The map after the containers in `done` were stored, in whatever order.
  ghost predicate Stored(cs: seq<Container>, start: Previous, done: set<nat>, m: Previous) {
    && (forall k :: 0 <= k < |cs| ==>
          Lookup(m, cs[k].id) ==
          if k in done && Measured(cs[k]).Some? then Measured(cs[k]) else Lookup(start, cs[k].id))
    && (forall id :: id !in Ids(cs) ==> Lookup(m, id) == Lookup(start, id))
  }

  ghost predicate WorkersOk(cs: seq<Container>, s: Pool) {
    && |s.taken| == s.next <= |cs|
    && (forall k :: 0 <= k < s.next ==> s.taken[k] < |s.workers|)
    // a handed-out container is finished, or with the worker that received it
    && (forall k :: 0 <= k < s.next && k !in s.compared ==> s.workers[s.taken[k]] == Busy(k))
    && (forall w :: 0 <= w < |s.workers| && s.workers[w].Busy? ==>
          s.workers[w].item < s.next && s.workers[w].item !in s.compared && s.taken[s.workers[w].item] == w)
    && (forall k :: k in s.compared ==> k < s.next)
    && (s.phase == Sending ==> forall w :: 0 <= w < |s.workers| ==> s.workers[w] != Exited)
    && (s.phase == Finished ==> forall w :: 0 <= w < |s.workers| ==> s.workers[w] == Exited)
    && (s.phase != Sending && !s.cancelled ==> s.next == |cs|)
  }

  ghost predicate Inv(cs: seq<Container>, start: Previous, workers: nat, s: Pool) {
    && |s.workers| == workers
    && WorkersOk(cs, s)
    && (forall k :: k in s.compared ==> k < |cs| && s.compared[k] == Lookup(start, cs[k].id))
    && (s.phase != Finished ==> Stored(cs, start, s.compared.Keys, s.prev))
    && (s.phase == Finished ==>
          exists m :: Stored(cs, start, s.compared.Keys, m) && s.prev == Restrict(m, Ids(cs)))
  }

  lemma StoreOne(cs: seq<Container>, start: Previous, done: set<nat>, m: Previous, k: nat)
    requires Distinct(cs) && Stored(cs, start, done, m) && k < |cs|
    ensures Stored(cs, start, done + {k}, Store(m, cs[k]))
  {
    var after := Store(m, cs[k]);
    assert cs[k].id in Ids(cs);
    forall j | 0 <= j < |cs| && j != k ensures Lookup(after, cs[j].id) == Lookup(m, cs[j].id) {
      assert cs[j].id != cs[k].id;
    }
  }

  lemma UpdateKeeps(cs: seq<Container>, start: Previous, workers: nat, s: Pool, w: nat)
    requires Distinct(cs) && Inv(cs, start, workers, s) && Enabled(cs, s, Update(w))
    ensures Inv(cs, start, workers, Apply(cs, s, Update(w)))
  {
    hide Measured, Store, Restrict, Distinct, Stored;
    var after, k := Apply(cs, s, Update(w)), s.workers[w].item;
    StoreOne(cs, start, s.compared.Keys, s.prev, k);
    assert after.compared.Keys == s.compared.Keys + {k};
    CompareFirst(cs, start, s.compared.Keys, s.prev, k);
  }

  lemma OtherKeeps(cs: seq<Container>, start: Previous, workers: nat, s: Pool, step: Step)
    requires Inv(cs, start, workers, s) && Enabled(cs, s, step) && !step.Update?
    ensures Inv(cs, start, workers, Apply(cs, s, step))
  {
    hide Restrict, Stored;
    assert Apply(cs, s, step).compared == s.compared;
  }

  lemma StepKeeps(cs: seq<Container>, start: Previous, workers: nat, s: Pool, step: Step)
    requires Distinct(cs) && Inv(cs, start, workers, s) && Enabled(cs, s, step)
    ensures Inv(cs, start, workers, Apply(cs, s, step))
  {
    hide Inv, Enabled, Apply, Distinct;
    if step.Update? {
      UpdateKeeps(cs, start, workers, s, step.w);
    } else {
      OtherKeeps(cs, start, workers, s, step);
    }
  }

  // A container not stored yet is still compared with last round's reading.
  lemma CompareFirst(cs: seq<Container>, start: Previous, done: set<nat>, m: Previous, k: nat)
    requires Stored(cs, start, done, m) && k < |cs| && k !in done
    ensures Lookup(m, cs[k].id) == Lookup(start, cs[k].id)
  {
  }

  lemma StartOk(cs: seq<Container>, prev: Previous, workers: nat)
    ensures Inv(cs, prev, workers, Start(prev, workers))
  {
  }

  lemma {:induction false} RunKeeps(cs: seq<Container>, prev: Previous, workers: nat, steps: seq<Step>)
    requires Distinct(cs)
    ensures var r := Run(cs, Start(prev, workers), steps); r.Some? ==> Inv(cs, prev, workers, r.value)
  {
    hide Inv, Start, Apply;
    if steps == [] {
      StartOk(cs, prev, workers);
    } else {
      var earlier := steps[..|steps| - 1];
      RunKeeps(cs, prev, workers, earlier);
      var r := Run(cs, Start(prev, workers), earlier);
      if r.Some? && Enabled(cs, r.value, steps[|steps| - 1]) {
        StepKeeps(cs, prev, workers, r.value, steps[|steps| - 1]);
      }
    }
  }

  // ---------------------------------------------------------------------
  // Every interleaving does what the loop does
  // ---------------------------------------------------------------------

  function UpTo(n: nat): (s: set<nat>)
    ensures forall k: nat :: k in s <==> k < n
  {
    if n == 0 then {} else UpTo(n - 1) + {n - 1}
  }

  lemma {:induction false} LoopStores(cs: seq<Container>, start: Previous, n: nat)
    requires Distinct(cs) && n <= |cs|
    ensures Stored(cs, start, UpTo(n), Loop(start, cs[..n]))
  {
    if n > 0 {
      LoopStores(cs, start, n - 1);
      assert cs[..n][..n - 1] == cs[..n - 1];
      StoreOne(cs, start, UpTo(n - 1), Loop(start, cs[..n - 1]), n - 1);
      assert UpTo(n) == UpTo(n - 1) + {n - 1};
    }
  }

  lemma StoredSame(cs: seq<Container>, start: Previous, done: set<nat>, a: Previous, b: Previous)
    requires Stored(cs, start, done, a) && Stored(cs, start, done, b)
    ensures a == b
  {
    forall id ensures Lookup(a, id) == Lookup(b, id) {
      if id in Ids(cs) {
        var k :| 0 <= k < |cs| && cs[k].id == id;
      }
    }
    forall id ensures id in a <==> id in b { assert Lookup(a, id) == Lookup(b, id); }
    forall id | id in a ensures a[id] == b[id] { assert Lookup(a, id) == Lookup(b, id); }
  }

  // With distinct IDs, every finished run leaves the map a plain loop over a
  // prefix of the containers leaves, restricted to those still running; the prefix
  // is all of them unless the deadline passed; each container of the prefix went
  // to one worker, which compared it with last round's reading.
  lemma PoolRefinesLoop(cs: seq<Container>, prev: Previous, workers: nat, steps: seq<Step>)
    requires Distinct(cs)
    ensures var r := Run(cs, Start(prev, workers), steps);
            r.Some? && r.value.phase == Finished ==>
              var s := r.value;
              && s.next <= |cs| && (!s.cancelled ==> s.next == |cs|)
              && s.prev == Restrict(Loop(prev, cs[..s.next]), Ids(cs))
              && |s.taken| == s.next && s.compared.Keys == UpTo(s.next)
              && (forall k :: 0 <= k < s.next ==> s.taken[k] < workers)
              && forall k :: 0 <= k < s.next ==> s.compared[k] == Lookup(prev, cs[k].id)
  {
    RunKeeps(cs, prev, workers, steps);
    var r := Run(cs, Start(prev, workers), steps);
    if r.Some? && r.value.phase == Finished {
      var s := r.value;
      hide Run, Start, Restrict, Stored, Distinct;
      var m :| Stored(cs, prev, s.compared.Keys, m) && s.prev == Restrict(m, Ids(cs));
      assert s.compared.Keys == UpTo(s.next);
      LoopStores(cs, prev, s.next);
      StoredSame(cs, prev, UpTo(s.next), m, Loop(prev, cs[..s.next]));
    }
  }

  // So after every finished run the map holds nothing of containers that are not running,
  // and of each running one the new reading if it was handed out and has an ID, a name
  // and two counters above zero, and otherwise what it held before.
  lemma RoundRemembers(cs: seq<Container>, prev: Previous, workers: nat, steps: seq<Step>)
    requires Distinct(cs)
    ensures var r := Run(cs, Start(prev, workers), steps);
            r.Some? && r.value.phase == Finished ==>
              var s := r.value;
              && (forall id :: id in s.prev ==> exists k :: 0 <= k < |cs| && cs[k].id == id)
              && forall k :: 0 <= k < |cs| ==>
                   var c := cs[k];
                   if k < s.next && c.id != "" && c.name != ""
                      && c.stats.Some? && c.stats.value.total > 0 && c.stats.value.system > 0
                   then c.id in s.prev && s.prev[c.id] == c.stats.value
                   else (c.id in s.prev <==> c.id in prev) && (c.id in prev ==> s.prev[c.id] == prev[c.id])
  {
    RunKeeps(cs, prev, workers, steps);
    var r := Run(cs, Start(prev, workers), steps);
    if r.Some? && r.value.phase == Finished {
      hide Run, Start, Distinct;
      AfterPrune(cs, prev, workers, r.value);
    }
  }

  lemma AfterPrune(cs: seq<Container>, start: Previous, workers: nat, s: Pool)
    requires Inv(cs, start, workers, s) && s.phase == Finished
    ensures forall id :: id in s.prev ==> exists k :: 0 <= k < |cs| && cs[k].id == id
    ensures forall k :: 0 <= k < |cs| ==>
              Lookup(s.prev, cs[k].id) ==
              if k < s.next && Measured(cs[k]).Some? then cs[k].stats else Lookup(start, cs[k].id)
  {
    var m :| Stored(cs, start, s.compared.Keys, m) && s.prev == Restrict(m, Ids(cs));
    forall k | 0 <= k < |cs|
      ensures Lookup(s.prev, cs[k].id) ==
              if k < s.next && Measured(cs[k]).Some? then cs[k].stats else Lookup(start, cs[k].id)
    {
      assert cs[k].id in Ids(cs);
      assert Lookup(s.prev, cs[k].id) == Lookup(m, cs[k].id);
      assert k in s.compared <==> k < s.next;
    }
  }

  // ---------------------------------------------------------------------
  // No interleaving can stall
  // ---------------------------------------------------------------------

  function Live(ws: seq<Worker>): nat {
    if ws == [] then 0
    else Live(ws[1..]) + match ws[0] case Idle => 1 case Busy(_) => 2 case Exited => 0
  }

  lemma {:induction false} LiveUpdate(ws: seq<Worker>, w: nat, x: Worker)
    requires w < |ws|
    ensures Live(ws[w := x]) - Live([x]) == Live(ws) - Live([ws[w]])
  {
    assert forall y: Worker :: [y][1..] == [];
    if w == 0 {
      assert ws[w := x] == [x] + ws[1..];
    } else {
      LiveUpdate(ws[1..], w - 1, x);
      assert ws[w := x][1..] == ws[1..][w - 1 := x];
    }
  }

  // How much work is left; passing the deadline does not add any.
  function Left(cs: seq<Container>, s: Pool): int {
    2 * (|cs| - s.next) + Live(s.workers) + match s.phase case Sending => 2 case Closed => 1 case Finished => 0
  }

  lemma EachStepHelps(cs: seq<Container>, s: Pool, step: Step)
    requires Enabled(cs, s, step)
    ensures step == Cancel ==> Left(cs, Apply(cs, s, step)) == Left(cs, s)
    ensures step != Cancel ==> Left(cs, Apply(cs, s, step)) < Left(cs, s)
  {
    var x := if step.HandOut? then Busy(s.next) else if step.Update? then Idle else Exited;
    if step.HandOut? || step.Update? || step.Exit? {
      LiveUpdate(s.workers, step.w, x);
      assert [x][1..] == [] && [s.workers[step.w]][1..] == [];
    }
  }

  // Short of the end there is always a step other than waiting for the deadline.
  lemma NeverStuck(cs: seq<Container>, start: Previous, workers: nat, s: Pool)
    requires Inv(cs, start, workers, s) && workers > 0 && s.phase != Finished
    ensures exists step :: step != Cancel && Enabled(cs, s, step)
  {
    if w :| 0 <= w < workers && s.workers[w].Busy? {
      assert Enabled(cs, s, Update(w));
    } else if s.phase == Sending {
      if s.next == |cs| {
        assert Enabled(cs, s, AllSent);
      } else {
        assert s.workers[0] == Idle;
        assert Enabled(cs, s, HandOut(0));
      }
    } else if w :| 0 <= w < workers && s.workers[w] == Idle {
      assert Enabled(cs, s, Exit(w));
    } else {
      assert Enabled(cs, s, Prune);
    }
  }

  lemma {:induction false} LiveStart(n: nat)
    ensures Live(seq(n, _ => Idle)) == n
  {
    if n > 0 {
      LiveStart(n - 1);
      assert seq(n, _ => Idle)[1..] == seq(n - 1, _ => Idle);
    }
  }

  lemma {:induction false} WorkBound(cs: seq<Container>, prev: Previous, workers: nat, steps: seq<Step>)
    ensures var r := Run(cs, Start(prev, workers), steps);
            r.Some? ==> |steps| - multiset(steps)[Cancel] + Left(cs, r.value) <= 2 * |cs| + workers + 2
  {
    if steps == [] {
      LiveStart(workers);
    } else {
      hide Left, Apply, Enabled, Start;
      var earlier := steps[..|steps| - 1];
      WorkBound(cs, prev, workers, earlier);
      assert steps == earlier + [steps[|steps| - 1]];
      var r := Run(cs, Start(prev, workers), earlier);
      if r.Some? && Enabled(cs, r.value, steps[|steps| - 1]) {
        EachStepHelps(cs, r.value, steps[|steps| - 1]);
      }
    }
  }

  // So a round always ends: no run has more than 2n + w + 2 steps of work.
  lemma RoundsEnd(cs: seq<Container>, prev: Previous, workers: nat, steps: seq<Step>)
    requires Distinct(cs) && Run(cs, Start(prev, workers), steps).Some?
    ensures |steps| - multiset(steps)[Cancel] <= 2 * |cs| + workers + 2
  {
    WorkBound(cs, prev, workers, steps);
    RunKeeps(cs, prev, workers, steps);
  }

  // And every outcome there can be occurs: with a worker, or nothing to do, a round can
  // hand out everything and finish without the deadline passing, and it can end short of
  // any container because it passed.
  lemma RoundsFinish(cs: seq<Container>, prev: Previous, workers: nat, n: nat) returns (steps: seq<Step>)
    requires Distinct(cs) && (workers > 0 || cs == []) && n <= |cs|
    ensures n == |cs| ==> Cancel !in steps
    ensures var r := Run(cs, Start(prev, workers), steps);
            r.Some? && r.value.phase == Finished && r.value.next == n && (r.value.cancelled <==> n < |cs|)
  {
    var sent := SendSome(cs, prev, workers, n);
    var s := Run(cs, Start(prev, workers), sent).value;
    if n == |cs| {
      RunSnoc(cs, prev, workers, sent, AllSent);
      steps := Drained(cs, prev, workers, sent + [AllSent]);
    } else {
      RunSnoc(cs, prev, workers, sent, Cancel);
      RunSnoc(cs, prev, workers, sent + [Cancel], GiveUp);
      steps := Drained(cs, prev, workers, sent + [Cancel] + [GiveUp]);
    }
  }

  lemma RunSnoc(cs: seq<Container>, prev: Previous, workers: nat, steps: seq<Step>, step: Step)
    ensures var r, t := Run(cs, Start(prev, workers), steps), Run(cs, Start(prev, workers), steps + [step]);
            r.Some? && Enabled(cs, r.value, step) ==> t == Some(Apply(cs, r.value, step))
  {
    hide Start, Enabled, Apply;
    assert (steps + [step])[..|steps|] == steps;
  }

  // One worker takes the first n one after the other.
  lemma {:induction false} SendSome(cs: seq<Container>, prev: Previous, workers: nat, n: nat) returns (steps: seq<Step>)
    requires (workers > 0 || cs == []) && n <= |cs|
    ensures Cancel !in steps
    ensures var r := Run(cs, Start(prev, workers), steps);
            && r.Some? && r.value.phase == Sending && r.value.next == n && !r.value.cancelled
            && |r.value.workers| == workers && forall w :: 0 <= w < workers ==> r.value.workers[w] == Idle
  {
    if n == 0 {
      steps := [];
    } else {
      var earlier := SendSome(cs, prev, workers, n - 1);
      RunSnoc(cs, prev, workers, earlier, HandOut(0));
      RunSnoc(cs, prev, workers, earlier + [HandOut(0)], Update(0));
      steps := earlier + [HandOut(0)] + [Update(0)];
    }
  }

  // Once the channel is closed, the workers finish what they hold, leave, and the map is
  // pruned.
  lemma {:induction false} Drained(cs: seq<Container>, prev: Previous, workers: nat, steps: seq<Step>)
    returns (all: seq<Step>)
    requires Distinct(cs) && (workers > 0 || cs == [])
    requires var r := Run(cs, Start(prev, workers), steps); r.Some? && r.value.phase != Sending
    ensures var s, r := Run(cs, Start(prev, workers), steps).value, Run(cs, Start(prev, workers), all);
            r.Some? && r.value.phase == Finished && r.value.next == s.next && r.value.cancelled == s.cancelled
    ensures Cancel in all <==> Cancel in steps
    decreases Left(cs, Run(cs, Start(prev, workers), steps).value)
  {
    RunKeeps(cs, prev, workers, steps);
    var s := Run(cs, Start(prev, workers), steps).value;
    if s.phase == Finished {
      all := steps;
    } else {
      var step := ClosingStep(cs, prev, workers, s);
      EachStepHelps(cs, s, step);
      RunSnoc(cs, prev, workers, steps, step);
      all := Drained(cs, prev, workers, steps + [step]);
    }
  }

  lemma ClosingStep(cs: seq<Container>, prev: Previous, workers: nat, s: Pool) returns (step: Step)
    requires Inv(cs, prev, workers, s) && s.phase == Closed
    ensures step != Cancel && Enabled(cs, s, step)
    ensures var t := Apply(cs, s, step); t.phase != Sending && t.next == s.next && t.cancelled == s.cancelled
    ensures 0 <= Left(cs, s)
  {
    hide Stored, Restrict;
    if w :| 0 <= w < workers && s.workers[w].Busy? {
      step := Update(w);
    } else if w :| 0 <= w < workers && s.workers[w] == Idle {
      step := Exit(w);
    } else {
      step := Prune;
    }
  }
}
