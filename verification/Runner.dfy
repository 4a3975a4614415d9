/**
 The runner: one goroutine per collector, a semaphore limiting how many collect
 at once, and an orderly stop. The protocol is a state machine; a run is any
 sequence of its steps.
 */
module Runner {
  import opened Wrappers

  const MaxConcurrency: nat := 4

  // Durations are in milliseconds.
  const CollectTimeout: int := 3000
  const MaxCollectTimeout: int := 30000

  // The deadline granted to one collection of a collector that runs every `every`
  // and may have asked for more than the default.
  function CollectorTimeout(every: int, asked: Option<int>): int {
    var wanted := if asked.Some? && asked.value > CollectTimeout then asked.value else CollectTimeout;
    var capped := if every > 0 && wanted > every then every else wanted;
    if capped > MaxCollectTimeout then MaxCollectTimeout else capped
  }

  // The grant is the largest deadline that exceeds neither what was asked (or the
  // default, if that is more), nor the collector's interval, nor the overall cap.
  lemma TimeoutIsLargest(every: int, asked: Option<int>, t: int)
    ensures t <= CollectorTimeout(every, asked) <==>
            && t <= MaxCollectTimeout
            && (every > 0 ==> t <= every)
            && (t <= CollectTimeout || (asked.Some? && t <= asked.value))
  {
  }

  // ---------------------------------------------------------------------
  // The protocol
  // ---------------------------------------------------------------------

  // Where a collector's goroutine is.
  datatype Place =
    | Starting      // about to make its first collection
    | Waiting       // in collectOnce, offering to the semaphore
    | Collecting    // in Collect, holding a slot
    | Reporting     // Collect returned or panicked; the slot is still held
    | Ticking       // in the loop, waiting for the ticker or the end
    | Ended

  datatype Main = Serving | Joining | Closing(next: nat) | Stopped

  datatype State = State(
    main: Main,
    cancelled: bool,
    slots: nat,               // occupied entries of the semaphore channel
    places: seq<Place>,
    running: seq<nat>,        // how many Collect calls of each collector are in progress
    closes: seq<nat>          // how often each collector's Close was called
  )

  datatype Step =
    | Cancel
    | Begin(i: nat)       // first collection, unless the context is already done
    | Acquire(i: nat)     // the semaphore accepts
    | GiveUp(i: nat)      // the collection's deadline passes, or the context ends
    | Return(i: nat)      // Collect returns, with or without an error
    | Panic(i: nat)       // Collect panics and is recovered
    | Release(i: nat)     // the error was reported if it is to be; the slot is returned
    | Tick(i: nat)        // the ticker fires; both branches may be ready, so also after the end
    | Leave(i: nat)       // the goroutine sees the context done
    | Wake                // run sees the context done
    | Join                // every goroutine has ended
    | CloseNext           // the next collector, if it can be closed; a panic there is recovered

  predicate Enabled(s: State, step: Step) {
    match step
    case Cancel => true
    case Begin(i) => i < |s.places| && s.places[i] == Starting
    case Acquire(i) => i < |s.places| && s.places[i] == Waiting && s.slots < MaxConcurrency
    case GiveUp(i) => i < |s.places| && s.places[i] == Waiting
    case Return(i) => i < |s.places| && s.places[i] == Collecting
    case Panic(i) => i < |s.places| && s.places[i] == Collecting
    case Release(i) => i < |s.places| && s.places[i] == Reporting
    case Tick(i) => i < |s.places| && s.places[i] == Ticking
    case Leave(i) => i < |s.places| && s.places[i] == Ticking && s.cancelled
    case Wake => s.main == Serving && s.cancelled
    case Join => s.main == Joining && forall i :: 0 <= i < |s.places| ==> s.places[i] == Ended
    case CloseNext => s.main.Closing? && s.main.next < |s.closes|
  }

  function Count(s: seq<nat>, i: nat, change: int): seq<nat> {
    if i < |s| && s[i] + change >= 0 then s[i := s[i] + change] else s
  }

  function Apply(s: State, step: Step, closers: set<nat>): State
    requires Enabled(s, step)
  {
    match step
    case Cancel => s.(cancelled := true)
    case Begin(i) => s.(places := s.places[i := if s.cancelled then Ticking else Waiting])
    case Acquire(i) => s.(places := s.places[i := Collecting], slots := s.slots + 1, running := Count(s.running, i, 1))
    case GiveUp(i) => s.(places := s.places[i := Ticking])
    case Return(i) => s.(places := s.places[i := Reporting], running := Count(s.running, i, -1))
    case Panic(i) => s.(places := s.places[i := Reporting], running := Count(s.running, i, -1))
    case Release(i) => s.(places := s.places[i := Ticking], slots := if s.slots > 0 then s.slots - 1 else 0)
    case Tick(i) => s.(places := s.places[i := Waiting])
    case Leave(i) => s.(places := s.places[i := Ended])
    case Wake => s.(main := Joining)
    case Join => s.(main := if s.closes == [] then Stopped else Closing(0))
    case CloseNext =>
      var i := s.main.next;
      s.(closes := if i in closers then Count(s.closes, i, 1) else s.closes,
         main := if i + 1 == |s.closes| then Stopped else Closing(i + 1))
  }

  function Start(n: nat): State {
    State(Serving, false, 0, seq(n, _ => Starting), seq(n, _ => 0), seq(n, _ => 0))
  }

  function Run(s: State, closers: set<nat>, steps: seq<Step>): Option<State> {
    if steps == [] then Some(s)
    else match Run(s, closers, steps[..|steps| - 1])
      case None => None
      case Some(before) =>
        if Enabled(before, steps[|steps| - 1]) then Some(Apply(before, steps[|steps| - 1], closers)) else None
  }

  // ---------------------------------------------------------------------
  // What every run keeps
  // ---------------------------------------------------------------------

  predicate HoldsSlot(p: Place) { p == Collecting || p == Reporting }

  function Holders(places: seq<Place>): nat {
    if places == [] then 0 else Holders(places[1..]) + if HoldsSlot(places[0]) then 1 else 0
  }

  ghost predicate Inv(s: State, n: nat, closers: set<nat>) {
    && |s.places| == |s.running| == |s.closes| == n
    && s.slots == Holders(s.places) <= MaxConcurrency
    && (forall i :: 0 <= i < n ==> s.running[i] == if s.places[i] == Collecting then 1 else 0)
    && (forall i :: 0 <= i < n && s.places[i] == Ended ==> s.cancelled)
    && (s.main != Serving ==> s.cancelled)
    && (s.main.Closing? || s.main.Stopped? ==> forall i :: 0 <= i < n ==> s.places[i] == Ended)
    && (s.main.Closing? ==> s.main.next < n)
    && (forall i :: 0 <= i < n ==> s.closes[i] == if Closed(s.main, i) && i in closers then 1 else 0)
  }

  predicate Closed(m: Main, i: nat) { m.Stopped? || (m.Closing? && i < m.next) }

  lemma {:induction false} HoldersUpdate(places: seq<Place>, i: nat, p: Place)
    requires i < |places|
    ensures Holders(places[i := p]) - (if HoldsSlot(p) then 1 else 0)
         == Holders(places) - (if HoldsSlot(places[i]) then 1 else 0)
  {
    var after := places[i := p];
    if i == 0 {
      assert after[1..] == places[1..];
    } else {
      HoldersUpdate(places[1..], i - 1, p);
      assert after[1..] == places[1..][i - 1 := p];
    }
  }

  lemma {:induction false} NoHolders(places: seq<Place>)
    requires forall i :: 0 <= i < |places| ==> !HoldsSlot(places[i])
    ensures Holders(places) == 0
  {
    if places != [] {
      NoHolders(places[1..]);
    }
  }

  // The steps of the runner itself, which leave every goroutine where it is.
  predicate IsMainStep(step: Step) { step.Cancel? || step.Wake? || step.Join? || step.CloseNext? }

  lemma MainStepKeeps(s: State, n: nat, closers: set<nat>, step: Step)
    requires Inv(s, n, closers) && Enabled(s, step) && IsMainStep(step)
    ensures Inv(Apply(s, step, closers), n, closers)
  {
    hide Holders;
  }

  // One goroutine moves to another place, where it has `runs` collections in progress.
  ghost predicate Moves(s: State, t: State, i: nat, p: Place, runs: nat) {
    && i < |s.places| == |s.running|
    && t == s.(places := s.places[i := p], running := s.running[i := runs], slots := t.slots)
  }

  // Such a move keeps the invariant if slots and collections follow the place, and no
  // goroutine comes back from the end.
  lemma MoveKeeps(s: State, t: State, n: nat, closers: set<nat>, i: nat, p: Place, runs: nat)
    requires Inv(s, n, closers) && Moves(s, t, i, p, runs)
    requires s.places[i] != Ended && (p == Ended ==> s.cancelled)
    requires runs == if p == Collecting then 1 else 0
    requires t.slots <= MaxConcurrency
    requires t.slots - (if HoldsSlot(p) then 1 else 0) == s.slots - (if HoldsSlot(s.places[i]) then 1 else 0)
    ensures Inv(t, n, closers)
  {
    HoldersUpdate(s.places, i, p);
    hide Holders, HoldsSlot;
  }

  lemma {:induction false} HolderCounted(places: seq<Place>, i: nat)
    requires i < |places| && HoldsSlot(places[i])
    ensures Holders(places) > 0
  {
    if i > 0 {
      HolderCounted(places[1..], i - 1);
    }
  }

  lemma GoroutineStepKeeps(s: State, n: nat, closers: set<nat>, step: Step)
    requires Inv(s, n, closers) && Enabled(s, step) && !IsMainStep(step)
    ensures Inv(Apply(s, step, closers), n, closers)
  {
    hide Inv, Holders;
    var t, i := Apply(s, step, closers), step.i;
    GoroutineAt(s, n, closers, i);
    assert t.running == s.running[i := t.running[i]];
    MoveKeeps(s, t, n, closers, i, t.places[i], t.running[i]);
  }

  lemma GoroutineAt(s: State, n: nat, closers: set<nat>, i: nat)
    requires Inv(s, n, closers) && i < |s.places|
    ensures |s.places| == |s.running| && s.slots <= MaxConcurrency
    ensures s.running[i] == if s.places[i] == Collecting then 1 else 0
    ensures HoldsSlot(s.places[i]) ==> s.slots > 0
  {
    if HoldsSlot(s.places[i]) { HolderCounted(s.places, i); }
    hide Holders;
  }

  lemma StepKeeps(s: State, n: nat, closers: set<nat>, step: Step)
    requires Inv(s, n, closers) && Enabled(s, step)
    ensures Inv(Apply(s, step, closers), n, closers)
  {
    hide Inv, Enabled, Apply, IsMainStep;
    if IsMainStep(step) {
      MainStepKeeps(s, n, closers, step);
    } else {
      GoroutineStepKeeps(s, n, closers, step);
    }
  }

  lemma StartOk(n: nat, closers: set<nat>)
    ensures Inv(Start(n), n, closers)
  {
    NoHolders(Start(n).places);
  }

  lemma {:induction false} RunKeeps(n: nat, closers: set<nat>, steps: seq<Step>)
    ensures var r := Run(Start(n), closers, steps); r.Some? ==> Inv(r.value, n, closers)
  {
    hide Inv, Start, Apply;
    if steps == [] {
      StartOk(n, closers);
    } else {
      var earlier := steps[..|steps| - 1];
      RunKeeps(n, closers, earlier);
      var r := Run(Start(n), closers, earlier);
      if r.Some? && Enabled(r.value, steps[|steps| - 1]) {
        StepKeeps(r.value, n, closers, steps[|steps| - 1]);
      }
    }
  }

  lemma {:induction false} HoldersAre(places: seq<Place>)
    ensures Holders(places) == multiset(places)[Collecting] + multiset(places)[Reporting]
  {
    if places != [] {
      HoldersAre(places[1..]);
      assert places == [places[0]] + places[1..];
    }
  }

  // At most four collections are ever in progress, at most one of each collector; slots
  // are never lost, whether collections return or panic.
  lemma Bounded(n: nat, closers: set<nat>, steps: seq<Step>)
    ensures var r := Run(Start(n), closers, steps);
            r.Some? ==>
              var s := r.value;
              && s.slots == multiset(s.places)[Collecting] + multiset(s.places)[Reporting] <= 4
              && |s.running| == |s.places|
              && forall i :: 0 <= i < |s.running| ==> s.running[i] == if s.places[i] == Collecting then 1 else 0
  {
    RunKeeps(n, closers, steps);
    var r := Run(Start(n), closers, steps);
    if r.Some? {
      HoldersAre(r.value.places);
    }
  }

  // No Close before every goroutine has ended and so no Collect overlaps one; none
  // twice; and once stopped, every collector that can be closed has been.
  lemma ClosesInOrder(n: nat, closers: set<nat>, steps: seq<Step>)
    ensures var r := Run(Start(n), closers, steps);
            r.Some? ==>
              var s := r.value;
              && |s.closes| == |s.places| == |s.running| == n
              && (forall i :: 0 <= i < n && s.closes[i] > 0 ==>
                    && s.closes[i] == 1 && i in closers && s.slots == 0
                    && forall j :: 0 <= j < n ==> s.places[j] == Ended && s.running[j] == 0)
              && (s.main.Stopped? ==> forall i :: 0 <= i < n && i in closers ==> s.closes[i] == 1)
  {
    RunKeeps(n, closers, steps);
    var r := Run(Start(n), closers, steps);
    if r.Some? {
      var s := r.value;
      if i :| 0 <= i < n && s.closes[i] > 0 {
        NoHolders(s.places);
      }
    }
  }

  // ---------------------------------------------------------------------
  // Every tick is a collection attempted
  // ---------------------------------------------------------------------

  // Its goroutine got to the first collection before the signal.
  ghost predicate BeganInTime(steps: seq<Step>, i: nat) {
    exists j :: 0 <= j < |steps| && steps[j] == Begin(i) && Cancel !in steps[..j]
  }

  // How often a step was taken.
  function Taken(steps: seq<Step>, step: Step): nat { multiset(steps)[step] }

  // What was begun, granted, given up and ended for one collector, so far.
  ghost predicate Balanced(s: State, steps: seq<Step>, i: nat)
    requires i < |s.places| == |s.running|
  {
    var p := s.places[i];
    && (s.cancelled <==> Cancel in steps)
    && Taken(steps, Begin(i)) == (if p == Starting then 0 else 1)
    && Taken(steps, Tick(i)) + (if BeganInTime(steps, i) then 1 else 0)
       == Taken(steps, Acquire(i)) + Taken(steps, GiveUp(i)) + (if p == Waiting then 1 else 0)
    && Taken(steps, Acquire(i)) == Taken(steps, Return(i)) + Taken(steps, Panic(i)) + s.running[i]
    && Taken(steps, Return(i)) + Taken(steps, Panic(i)) == Taken(steps, Release(i)) + (if p == Reporting then 1 else 0)
    && Taken(steps, Leave(i)) == (if p == Ended then 1 else 0)
  }

  lemma TakenSnoc(steps: seq<Step>, last: Step, step: Step)
    ensures Taken(steps + [last], step) == Taken(steps, step) + if last == step then 1 else 0
  {
  }

  lemma BeganSnoc(steps: seq<Step>, last: Step, i: nat)
    ensures BeganInTime(steps + [last], i) <==> BeganInTime(steps, i) || (last == Begin(i) && Cancel !in steps)
  {
    var all := steps + [last];
    assert all[|steps|] == last && all[..|steps|] == steps;
    forall j | 0 <= j < |steps| ensures all[j] == steps[j] && all[..j] == steps[..j] {}
    if BeganInTime(steps, i) {
      var j :| 0 <= j < |steps| && steps[j] == Begin(i) && Cancel !in steps[..j];
      assert all[j] == Begin(i) && Cancel !in all[..j];
    }
    if BeganInTime(all, i) {
      var j :| 0 <= j < |all| && all[j] == Begin(i) && Cancel !in all[..j];
      if j < |steps| { assert steps[j] == Begin(i) && Cancel !in steps[..j]; }
    }
  }

  lemma NotTwice(steps: seq<Step>, i: nat)
    requires Taken(steps, Begin(i)) == 0
    ensures !BeganInTime(steps, i)
  {
    assert Begin(i) !in multiset(steps);
  }

  lemma BalanceStep(s: State, n: nat, closers: set<nat>, steps: seq<Step>, last: Step, i: nat)
    requires Inv(s, n, closers) && i < n && Enabled(s, last) && Balanced(s, steps, i)
    ensures var t := Apply(s, last, closers);
            i < |t.places| == |t.running| && Balanced(t, steps + [last], i)
  {
    hide Taken, BeganInTime, Holders;
    BeganSnoc(steps, last, i);
    forall step ensures Taken(steps + [last], step) == Taken(steps, step) + if last == step then 1 else 0 {
      TakenSnoc(steps, last, step);
    }
    if s.places[i] == Starting { NotTwice(steps, i); }
  }

  // Over every run: each tick of a collector, and its beginning if that came before the
  // signal, is one attempt; each attempt got a slot, gave up or is waiting; and each
  // that got a slot is one collection, which is in progress or came to one end.
  lemma {:induction false} AttemptsBalance(n: nat, closers: set<nat>, steps: seq<Step>, i: nat)
    requires i < n
    ensures var r := Run(Start(n), closers, steps);
            r.Some? ==> i < |r.value.places| == |r.value.running| && Balanced(r.value, steps, i)
  {
    hide Inv, Start, Apply, Balanced;
    if steps == [] {
      BalancedStart(n, i);
    } else {
      var earlier, last := steps[..|steps| - 1], steps[|steps| - 1];
      AttemptsBalance(n, closers, earlier, i);
      RunKeeps(n, closers, earlier);
      var r := Run(Start(n), closers, earlier);
      assert steps == earlier + [last];
      if r.Some? && Enabled(r.value, last) {
        BalanceStep(r.value, n, closers, earlier, last, i);
      }
    }
  }

  lemma BalancedStart(n: nat, i: nat)
    requires i < n
    ensures |Start(n).places| == |Start(n).running| == n && Balanced(Start(n), [], i)
  {
  }

  // How far a goroutine is from its next collection.
  function Distance(p: Place): nat {
    match p
    case Waiting => 0
    case Starting => 1
    case Ticking => 1
    case Reporting => 2
    case Collecting => 3
    case Ended => 4
  }

  // How many goroutines are collecting.
  function InFlight(places: seq<Place>): nat {
    if places == [] then 0 else InFlight(places[1..]) + if places[0] == Collecting then 1 else 0
  }

  lemma {:induction false} InFlightUpdate(places: seq<Place>, i: nat, p: Place)
    requires i < |places|
    ensures InFlight(places[i := p]) - (if p == Collecting then 1 else 0)
         == InFlight(places) - (if places[i] == Collecting then 1 else 0)
  {
    var after := places[i := p];
    if i == 0 {
      assert after[1..] == places[1..];
    } else {
      InFlightUpdate(places[1..], i - 1, p);
      assert after[1..] == places[1..][i - 1 := p];
    }
  }

  lemma TowardsCollecting(s: State, n: nat, closers: set<nat>, i: nat) returns (step: Step)
    requires Inv(s, n, closers) && !s.cancelled && i < n
    ensures Enabled(s, step) && step != Cancel
    ensures var t := Apply(s, step, closers);
            || step == Acquire(i)
            || (i < |t.places| && !t.cancelled
                && (|| Distance(t.places[i]) < Distance(s.places[i])
                    || (t.places[i] == s.places[i]
                        && (t.slots < s.slots || (t.slots == s.slots && InFlight(t.places) < InFlight(s.places))))))
  {
    match s.places[i]
    case Starting => step := Begin(i);
    case Collecting => step := Return(i);
    case Reporting => step := Release(i);
    case Ticking => step := Tick(i);
    case Waiting =>
      if s.slots < MaxConcurrency {
        step := Acquire(i);
      } else {
        if forall j :: 0 <= j < n ==> !HoldsSlot(s.places[j]) { NoHolders(s.places); }
        var j :| 0 <= j < n && HoldsSlot(s.places[j]);
        if s.places[j] == Reporting {
          step := Release(j);
        } else {
          step := Return(j);
          InFlightUpdate(s.places, j, Reporting);
        }
      }
  }

  // Until the signal every collector can always be collected once more: whatever slots
  // the others hold can come back, also after panics.
  lemma {:induction false} CanCollect(s: State, n: nat, closers: set<nat>, i: nat) returns (steps: seq<Step>)
    requires Inv(s, n, closers) && !s.cancelled && i < n
    ensures Cancel !in steps && Acquire(i) in steps
    ensures var r := Run(s, closers, steps); r.Some? && |r.value.running| == n && r.value.running[i] == 1
    decreases Distance(s.places[i]), s.slots, InFlight(s.places)
  {
    var step := TowardsCollecting(s, n, closers, i);
    StepKeeps(s, n, closers, step);
    var t := Apply(s, step, closers);
    var rest := [];
    if step != Acquire(i) {
      rest := CanCollect(t, n, closers, i);
    } else {
      assert Run(t, closers, []) == Some(t);
    }
    steps := [step] + rest;
    RunCons(s, closers, step, rest);
  }

  // ---------------------------------------------------------------------
  // Stopping
  // ---------------------------------------------------------------------

  function Rank(p: Place): nat {
    match p
    case Starting => 5
    case Waiting => 4
    case Collecting => 3
    case Reporting => 2
    case Ticking => 1
    case Ended => 0
  }

  function Ranks(places: seq<Place>): nat {
    if places == [] then 0 else Rank(places[0]) + Ranks(places[1..])
  }

  function MainRank(m: Main, n: nat): int {
    match m
    case Serving => n + 2
    case Joining => n + 1
    case Closing(next) => n - next
    case Stopped => 0
  }

  function Left(s: State): int { Ranks(s.places) + MainRank(s.main, |s.closes|) }

  lemma {:induction false} RanksUpdate(places: seq<Place>, i: nat, p: Place)
    requires i < |places|
    ensures Ranks(places[i := p]) - Rank(p) == Ranks(places) - Rank(places[i])
  {
    var after := places[i := p];
    if i == 0 {
      assert after[1..] == places[1..];
    } else {
      RanksUpdate(places[1..], i - 1, p);
      assert after[1..] == places[1..][i - 1 := p];
    }
  }

  // Apart from the ticker and the signal itself, every step is one towards the end.
  lemma EachStepHelps(s: State, n: nat, closers: set<nat>, step: Step)
    requires Inv(s, n, closers) && Enabled(s, step) && !step.Tick? && !step.Cancel?
    ensures Left(Apply(s, step, closers)) < Left(s)
  {
    var after := Apply(s, step, closers);
    if !(step.Wake? || step.Join? || step.CloseNext?) {
      RanksUpdate(s.places, step.i, after.places[step.i]);
    }
  }

  // After the signal, some such step is possible until the runner has stopped.
  lemma NextStep(s: State, n: nat, closers: set<nat>) returns (step: Step)
    requires Inv(s, n, closers) && s.cancelled && s.main != Stopped
    ensures Enabled(s, step) && !step.Tick? && !step.Cancel?
  {
    if i :| 0 <= i < n && s.places[i] != Ended {
      match s.places[i]
      case Starting => step := Begin(i);
      case Waiting => step := GiveUp(i);
      case Collecting => step := Return(i);
      case Reporting => step := Release(i);
      case Ticking => step := Leave(i);
    } else {
      match s.main
      case Serving => step := Wake;
      case Joining => step := Join;
      case Closing(_) => step := CloseNext;
    }
  }

  lemma {:induction false} RunCons(s: State, closers: set<nat>, first: Step, rest: seq<Step>)
    requires Enabled(s, first)
    ensures Run(s, closers, [first] + rest) == Run(Apply(s, first, closers), closers, rest)
  {
    var all := [first] + rest;
    if rest == [] {
      assert all == [first] && [first][..0] == [];
      assert Run(s, closers, []) == Some(s);
    } else {
      assert all[..|all| - 1] == [first] + rest[..|rest| - 1];
      RunCons(s, closers, first, rest[..|rest| - 1]);
    }
  }

  ghost predicate TickFree(steps: seq<Step>) {
    forall i :: 0 <= i < |steps| ==> !steps[i].Tick? && !steps[i].Cancel?
  }

  // From every state after the signal the runner can still come to a full stop.
  lemma {:induction false} CanStop(s: State, n: nat, closers: set<nat>) returns (steps: seq<Step>)
    requires Inv(s, n, closers) && s.cancelled
    ensures TickFree(steps)
    ensures var r := Run(s, closers, steps); r.Some? && r.value.main == Stopped
    decreases Left(s)
  {
    if s.main == Stopped {
      steps := [];
    } else {
      var step := NextStep(s, n, closers);
      EachStepHelps(s, n, closers, step);
      StepKeeps(s, n, closers, step);
      var rest := CanStop(Apply(s, step, closers), n, closers);
      steps := [step] + rest;
      RunCons(s, closers, step, rest);
    }
  }

  // The signal can come at any time, so every state there is can be brought to a stop.
  lemma CanBeStopped(s: State, n: nat, closers: set<nat>) returns (steps: seq<Step>)
    requires Inv(s, n, closers)
    ensures var r := Run(s, closers, steps); r.Some? && r.value.main == Stopped
  {
    if s.cancelled {
      steps := CanStop(s, n, closers);
    } else {
      StepKeeps(s, n, closers, Cancel);
      var rest := CanStop(Apply(s, Cancel, closers), n, closers);
      steps := [Cancel] + rest;
      RunCons(s, closers, Cancel, rest);
    }
  }

  // And unless tickers keep firing it must: such a continuation is no longer than
  // Left(s), and it only runs out of steps when stopped (NextStep).
  lemma {:induction false} MustStop(s: State, n: nat, closers: set<nat>, steps: seq<Step>)
    requires Inv(s, n, closers) && s.cancelled && TickFree(steps)
    ensures var r := Run(s, closers, steps);
            r.Some? ==>
              && Inv(r.value, n, closers) && r.value.cancelled
              && |steps| + Left(r.value) <= Left(s)
              && 0 <= Left(r.value)
  {
    hide Left, Inv, Apply;
    if steps != [] {
      var earlier := steps[..|steps| - 1];
      MustStop(s, n, closers, earlier);
      var r := Run(s, closers, earlier);
      if r.Some? && Enabled(r.value, steps[|steps| - 1]) {
        var last := steps[|steps| - 1];
        EachStepHelps(r.value, n, closers, last);
        StepKeeps(r.value, n, closers, last);
        StaysCancelled(r.value, closers, last);
      }
    }
    var r := Run(s, closers, steps);
    if r.Some? { LeftNatural(r.value, n, closers); }
  }

  lemma StaysCancelled(s: State, closers: set<nat>, step: Step)
    requires Enabled(s, step) && s.cancelled
    ensures Apply(s, step, closers).cancelled
  {
  }

  lemma LeftNatural(s: State, n: nat, closers: set<nat>)
    requires Inv(s, n, closers)
    ensures 0 <= Left(s) && (Left(s) == 0 ==> s.main == Stopped)
  {
  }
}
