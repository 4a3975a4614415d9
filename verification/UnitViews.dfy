/**
 systemd's failed units: only the first few are named each round, and one that is
 no longer named must be published as recovered once.
 */
module UnitViews {
  import opened Wrappers

  const MaxNamedFailedUnits: nat := 20

  datatype Event = UnitsCount(state: string, n: nat) | UnitFailed(unit: string, failed: bool)

  function Named(failed: seq<string>): seq<string> {
    if |failed| > MaxNamedFailedUnits then failed[..MaxNamedFailedUnits] else failed
  }

  function FailedEvents(units: seq<string>): seq<Event> {
    if units == [] then [] else FailedEvents(units[..|units| - 1]) + [UnitFailed(units[|units| - 1], true)]
  }

  // `order` is how the map of last round's units happens to be walked.
  function RecoveredEvents(order: seq<string>, current: set<string>): seq<Event> {
    if order == [] then []
    else
      RecoveredEvents(order[..|order| - 1], current) +
      if order[|order| - 1] in current then [] else [UnitFailed(order[|order| - 1], false)]
  }

  lemma FailedSnoc(units: seq<string>, u: string)
    ensures FailedEvents(units + [u]) == FailedEvents(units) + [UnitFailed(u, true)]
  {
    assert (units + [u])[..|units|] == units;
  }

  lemma RecoveredSnoc(order: seq<string>, u: string, current: set<string>)
    ensures RecoveredEvents(order + [u], current)
         == RecoveredEvents(order, current) + if u in current then [] else [UnitFailed(u, false)]
  {
    assert (order + [u])[..|order|] == order;
  }

  lemma NoEvents(current: set<string>)
    ensures FailedEvents([]) == [] && RecoveredEvents([], current) == []
  {
  }

  function SetOf(units: seq<string>): set<string> { set u | u in units }

  function CountEvents(failed: nat, loaded: Option<nat>): seq<Event> {
    [UnitsCount("failed", failed)] + match loaded case Some(n) => [UnitsCount("loaded", n)] case None => []
  }

  class Collector {
    var lastFailed: set<string>

    constructor ()
      ensures lastFailed == {}
    {
      lastFailed := {};
    }

    // `failed` and `loaded` are what the two listings answered.
    method Collect(failed: Option<seq<string>>, loaded: Option<nat>, order: seq<string>)
      returns (events: seq<Event>, ok: bool)
      requires SetOf(order) == lastFailed
      modifies this
      ensures failed.None? ==> !ok && events == [] && lastFailed == old(lastFailed)
      ensures failed.Some? ==>
                && (ok <==> loaded.Some?)
                && lastFailed == SetOf(Named(failed.value))
                && events == CountEvents(|failed.value|, loaded) +
                             (FailedEvents(Named(failed.value)) + RecoveredEvents(order, lastFailed))
    {
      hide FailedEvents, RecoveredEvents;
      if failed.None? {
        return [], false;
      }
      var units := failed.value;
      events := [UnitsCount("failed", |units|)];
      if loaded.Some? {
        events := events + [UnitsCount("loaded", loaded.value)];
      }
      ghost var counts := events;
      var current: set<string> := {};
      var i := 0;
      NoEvents({});
      assert counts + [] == counts;
      while i < |units| && i < MaxNamedFailedUnits
        invariant i <= |units| && i <= MaxNamedFailedUnits
        invariant current == SetOf(units[..i]) && events == counts + FailedEvents(units[..i])
      {
        assert units[..i + 1] == units[..i] + [units[i]];
        FailedSnoc(units[..i], units[i]);
        current := current + {units[i]};
        events := events + [UnitFailed(units[i], true)];
        i := i + 1;
      }
      assert units[..i] == Named(units);
      ghost var shown := FailedEvents(Named(units));
      NoEvents(current);
      assert counts + (shown + []) == counts + shown;
      for j := 0 to |order|
        invariant events == counts + (shown + RecoveredEvents(order[..j], current))
      {
        assert order[..j + 1] == order[..j] + [order[j]];
        RecoveredSnoc(order[..j], order[j], current);
        if order[j] !in current {
          events := events + [UnitFailed(order[j], false)];
        }
      }
      assert order[..|order|] == order;
      lastFailed := current;
      return events, loaded.Some?;
    }
  }

  // --- what a reader sees --------------------------------------------------

  type View = map<string, bool>

  function Seen(view: View, events: seq<Event>): View {
    if events == [] then view
    else
      var before := Seen(view, events[..|events| - 1]);
      match events[|events| - 1]
      case UnitFailed(u, f) => before[u := f]
      case UnitsCount(_, _) => before
  }

  lemma {:induction false} SeenConcat(view: View, a: seq<Event>, b: seq<Event>)
    ensures Seen(view, a + b) == Seen(Seen(view, a), b)
    decreases |b|
  {
    if b == [] {
      assert a + b == a;
    } else {
      SeenConcat(view, a, b[..|b| - 1]);
      assert (a + b)[..|a + b| - 1] == a + b[..|b| - 1];
    }
  }

  lemma {:induction false} SeenFailed(view: View, units: seq<string>, u: string)
    ensures var after := Seen(view, FailedEvents(units));
            if u in units then u in after && after[u]
            else (u in after <==> u in view) && (u in view ==> after[u] == view[u])
  {
    hide Seen, FailedEvents;
    if units == [] {
      NoEvents({});
      SeenNothing(view);
    } else {
      var earlier, last := units[..|units| - 1], units[|units| - 1];
      assert units == earlier + [last];
      SeenFailed(view, earlier, u);
      FailedSnoc(earlier, last);
      SeenSnoc(view, FailedEvents(earlier), last, true);
    }
  }

  lemma {:induction false} SeenRecovered(view: View, order: seq<string>, current: set<string>, u: string)
    ensures var after := Seen(view, RecoveredEvents(order, current));
            if u in order && u !in current then u in after && !after[u]
            else (u in after <==> u in view) && (u in view ==> after[u] == view[u])
  {
    hide Seen, RecoveredEvents;
    if order == [] {
      NoEvents(current);
      SeenNothing(view);
    } else {
      var earlier, last := order[..|order| - 1], order[|order| - 1];
      assert order == earlier + [last];
      SeenRecovered(view, earlier, current, u);
      RecoveredSnoc(earlier, last, current);
      if last in current {
        assert RecoveredEvents(earlier, current) + [] == RecoveredEvents(earlier, current);
      } else {
        SeenSnoc(view, RecoveredEvents(earlier, current), last, false);
      }
    }
  }

  lemma SeenNothing(view: View)
    ensures Seen(view, []) == view
  {
  }

  lemma SeenSnoc(view: View, events: seq<Event>, u: string, failed: bool)
    ensures Seen(view, events + [UnitFailed(u, failed)]) == Seen(view, events)[u := failed]
  {
    assert (events + [UnitFailed(u, failed)])[..|events|] == events;
  }

  lemma SeenCounts(view: View, failed: nat, loaded: Option<nat>)
    ensures Seen(view, CountEvents(failed, loaded)) == view
  {
    var es := CountEvents(failed, loaded);
    assert es[..1] == [UnitsCount("failed", failed)] && es[..1][..0] == [];
    assert Seen(view, []) == view;
    assert Seen(view, es[..1]) == view;
    if loaded.None? { assert es == es[..1]; }
  }

  // The first twenty of a listing, or all of it.
  lemma NamedAreFirst(failed: seq<string>)
    ensures Named(failed) <= failed && |Named(failed)| == if |failed| < 20 then |failed| else 20
  {
  }

  lemma {:induction false} OnlyUnits(units: seq<string>, order: seq<string>, current: set<string>)
    ensures forall e :: e in FailedEvents(units) || e in RecoveredEvents(order, current) ==> e.UnitFailed?
  {
    if units != [] {
      OnlyUnits(units[..|units| - 1], order, current);
    } else if order != [] {
      OnlyUnits(units, order[..|order| - 1], current);
    }
  }

  // A round counts all failed units, not only those it names, and the loaded ones if
  // that listing succeeded, each under its own state and once.
  lemma CountsOfRound(failed: seq<string>, loaded: Option<nat>, order: seq<string>)
    ensures var named := Named(failed);
            var events := CountEvents(|failed|, loaded) + (FailedEvents(named) + RecoveredEvents(order, SetOf(named)));
            && (forall state, n :: UnitsCount(state, n) in events <==>
                  (state == "failed" && n == |failed|) || (state == "loaded" && loaded == Some(n)))
            && multiset(events)[UnitsCount("failed", |failed|)] == 1
            && (loaded.Some? ==> multiset(events)[UnitsCount("loaded", loaded.value)] == 1)
  {
    var named := Named(failed);
    OnlyUnits(named, order, SetOf(named));
    hide FailedEvents, RecoveredEvents, Named;
    var counts, units := CountEvents(|failed|, loaded), FailedEvents(named) + RecoveredEvents(order, SetOf(named));
    assert "failed" != "loaded" by { assert "failed"[0] != "loaded"[0]; }
    assert forall e :: e in units ==> e.UnitFailed?;
    assert UnitsCount("failed", |failed|) !in units;
    if loaded.Some? {
      assert counts == [UnitsCount("failed", |failed|), UnitsCount("loaded", loaded.value)];
      assert UnitsCount("loaded", loaded.value) !in units;
    } else {
      assert counts == [UnitsCount("failed", |failed|)];
    }
  }

  // --- every run of rounds -------------------------------------------------

  datatype Round = Round(failed: Option<seq<string>>, loaded: Option<nat>, order: seq<string>)

  datatype Board = Board(last: set<string>, view: View, named: seq<string>)

  function After(b: Board, r: Round): Board {
    match r.failed
    case None => b
    case Some(failed) =>
      var named := Named(failed);
      Board(SetOf(named),
            Seen(b.view, CountEvents(|failed|, r.loaded) + (FailedEvents(named) + RecoveredEvents(r.order, SetOf(named)))),
            named)
  }

  function AfterAll(rounds: seq<Round>): Board {
    if rounds == [] then Board({}, map[], []) else After(AfterAll(rounds[..|rounds| - 1]), rounds[|rounds| - 1])
  }

  // Every round walks exactly the units remembered from the last one.
  ghost predicate Walked(rounds: seq<Round>) {
    forall i :: 0 <= i < |rounds| ==> SetOf(rounds[i].order) == AfterAll(rounds[..i]).last
  }

  ghost predicate Agrees(b: Board) {
    && b.last == SetOf(b.named)
    && forall u :: u in b.view && b.view[u] <==> u in b.named
  }

  lemma RoundAgrees(b: Board, r: Round)
    requires Agrees(b) && SetOf(r.order) == b.last
    ensures Agrees(After(b, r))
  {
    if r.failed.Some? {
      var failed := r.failed.value;
      var named := Named(failed);
      var counts, shown, gone := CountEvents(|failed|, r.loaded), FailedEvents(named), RecoveredEvents(r.order, SetOf(named));
      var after := After(b, r);
      hide Seen, CountEvents, FailedEvents, RecoveredEvents, Named;
      SeenConcat(b.view, counts, shown + gone);
      SeenCounts(b.view, |failed|, r.loaded);
      SeenConcat(b.view, shown, gone);
      forall u ensures u in after.view && after.view[u] <==> u in named {
        SeenFailed(b.view, named, u);
        SeenRecovered(Seen(b.view, shown), r.order, SetOf(named), u);
        assert u in r.order <==> u in SetOf(r.order);
      }
    }
  }

  // After any run, whatever succeeded or failed, the units a reader sees as failed
  // are exactly the first MaxNamedFailedUnits of the last successful failed listing.
  lemma {:induction false} ViewIsLastListing(rounds: seq<Round>)
    requires Walked(rounds)
    ensures Agrees(AfterAll(rounds))
  {
    hide After, Agrees;
    if rounds == [] {
      NothingAgrees();
    } else {
      var earlier := rounds[..|rounds| - 1];
      forall i | 0 <= i < |earlier| ensures SetOf(earlier[i].order) == AfterAll(earlier[..i]).last {
        assert rounds[..i] == earlier[..i] && rounds[i] == earlier[i];
      }
      ViewIsLastListing(earlier);
      RoundAgrees(AfterAll(earlier), rounds[|rounds| - 1]);
    }
  }

  lemma NothingAgrees()
    ensures Agrees(Board({}, map[], []))
  {
  }
}
