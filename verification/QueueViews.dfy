/**
 RabbitMQ's per-queue breakdown: only the deepest queues are published each round.
 What a reader sees is the last value published, so a queue that leaves the top
 must be published as empty once.
 */
module QueueViews {
  import opened Text
  import opened Wrappers

  const MaxQueues: nat := 20

  datatype QueueInfo = QueueInfo(name: string, ready: int, unacknowledged: int, consumers: int)

  datatype DepthState = Ready | Unacknowledged

  datatype Event = Depth(queue: string, state: DepthState, value: int) | Consumers(queue: string, value: int)

  function Floor(v: int): int { if v < 0 then 0 else v }

  function DepthOf(q: QueueInfo): int { q.ready + q.unacknowledged }

  // What sort.Slice answers: the listing, deepest first, ties in any order.
  ghost predicate SortedListing(listing: seq<QueueInfo>, sorted: seq<QueueInfo>) {
    && multiset(listing) == multiset(sorted)
    && forall i, j :: 0 <= i < j < |sorted| ==> DepthOf(sorted[i]) >= DepthOf(sorted[j])
  }

  function Top(sorted: seq<QueueInfo>): seq<QueueInfo> {
    if |sorted| > MaxQueues then sorted[..MaxQueues] else sorted
  }

  function Names(top: seq<QueueInfo>): set<string> {
    if top == [] then {}
    else
      var name := TrimSpace(top[|top| - 1].name);
      Names(top[..|top| - 1]) + if name == "" then {} else {name}
  }

  function QueueEvents(top: seq<QueueInfo>): seq<Event> {
    if top == [] then []
    else
      var q := top[|top| - 1];
      var name := TrimSpace(q.name);
      QueueEvents(top[..|top| - 1]) +
      if name == "" then [] else
        [Depth(name, Ready, Floor(q.ready)), Depth(name, Unacknowledged, Floor(q.unacknowledged)),
         Consumers(name, Floor(q.consumers))]
  }

  // `order` is how the map of last round's names happens to be walked.
  function ZeroEvents(order: seq<string>, current: set<string>): seq<Event> {
    if order == [] then []
    else
      var name := order[|order| - 1];
      ZeroEvents(order[..|order| - 1], current) +
      if name in current then [] else [Depth(name, Ready, 0), Depth(name, Unacknowledged, 0)]
  }

  ghost predicate Walks(order: seq<string>, names: set<string>) { forall x :: x in order <==> x in names }

  class QueueBreakdown {
    var lastQueues: set<string>

    constructor ()
      ensures lastQueues == {}
    {
      lastQueues := {};
    }

    // One round: what the listing answered, if it did, and how it sorts.
    method Publish(listing: Option<seq<QueueInfo>>, sorted: seq<QueueInfo>, order: seq<string>)
      returns (events: seq<Event>)
      requires listing.Some? ==> SortedListing(listing.value, sorted)
      requires Walks(order, lastQueues)
      modifies this
      ensures listing.None? ==> events == [] && lastQueues == old(lastQueues)
      ensures listing.Some? ==>
                && lastQueues == Names(Top(sorted))
                && events == QueueEvents(Top(sorted)) + ZeroEvents(order, Names(Top(sorted)))
    {
      hide TrimSpace, Floor, SortedListing;
      if listing.None? {
        return [];
      }
      var queues := sorted;
      if |queues| > MaxQueues {
        queues := queues[..MaxQueues];
      }
      events := [];
      var current: set<string> := {};
      for i := 0 to |queues|
        invariant events == QueueEvents(queues[..i]) && current == Names(queues[..i])
      {
        assert queues[..i + 1][..i] == queues[..i];
        var name := TrimSpace(queues[i].name);
        if name == "" {
          continue;
        }
        current := current + {name};
        events := events + [Depth(name, Ready, Floor(queues[i].ready)),
                            Depth(name, Unacknowledged, Floor(queues[i].unacknowledged)),
                            Consumers(name, Floor(queues[i].consumers))];
      }
      assert queues[..|queues|] == queues;
      ghost var shown := events;
      assert shown + [] == shown;
      for i := 0 to |order|
        invariant events == shown + ZeroEvents(order[..i], current)
      {
        assert order[..i + 1][..i] == order[..i];
        if order[i] in current {
          assert ZeroEvents(order[..i + 1], current) == ZeroEvents(order[..i], current);
          continue;
        }
        events := events + [Depth(order[i], Ready, 0), Depth(order[i], Unacknowledged, 0)];
      }
      assert order[..|order|] == order;
      lastQueues := current;
    }
  }

  // Twenty queues of the listing are shown, or all if there are fewer.
  lemma TopSize(listing: seq<QueueInfo>, sorted: seq<QueueInfo>)
    requires SortedListing(listing, sorted)
    ensures |Top(sorted)| == (if |listing| < 20 then |listing| else 20) && multiset(Top(sorted)) <= multiset(listing)
  {
    assert |multiset(listing)| == |multiset(sorted)|;
    assert sorted == Top(sorted) + sorted[|Top(sorted)|..];
  }

  // No queue left out is deeper than one shown.
  lemma TopIsDeepest(listing: seq<QueueInfo>, sorted: seq<QueueInfo>, shown: QueueInfo, out: QueueInfo)
    requires SortedListing(listing, sorted) && shown in Top(sorted) && out in listing
    requires multiset(Top(sorted))[out] < multiset(listing)[out]
    ensures shown.ready + shown.unacknowledged >= out.ready + out.unacknowledged
  {
    var top := Top(sorted);
    var rest := sorted[|top|..];
    assert sorted == top + rest;
    assert out in multiset(rest);
    var i :| 0 <= i < |top| && top[i] == shown;
    var j :| 0 <= j < |rest| && rest[j] == out;
    assert sorted[i] == shown && sorted[|top| + j] == out;
  }

  // --- what a reader sees --------------------------------------------------

  type View = map<(string, DepthState), int>

  function Seen(view: View, events: seq<Event>): View {
    if events == [] then view
    else
      var before := Seen(view, events[..|events| - 1]);
      match events[|events| - 1]
      case Depth(q, s, v) => before[(q, s) := v]
      case Consumers(_, _) => before
  }

  lemma {:induction false} SeenConcat(view: View, a: seq<Event>, b: seq<Event>)
    ensures Seen(view, a + b) == Seen(Seen(view, a), b)
    decreases |b|
  {
    if b == [] {
      assert a + b == a;
    } else {
      SeenConcat(view, a, b[..|b| - 1]);
      assert (a + b)[..|a + b| - 1] == a + b[..|b| - 1];
    }
  }

  // A queue's depth in a top list: that of the last entry of its name.
  function DepthIn(top: seq<QueueInfo>, queue: string, state: DepthState): int {
    if top == [] then 0
    else
      var q := top[|top| - 1];
      if TrimSpace(q.name) == queue then Floor(if state == Ready then q.ready else q.unacknowledged)
      else DepthIn(top[..|top| - 1], queue, state)
  }

  // When names are distinct, that is the queue's own.
  lemma {:induction false} DepthOfDistinct(top: seq<QueueInfo>, i: nat, state: DepthState)
    requires i < |top|
    requires forall a, b :: 0 <= a < b < |top| ==> TrimSpace(top[a].name) != TrimSpace(top[b].name)
    ensures DepthIn(top, TrimSpace(top[i].name), state) ==
            var depth := if state == Ready then top[i].ready else top[i].unacknowledged;
            if depth > 0 then depth else 0
  {
    hide TrimSpace;
    if i < |top| - 1 {
      DepthOfDistinct(top[..|top| - 1], i, state);
    }
  }

  lemma SeenThree(view: View, name: string, r: int, u: int, c: int)
    ensures Seen(view, [Depth(name, Ready, r), Depth(name, Unacknowledged, u), Consumers(name, c)])
         == view[(name, Ready) := r][(name, Unacknowledged) := u]
  {
    var es := [Depth(name, Ready, r), Depth(name, Unacknowledged, u), Consumers(name, c)];
    assert es[..2] == [Depth(name, Ready, r), Depth(name, Unacknowledged, u)];
    assert es[..2][..1] == [Depth(name, Ready, r)] && es[..2][..1][..0] == [];
    assert Seen(view, []) == view;
    assert Seen(view, es[..2][..1]) == view[(name, Ready) := r];
  }

  lemma SeenTwo(view: View, name: string)
    ensures Seen(view, [Depth(name, Ready, 0), Depth(name, Unacknowledged, 0)])
         == view[(name, Ready) := 0][(name, Unacknowledged) := 0]
  {
    var es := [Depth(name, Ready, 0), Depth(name, Unacknowledged, 0)];
    assert es[..1] == [Depth(name, Ready, 0)] && es[..1][..0] == [];
    assert Seen(view, []) == view;
    assert Seen(view, es[..1]) == view[(name, Ready) := 0];
  }

  lemma {:induction false} SeenQueues(view: View, top: seq<QueueInfo>, queue: string, state: DepthState)
    ensures var after := Seen(view, QueueEvents(top));
            if queue in Names(top) then (queue, state) in after && after[(queue, state)] == DepthIn(top, queue, state)
            else ((queue, state) in after <==> (queue, state) in view)
                 && ((queue, state) in view ==> after[(queue, state)] == view[(queue, state)])
  {
    hide TrimSpace, Floor, Seen;
    if top == [] {
      SeenNothing(view);
    } else {
      var n := |top| - 1;
      var q := top[n];
      var name := TrimSpace(q.name);
      SeenQueues(view, top[..n], queue, state);
      if name == "" {
        assert QueueEvents(top) == QueueEvents(top[..n]);
        NamesNotEmpty(top[..n]);
      } else {
        SeenConcat(view, QueueEvents(top[..n]),
                   [Depth(name, Ready, Floor(q.ready)), Depth(name, Unacknowledged, Floor(q.unacknowledged)),
                    Consumers(name, Floor(q.consumers))]);
        SeenThree(Seen(view, QueueEvents(top[..n])), name, Floor(q.ready), Floor(q.unacknowledged), Floor(q.consumers));
      }
    }
  }

  lemma SeenNothing(view: View)
    ensures Seen(view, []) == view
  {
  }

  lemma {:induction false} NamesNotEmpty(top: seq<QueueInfo>)
    ensures "" !in Names(top)
  {
    if top != [] {
      NamesNotEmpty(top[..|top| - 1]);
    }
  }

  lemma {:induction false} SeenZeros(view: View, order: seq<string>, current: set<string>, queue: string, state: DepthState)
    ensures var after := Seen(view, ZeroEvents(order, current));
            if queue in order && queue !in current then (queue, state) in after && after[(queue, state)] == 0
            else ((queue, state) in after <==> (queue, state) in view)
                 && ((queue, state) in view ==> after[(queue, state)] == view[(queue, state)])
  {
    hide Seen;
    if order == [] {
      SeenNothing(view);
    } else {
      var n := |order| - 1;
      var name := order[n];
      SeenZeros(view, order[..n], current, queue, state);
      assert order == order[..n] + [name];
      if name in current {
        assert ZeroEvents(order, current) == ZeroEvents(order[..n], current);
      } else {
        SeenConcat(view, ZeroEvents(order[..n], current), [Depth(name, Ready, 0), Depth(name, Unacknowledged, 0)]);
        SeenTwo(Seen(view, ZeroEvents(order[..n], current)), name);
      }
    }
  }

  // --- every run of rounds -------------------------------------------------

  // A failed round publishes nothing and changes nothing.
  datatype Round = Listed(sorted: seq<QueueInfo>, order: seq<string>) | Failed

  // What the instance remembers, what a reader sees, and the last top list.
  datatype Board = Board(last: set<string>, view: View, top: seq<QueueInfo>)

  function After(b: Board, r: Round): Board {
    match r
    case Failed => b
    case Listed(sorted, order) =>
      var top := Top(sorted);
      Board(Names(top), Seen(b.view, QueueEvents(top) + ZeroEvents(order, Names(top))), top)
  }

  function AfterAll(rounds: seq<Round>): Board {
    if rounds == [] then Board({}, map[], [])
    else After(AfterAll(rounds[..|rounds| - 1]), rounds[|rounds| - 1])
  }

  // Every round walks exactly the names remembered from the last one.
  ghost predicate Walked(rounds: seq<Round>) {
    forall i :: 0 <= i < |rounds| && rounds[i].Listed? ==> Walks(rounds[i].order, AfterAll(rounds[..i]).last)
  }

  ghost predicate Agrees(b: Board) {
    && b.last == Names(b.top)
    && (forall q, s :: (q, s) in b.view ==> b.view[(q, s)] == DepthIn(b.top, q, s))
    && (forall q, s: DepthState :: q in b.last ==> (q, s) in b.view)
  }

  lemma {:induction false} NotNamed(top: seq<QueueInfo>, queue: string, state: DepthState)
    requires queue !in Names(top) && queue != ""
    ensures DepthIn(top, queue, state) == 0
  {
    hide TrimSpace;
    if top != [] {
      NotNamed(top[..|top| - 1], queue, state);
    }
  }

  lemma RoundAgrees(b: Board, r: Round)
    requires Agrees(b) && (r.Listed? ==> Walks(r.order, b.last))
    requires forall q, s :: (q, s) in b.view ==> q != ""
    ensures Agrees(After(b, r))
    ensures forall q, s :: (q, s) in After(b, r).view ==> q != ""
  {
    if r.Listed? {
      var top := Top(r.sorted);
      var after := After(b, r);
      hide Seen, QueueEvents, ZeroEvents, Names, DepthIn, Top;
      SeenConcat(b.view, QueueEvents(top), ZeroEvents(r.order, Names(top)));
      var mid := Seen(b.view, QueueEvents(top));
      NamesNotEmpty(top);
      NamesNotEmpty(b.top);
      forall q, s | (q, s) in after.view ensures q != "" && after.view[(q, s)] == DepthIn(top, q, s) {
        SeenZeros(mid, r.order, Names(top), q, s);
        SeenQueues(b.view, top, q, s);
        if q !in Names(top) {
          assert q != "";
          NotNamed(top, q, s);
          if q !in b.last { NotNamed(b.top, q, s); }
        }
      }
      forall q, s: DepthState | q in after.last ensures (q, s) in after.view {
        SeenQueues(b.view, top, q, s);
        SeenZeros(mid, r.order, Names(top), q, s);
      }
    }
  }

  // After any run, whatever succeeded or failed, the depth a reader sees for any
  // queue ever shown is its depth in the last successful listing's top queues, and
  // zero if it is not among them.
  lemma {:induction false} ViewIsLastListing(rounds: seq<Round>)
    requires Walked(rounds)
    ensures Agrees(AfterAll(rounds))
    ensures forall q, s :: (q, s) in AfterAll(rounds).view ==> q != ""
  {
    hide After, Agrees, Walks;
    if rounds == [] {
      NothingAgrees();
    } else {
      var earlier := rounds[..|rounds| - 1];
      forall i | 0 <= i < |earlier| && earlier[i].Listed? ensures Walks(earlier[i].order, AfterAll(earlier[..i]).last) {
        assert rounds[..i] == earlier[..i] && rounds[i] == earlier[i];
      }
      ViewIsLastListing(earlier);
      RoundAgrees(AfterAll(earlier), rounds[|rounds| - 1]);
    }
  }

  lemma NothingAgrees()
    ensures Agrees(Board({}, map[], []))
  {
  }

  // --- consumer counts -----------------------------------------------------

  type Counts = map<string, int>

  function SeenConsumers(view: Counts, events: seq<Event>): Counts {
    if events == [] then view
    else
      var before := SeenConsumers(view, events[..|events| - 1]);
      match events[|events| - 1]
      case Consumers(q, v) => before[q := v]
      case Depth(_, _, _) => before
  }

  lemma {:induction false} SeenConsumersConcat(view: Counts, a: seq<Event>, b: seq<Event>)
    ensures SeenConsumers(view, a + b) == SeenConsumers(SeenConsumers(view, a), b)
    decreases |b|
  {
    if b == [] {
      assert a + b == a;
    } else {
      SeenConsumersConcat(view, a, b[..|b| - 1]);
      assert (a + b)[..|a + b| - 1] == a + b[..|b| - 1];
    }
  }

  lemma SeenOneConsumers(view: Counts, d: Event, e: Event, queue: string, value: int)
    requires d.Depth? && e.Depth?
    ensures SeenConsumers(view, [d, e, Consumers(queue, value)]) == view[queue := value]
    ensures SeenConsumers(view, [d, e]) == view
    ensures SeenConsumers(view, []) == view
  {
    var es := [d, e, Consumers(queue, value)];
    assert es[..2] == [d, e] && [d, e][..1] == [d] && [d][..0] == [];
    assert SeenConsumers(view, [d]) == view;
  }

  // A queue's consumers in a top list: those of the last entry of its name.
  function ConsumersIn(top: seq<QueueInfo>, queue: string): int {
    if top == [] then 0
    else if TrimSpace(top[|top| - 1].name) == queue then Floor(top[|top| - 1].consumers)
    else ConsumersIn(top[..|top| - 1], queue)
  }

  lemma {:induction false} ConsumersOfQueues(view: Counts, top: seq<QueueInfo>, queue: string)
    ensures var after := SeenConsumers(view, QueueEvents(top));
            if queue in Names(top) then queue in after && after[queue] == ConsumersIn(top, queue)
            else (queue in after <==> queue in view) && (queue in view ==> after[queue] == view[queue])
  {
    hide TrimSpace, Floor, SeenConsumers;
    var a, b := Depth("", Ready, 0), Depth("", Ready, 0);
    if top == [] {
      SeenOneConsumers(view, a, b, "", 0);
    } else {
      var earlier, q := top[..|top| - 1], top[|top| - 1];
      var name := TrimSpace(q.name);
      ConsumersOfQueues(view, earlier, queue);
      if name == "" {
        assert QueueEvents(top) == QueueEvents(earlier);
        NamesNotEmpty(earlier);
      } else {
        a, b := Depth(name, Ready, Floor(q.ready)), Depth(name, Unacknowledged, Floor(q.unacknowledged));
        SeenConsumersConcat(view, QueueEvents(earlier), [a, b, Consumers(name, Floor(q.consumers))]);
        SeenOneConsumers(SeenConsumers(view, QueueEvents(earlier)), a, b, name, Floor(q.consumers));
      }
    }
  }

  // Queues that leave the top take only their depths back to zero.
  lemma {:induction false} ConsumersOfZeros(view: Counts, order: seq<string>, current: set<string>)
    ensures SeenConsumers(view, ZeroEvents(order, current)) == view
  {
    hide SeenConsumers;
    var a, b := Depth("", Ready, 0), Depth("", Ready, 0);
    if order == [] {
      SeenOneConsumers(view, a, b, "", 0);
    } else {
      var earlier, name := order[..|order| - 1], order[|order| - 1];
      ConsumersOfZeros(view, earlier, current);
      if name in current {
        assert ZeroEvents(order, current) == ZeroEvents(earlier, current);
      } else {
        a, b := Depth(name, Ready, 0), Depth(name, Unacknowledged, 0);
        SeenConsumersConcat(view, ZeroEvents(earlier, current), [a, b]);
        SeenOneConsumers(view, a, b, "", 0);
      }
    }
  }

  function TopOf(r: Round): seq<QueueInfo> { if r.Listed? then Top(r.sorted) else [] }

  // What a reader of consumer counts sees after a run of rounds.
  function CountsAfter(rounds: seq<Round>): Counts {
    if rounds == [] then map[]
    else
      var before := CountsAfter(rounds[..|rounds| - 1]);
      match rounds[|rounds| - 1]
      case Failed => before
      case Listed(sorted, order) =>
        SeenConsumers(before, QueueEvents(Top(sorted)) + ZeroEvents(order, Names(Top(sorted))))
  }

  predicate NamedBy(r: Round, queue: string) { queue in Names(TopOf(r)) }

  // The last position that holds, or -1.
  function LastTrue(marks: seq<bool>): (k: int)
    ensures -1 <= k < |marks|
    ensures k >= 0 ==> marks[k]
    ensures forall j :: k < j < |marks| ==> !marks[j]
  {
    if marks == [] then -1
    else if marks[|marks| - 1] then |marks| - 1
    else LastTrue(marks[..|marks| - 1])
  }

  function Marks(rounds: seq<Round>, queue: string): (marks: seq<bool>)
    ensures |marks| == |rounds| && forall i :: 0 <= i < |rounds| ==> marks[i] == NamedBy(rounds[i], queue)
  {
    seq(|rounds|, i requires 0 <= i < |rounds| => NamedBy(rounds[i], queue))
  }

  // The latest round whose top list names the queue, or -1.
  function LatestNaming(rounds: seq<Round>, queue: string): (k: int)
    ensures -1 <= k < |rounds|
    ensures k >= 0 ==> NamedBy(rounds[k], queue)
    ensures forall j :: k < j < |rounds| ==> !NamedBy(rounds[j], queue)
  {
    LastTrue(Marks(rounds, queue))
  }

  lemma CountsStep(rounds: seq<Round>, queue: string)
    requires rounds != []
    ensures var before, after := CountsAfter(rounds[..|rounds| - 1]), CountsAfter(rounds);
            var top := TopOf(rounds[|rounds| - 1]);
            if queue in Names(top) then queue in after && after[queue] == ConsumersIn(top, queue)
            else (queue in after <==> queue in before) && (queue in before ==> after[queue] == before[queue])
  {
    hide Top, QueueEvents, ZeroEvents, SeenConsumers, ConsumersIn;
    var before, last := CountsAfter(rounds[..|rounds| - 1]), rounds[|rounds| - 1];
    if last.Listed? {
      var top := Top(last.sorted);
      SeenConsumersConcat(before, QueueEvents(top), ZeroEvents(last.order, Names(top)));
      ConsumersOfQueues(before, top, queue);
      ConsumersOfZeros(SeenConsumers(before, QueueEvents(top)), last.order, Names(top));
    }
  }

  // After any run, the consumer count a reader sees is the one of the latest listing
  // whose top named the queue, and there is none if no listing ever did.
  lemma {:induction false} ConsumersAreLatest(rounds: seq<Round>, queue: string)
    ensures var k, view := LatestNaming(rounds, queue), CountsAfter(rounds);
            if k < 0 then queue !in view
            else queue in view && view[queue] == ConsumersIn(TopOf(rounds[k]), queue)
  {
    hide Names, TopOf, ConsumersIn;
    if rounds != [] {
      var earlier := rounds[..|rounds| - 1];
      CountsStep(rounds, queue);
      ConsumersAreLatest(earlier, queue);
      hide CountsAfter;
      var k, last := LatestNaming(earlier, queue), LatestNaming(rounds, queue);
      assert k >= 0 ==> earlier[k] == rounds[k];
      hide NamedBy;
      assert !NamedBy(rounds[|rounds| - 1], queue) ==> last == k by {
        assert last >= 0 && last < |earlier| ==> NamedBy(earlier[last], queue);
        assert k >= 0 ==> NamedBy(rounds[k], queue);
      }
    }
  }

  lemma {:induction false} LastTopNames(rounds: seq<Round>, queue: string)
    ensures queue in Names(AfterAll(rounds).top) ==>
              queue in CountsAfter(rounds) && CountsAfter(rounds)[queue] == ConsumersIn(AfterAll(rounds).top, queue)
  {
    hide Names, Top, ConsumersIn, Seen, SeenConsumers;
    if rounds == [] {
      NothingNamed(queue);
    } else {
      LastTopNames(rounds[..|rounds| - 1], queue);
      CountsStep(rounds, queue);
    }
  }

  lemma NothingNamed(queue: string)
    ensures queue !in Names([])
  {
  }

  lemma {:induction false} NoConsumersUnnamed(top: seq<QueueInfo>, queue: string)
    requires queue !in Names(top) && queue != ""
    ensures ConsumersIn(top, queue) == 0
  {
    hide TrimSpace, Floor;
    if top != [] {
      NoConsumersUnnamed(top[..|top| - 1], queue);
    }
  }

  // So the count agrees with the last successful listing, where a queue not in its top
  // has none, if and only if the queue is still in the top or had no consumers when it
  // was last there.
  lemma ConsumersAgreeExactly(rounds: seq<Round>, queue: string)
    ensures var k, top := LatestNaming(rounds, queue), AfterAll(rounds).top;
            k >= 0 ==>
              && queue in CountsAfter(rounds)
              && (CountsAfter(rounds)[queue] == ConsumersIn(top, queue) <==>
                    queue in Names(top) || ConsumersIn(TopOf(rounds[k]), queue) == 0)
  {
    hide TopOf, ConsumersIn, CountsAfter, AfterAll, Names;
    var k := LatestNaming(rounds, queue);
    ConsumersAreLatest(rounds, queue);
    LastTopNames(rounds, queue);
    if k >= 0 {
      NamesNotEmpty(TopOf(rounds[k]));
      if queue !in Names(AfterAll(rounds).top) {
        NoConsumersUnnamed(AfterAll(rounds).top, queue);
      }
    }
  }

  const Busy: QueueInfo := QueueInfo("q", 0, 0, 3)
  const Shown: Round := Listed([Busy], [])
  const Deleted: Round := Listed([], ["q"])

  // A queue with three consumers is deleted: its depths go to zero, its count stays.
  lemma ConsumersLinger()
    ensures Walked([Shown, Deleted]) && AfterAll([Shown, Deleted]).top == []
    ensures "q" in CountsAfter([Shown, Deleted]) && CountsAfter([Shown, Deleted])["q"] == 3
  {
    hide CountsAfter, AfterAll, ConsumersIn, Names;
    var rounds := [Shown, Deleted];
    OneNamed(Busy);
    NothingNamed("q");
    LingerBoards();
    var k := LatestNaming(rounds, "q");
    assert NamedBy(rounds[0], "q") && !NamedBy(rounds[1], "q");
    assert k == 0;
    ConsumersAreLatest(rounds, "q");
  }

  lemma AfterSnoc(rounds: seq<Round>, r: Round)
    ensures AfterAll(rounds + [r]) == After(AfterAll(rounds), r)
  {
    hide After;
    assert (rounds + [r])[..|rounds|] == rounds;
  }

  lemma LingerBoards()
    ensures Walked([Shown, Deleted]) && AfterAll([Shown, Deleted]).top == []
  {
    hide AfterAll, After, Walks;
    LastShown();
    LastDeleted();
    NothingYet();
    WalkedPair(Shown, Deleted);
  }

  lemma LastShown()
    ensures AfterAll([Shown]).last == {"q"} && Walks(Deleted.order, {"q"}) && Walks(Shown.order, {})
  {
    hide AfterAll, Seen, QueueEvents, ZeroEvents, Names;
    OneNamed(Busy);
    AfterSnoc([], Shown);
    assert [] + [Shown] == [Shown];
  }

  lemma LastDeleted()
    ensures AfterAll([Shown, Deleted]).top == []
  {
    hide AfterAll, Seen, QueueEvents, ZeroEvents, Names;
    AfterSnoc([Shown], Deleted);
    assert [Shown] + [Deleted] == [Shown, Deleted];
  }

  lemma WalkedPair(a: Round, b: Round)
    requires a.Listed? ==> Walks(a.order, AfterAll([]).last)
    requires b.Listed? ==> Walks(b.order, AfterAll([a]).last)
    ensures Walked([a, b])
  {
    hide AfterAll, Walks;
    var rounds := [a, b];
    assert rounds[..0] == [] && rounds[..1] == [a];
  }

  lemma NothingYet()
    ensures AfterAll([]).last == {}
  {
  }

  lemma OneNamed(q: QueueInfo)
    requires Trimmed(q.name) && q.name != ""
    ensures Names([q]) == {q.name} && ConsumersIn([q], q.name) == Floor(q.consumers)
  {
    TrimSpaceTrims(q.name);
    hide TrimSpace;
    assert [q][..0] == [] && Names([]) == {};
  }
}
