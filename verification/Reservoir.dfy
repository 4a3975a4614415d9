/**
 The bounded sample of response times kept by the access-log collector
 (Algorithm R), and the proof that it is exactly uniform.

 No probability theory is involved. A run is determined by its tape: the list
 of numbers the random source answered, one for each value offered once the
 sample is full. Uniformity is a count of tapes.
 */
module Reservoirs {

  // ---------------------------------------------------------------------
  // The objects, as the collector updates them
  // ---------------------------------------------------------------------

  // What the p-th call to Intn(n) answers, for a source producing `draws`.
  function Draw(draws: seq<nat>, p: nat, n: nat): (i: nat)
    requires n > 0
    ensures i < n
  {
    if p < |draws| && draws[p] < n then draws[p] else 0
  }

  // A random source reduced to what matters here: the numbers it will answer.
  class Rand {
    const draws: seq<nat>
    var pos: nat

    constructor (draws: seq<nat>)
      ensures this.draws == draws && pos == 0
    {
      this.draws := draws;
      pos := 0;
    }

    method Intn(n: nat) returns (i: nat)
      requires n > 0
      modifies this
      ensures i == Draw(draws, old(pos), n) && pos == old(pos) + 1
    {
      i := Draw(draws, pos, n);
      pos := pos + 1;
    }
  }

  class Reservoir<T> {
    const limit: nat
    var samples: seq<T>
    var offered: nat

    ghost var values: seq<T>     // everything offered so far
    ghost var tape: seq<nat>     // what the source answered

    ghost predicate Valid()
      reads this
    {
      && offered == |values|
      && |tape| == Drawn(limit, |values|) && ValidTape(limit, tape)
      && samples == Kept(limit, values, tape)
    }

    constructor (limit: nat)
      ensures Valid() && this.limit == limit && values == [] && tape == []
    {
      this.limit := limit;
      samples, offered, values, tape := [], 0, [], [];
    }

    method Offer(r: Rand, v: T)
      requires Valid()
      modifies this, r
      ensures Valid() && values == old(values) + [v]
      ensures old(offered) < limit ==> tape == old(tape) && r.pos == old(r.pos)
      ensures old(offered) >= limit ==>
                tape == old(tape) + [Draw(r.draws, old(r.pos), offered)] && r.pos == old(r.pos) + 1
    {
      ghost var d := Draw(r.draws, r.pos, offered + 1);
      KeptExtends(limit, values, v, tape, d);
      hide Sample, Pick, Kept;
      offered := offered + 1;
      values := values + [v];
      if |samples| < limit {
        samples := samples + [v];
        return;
      }
      var idx := r.Intn(offered);
      tape := tape + [idx];
      if idx < limit {
        samples := samples[idx := v];
      }
    }
  }

  // ---------------------------------------------------------------------
  // Which positions survive, as a function of the tape
  // ---------------------------------------------------------------------

  function Iota(n: nat): (s: seq<nat>)
    ensures |s| == n && forall i :: 0 <= i < n ==> s[i] == i
  {
    seq(n, i => i)
  }

  // The j-th draw is taken when k + 1 + j values have been offered.
  ghost predicate ValidTape(k: nat, tape: seq<nat>) {
    forall j :: 0 <= j < |tape| ==> tape[j] < k + 1 + j
  }

  // The positions held after k + |tape| offers to a reservoir of limit k.
  function Sample(k: nat, tape: seq<nat>): (s: seq<nat>)
    ensures |s| == k
    ensures forall i :: 0 <= i < k ==> s[i] < k + |tape|
  {
    if tape == [] then Iota(k)
    else
      var m := |tape| - 1;
      var before := Sample(k, tape[..m]);
      if tape[m] < k then before[tape[m] := k + m] else before
  }

  lemma SampleStep(k: nat, t: seq<nat>, d: nat)
    ensures Sample(k, t + [d]) == if d < k then Sample(k, t)[d := k + |t|] else Sample(k, t)
  {
    assert (t + [d])[..|t|] == t;
  }

  lemma {:induction false} SampleDistinct(k: nat, t: seq<nat>)
    ensures forall i, j :: 0 <= i < j < k ==> Sample(k, t)[i] != Sample(k, t)[j]
  {
    if t != [] {
      SampleDistinct(k, t[..|t| - 1]);
    }
  }

  function Pick<T>(values: seq<T>, at: seq<nat>): (r: seq<T>)
    requires forall i :: 0 <= i < |at| ==> at[i] < |values|
    ensures |r| == |at| && forall i :: 0 <= i < |r| ==> r[i] == values[at[i]]
  {
    seq(|at|, i requires 0 <= i < |at| => values[at[i]])
  }

  // How many numbers the source is asked for while n values are offered.
  function Drawn(k: nat, n: nat): nat { if n <= k then 0 else n - k }

  // The sample left by offering `values`: the values at the surviving positions.
  function Kept<T>(k: nat, values: seq<T>, tape: seq<nat>): (r: seq<T>)
    requires |tape| == Drawn(k, |values|)
    ensures |r| == if |values| < k then |values| else k
  {
    if |values| <= k then values else Pick(values, Sample(k, tape))
  }

  lemma KeptAsPick<T>(k: nat, values: seq<T>, tape: seq<nat>, at: seq<nat>)
    requires |values| >= k && |tape| == |values| - k && at == Sample(k, tape)
    ensures forall i :: 0 <= i < k ==> at[i] < |values|
    ensures Kept(k, values, tape) == Pick(values, at)
  {
  }

  lemma PickExtends<T>(values: seq<T>, v: T, at: seq<nat>, d: nat)
    requires forall i :: 0 <= i < |at| ==> at[i] < |values|
    ensures Pick(values + [v], at) == Pick(values, at)
    ensures d < |at| ==> Pick(values + [v], at[d := |values|]) == Pick(values, at)[d := v]
  {
  }

  // One more value: appended while there is room, after that swapped in at the
  // slot the source names, if it names one.
  lemma KeptExtends<T>(k: nat, values: seq<T>, v: T, tape: seq<nat>, d: nat)
    requires |tape| == Drawn(k, |values|)
    ensures |values| < k ==> Kept(k, values + [v], tape) == Kept(k, values, tape) + [v]
    ensures |values| >= k ==>
              Kept(k, values + [v], tape + [d]) ==
              if d < k then Kept(k, values, tape)[d := v] else Kept(k, values, tape)
  {
    if |values| >= k {
      hide Kept, Sample, Pick;
      var at := Sample(k, tape);
      SampleStep(k, tape, d);
      KeptAsPick(k, values, tape, at);
      KeptAsPick(k, values + [v], tape + [d], Sample(k, tape + [d]));
      PickExtends(values, v, at, d);
    }
  }

  // ---------------------------------------------------------------------
  // Counting tapes
  // ---------------------------------------------------------------------

  function Below(n: nat): (s: set<nat>)
    ensures forall x: nat :: x in s <==> x < n
    ensures |s| == n
  {
    if n == 0 then {} else Below(n - 1) + {n - 1}
  }

  // All tapes of m draws for limit k.
  ghost function Tapes(k: nat, m: nat): set<seq<nat>> {
    if m == 0 then {[]} else set t, d | t in Tapes(k, m - 1) && d in Below(k + m) :: t + [d]
  }

  lemma TapesExtend(k: nat, m: nat, t: seq<nat>, d: nat)
    requires m > 0
    ensures t in Tapes(k, m - 1) && d < k + m ==> t + [d] in Tapes(k, m)
  {
    hide Below;
  }

  lemma TapesStep(k: nat, m: nat, t: seq<nat>)
    requires m > 0
    ensures t in Tapes(k, m) <==> t != [] && t[..|t| - 1] in Tapes(k, m - 1) && t[|t| - 1] < k + m
  {
    hide Below;
    if t in Tapes(k, m) {
      var u, d :| u in Tapes(k, m - 1) && d in Below(k + m) && t == u + [d];
      assert t[..|t| - 1] == u;
    }
    hide Tapes;
    if t != [] {
      TapesExtend(k, m, t[..|t| - 1], t[|t| - 1]);
      assert t == t[..|t| - 1] + [t[|t| - 1]];
    }
  }

  lemma {:induction false} TapesExact(k: nat, m: nat, t: seq<nat>)
    ensures t in Tapes(k, m) <==> |t| == m && ValidTape(k, t)
  {
    if m > 0 {
      TapesStep(k, m, t);
      if t != [] {
        TapesExact(k, m - 1, t[..|t| - 1]);
      }
    }
  }

  ghost function Front(t: seq<nat>): seq<nat> { if t == [] then [] else t[..|t| - 1] }

  // The members of `longer` that continue `t` by one draw.
  ghost function Fiber(longer: set<seq<nat>>, t: seq<nat>): set<seq<nat>> {
    set u | u in longer && Front(u) == t
  }

  lemma MulSucc(a: nat, c: nat)
    ensures (a + 1) * c == a * c + c
  {
  }

  lemma FiberLess(longer: set<seq<nat>>, t: seq<nat>, u: seq<nat>)
    requires t != u
    ensures Fiber(longer - Fiber(longer, t), u) == Fiber(longer, u)
  {
    hide Front;
    var rest := longer - Fiber(longer, t);
    forall v ensures v in Fiber(rest, u) <==> v in Fiber(longer, u) { }
  }

  // If every member of `tapes` has c continuations, `longer` is c times as big.
  lemma {:induction false} FiberSize(longer: set<seq<nat>>, tapes: set<seq<nat>>, c: nat)
    requires forall u :: u in longer ==> Front(u) in tapes
    requires forall t :: t in tapes ==> |Fiber(longer, t)| == c
    ensures |longer| == |tapes| * c
    decreases tapes
  {
    if tapes == {} {
      assert longer == {};
    } else {
      var t :| t in tapes;
      var own := Fiber(longer, t);
      var rest := longer - own;
      forall u | u in tapes - {t} ensures |Fiber(rest, u)| == c {
        FiberLess(longer, t, u);
      }
      forall u | u in rest ensures Front(u) in tapes - {t} { assert u !in own; }
      FiberSize(rest, tapes - {t}, c);
      hide Fiber, Front;
      MulSucc(|tapes - {t}|, c);
      SizeSplits(longer, own);
    }
  }

  lemma SizeSplits(all: set<seq<nat>>, part: set<seq<nat>>)
    requires part <= all
    ensures |all| == |all - part| + |part|
  {
    assert all == (all - part) + part;
  }

  ghost predicate Appends(t: seq<nat>, ds: set<nat>, longer: set<seq<nat>>) {
    && (forall d :: d in ds ==> t + [d] in longer)
    && (forall u :: u in longer ==> |u| == |t| + 1 && u[|t|] in ds && u == t + [u[|t|]])
  }

  lemma {:induction false} AppendSize(t: seq<nat>, ds: set<nat>, longer: set<seq<nat>>)
    requires Appends(t, ds, longer)
    ensures |longer| == |ds|
    decreases ds
  {
    if ds == {} {
      assert longer == {};
    } else {
      var x :| x in ds;
      var fewer := longer - {t + [x]};
      forall d | d in ds - {x} ensures t + [d] in fewer {
        assert (t + [d])[|t|] == d && (t + [x])[|t|] == x;
      }
      AppendSize(t, ds - {x}, fewer);
      assert longer == fewer + {t + [x]};
    }
  }

  lemma FrontOfAppend(t: seq<nat>, d: nat)
    ensures Front(t + [d]) == t && (t + [d])[|t|] == d
  {
  }

  // Counting by the last draw: t continues inside `longer` by exactly the draws ds.
  lemma ContinuedBy(longer: set<seq<nat>>, t: seq<nat>, ds: set<nat>)
    requires forall d :: d in ds ==> t + [d] in longer
    requires forall u :: u in longer && Front(u) == t ==> u != [] && u[|u| - 1] in ds
    ensures |Fiber(longer, t)| == |ds|
  {
    forall d | d in ds ensures t + [d] in Fiber(longer, t) { FrontOfAppend(t, d); }
    var own := Fiber(longer, t);
    forall u | u in own ensures |u| == |t| + 1 && u[|t|] in ds && u == t + [u[|t|]] { }
    hide Fiber, Front;
    AppendSize(t, ds, own);
  }

  lemma TapeCountStep(k: nat, m: nat)
    requires m > 0
    ensures |Tapes(k, m)| == |Tapes(k, m - 1)| * (k + m)
  {
    hide Tapes, Below;
    var shorter, longer := Tapes(k, m - 1), Tapes(k, m);
    forall u | u in longer ensures u != [] && Front(u) in shorter && u[|u| - 1] in Below(k + m) {
      LastDraw(k, m, u);
    }
    hide Front;
    forall t | t in shorter ensures |Fiber(longer, t)| == k + m {
      forall d | d in Below(k + m) ensures t + [d] in longer { NextDraw(k, m, t, d); }
      ContinuedBy(longer, t, Below(k + m));
    }
    FiberSize(longer, shorter, k + m);
  }

  ghost function Factorial(n: nat): nat { if n == 0 then 1 else n * Factorial(n - 1) }

  // (k + 1) * ... * (k + m)
  ghost function Rising(k: nat, m: nat): nat { if m == 0 then 1 else Rising(k, m - 1) * (k + m) }

  lemma NoTapes(k: nat)
    ensures Tapes(k, 0) == {[]}
    ensures forall i: nat :: i < k ==> i in SampleSet(k, [])
  {
    forall i: nat | i < k ensures i in SampleSet(k, []) { assert Iota(k)[i] == i; }
  }

  lemma {:induction false} TapeCount(k: nat, m: nat)
    ensures |Tapes(k, m)| == Rising(k, m)
  {
    hide Tapes;
    if m == 0 {
      NoTapes(k);
    } else {
      TapeCount(k, m - 1);
      TapeCountStep(k, m);
    }
  }

  // Rising(k, m) is n! / k!, the number of tapes for n == k + m offers.
  lemma {:induction false} RisingIsQuotient(k: nat, m: nat)
    ensures Rising(k, m) * Factorial(k) == Factorial(k + m)
  {
    if m > 0 {
      RisingIsQuotient(k, m - 1);
      Regroup(Rising(k, m - 1), k + m, Factorial(k));
    }
  }

  lemma Regroup(a: nat, n: nat, f: nat)
    ensures (a * n) * f == n * (a * f)
  {
  }

  // ---------------------------------------------------------------------
  // Uniformity over subsets
  // ---------------------------------------------------------------------

  ghost function Elements(s: seq<nat>): set<nat> { set x | x in s }

  ghost function SampleSet(k: nat, tape: seq<nat>): set<nat> { Elements(Sample(k, tape)) }

  // The tapes of m draws that leave exactly the positions `chosen`.
  ghost function Keeping(k: nat, m: nat, chosen: set<nat>): set<seq<nat>> {
    set t | t in Tapes(k, m) && SampleSet(k, t) == chosen
  }

  lemma ReplaceOne(s: seq<nat>, d: nat, v: nat)
    requires d < |s| && v !in s
    requires forall i, j :: 0 <= i < j < |s| ==> s[i] != s[j]
    ensures Elements(s[d := v]) == Elements(s) - {s[d]} + {v}
  {
    var r := s[d := v];
    forall x | x in Elements(s) - {s[d]} ensures x in r {
      var i :| 0 <= i < |s| && s[i] == x;
      assert r[i] == x;
    }
    assert r[d] == v;
    forall x | x in r ensures x in Elements(s) - {s[d]} + {v} {
      var i :| 0 <= i < |r| && r[i] == x;
      if i != d { assert s[i] == x && s[i] != s[d]; }
    }
  }

  // What one more draw does to the set of survivors.
  lemma SampleSetStep(k: nat, t: seq<nat>, d: nat)
    ensures k + |t| !in SampleSet(k, t)
    ensures d < k ==> Sample(k, t)[d] in SampleSet(k, t)
    ensures d >= k ==> SampleSet(k, t + [d]) == SampleSet(k, t)
    ensures d < k ==> SampleSet(k, t + [d]) == SampleSet(k, t) - {Sample(k, t)[d]} + {k + |t|}
  {
    SampleStep(k, t, d);
    if d < k {
      SampleDistinct(k, t);
      ReplaceOne(Sample(k, t), d, k + |t|);
    }
  }

  lemma {:induction false} DistinctSize(s: seq<nat>)
    requires forall i, j :: 0 <= i < j < |s| ==> s[i] != s[j]
    ensures |Elements(s)| == |s|
  {
    if s == [] {
      assert Elements(s) == {};
    } else {
      var n := |s| - 1;
      var front, x := s[..n], s[n];
      DistinctSize(front);
      assert s == front + [x];
      assert Elements(s) == Elements(front) + {x};
      assert x !in front;
    }
  }

  lemma SampleSetSize(k: nat, t: seq<nat>)
    ensures |SampleSet(k, t)| == k
  {
    SampleDistinct(k, t);
    DistinctSize(Sample(k, t));
  }

  // The newest position stayed out: every draw at or above the limit.
  lemma NewestLeftOut(k: nat, m: nat, chosen: set<nat>)
    requires m > 0 && k + m - 1 !in chosen
    ensures |Keeping(k, m, chosen)| == |Keeping(k, m - 1, chosen)| * m
  {
    hide Tapes, SampleSet, Keeping;
    var shorter, longer := Keeping(k, m - 1, chosen), Keeping(k, m, chosen);
    forall u | u in longer ensures Front(u) in shorter {
      LeftOutBackward(k, m, chosen, u);
    }
    forall t | t in shorter ensures |Fiber(longer, t)| == m {
      HighContinuations(k, m, chosen, t);
    }
    hide Front, Fiber;
    FiberSize(longer, shorter, m);
  }

  lemma LeftOutBackward(k: nat, m: nat, chosen: set<nat>, u: seq<nat>)
    requires m > 0 && k + m - 1 !in chosen && u in Keeping(k, m, chosen)
    ensures u != [] && Front(u) in Keeping(k, m - 1, chosen) && k <= u[|u| - 1] < k + m
  {
    hide Tapes, SampleSet, Sample;
    LastDraw(k, m, u);
    SampleSetStep(k, Front(u), u[|u| - 1]);
  }

  lemma HighContinuations(k: nat, m: nat, chosen: set<nat>, t: seq<nat>)
    requires m > 0 && k + m - 1 !in chosen && t in Keeping(k, m - 1, chosen)
    ensures |Fiber(Keeping(k, m, chosen), t)| == m
  {
    hide Tapes, SampleSet, Sample;
    var longer, high := Keeping(k, m, chosen), Below(k + m) - Below(k);
    assert |high| == m by { assert Below(k + m) == high + Below(k); }
    forall d | d in high ensures t + [d] in longer {
      NextDraw(k, m, t, d);
      SampleSetStep(k, t, d);
    }
    hide Keeping, Below;
    forall u | u in longer && Front(u) == t ensures u != [] && u[|u| - 1] in high {
      LeftOutBackward(k, m, chosen, u);
    }
    hide Front;
    ContinuedBy(longer, t, high);
  }

  lemma LastDraw(k: nat, m: nat, u: seq<nat>)
    requires m > 0 && u in Tapes(k, m)
    ensures |u| == m && u == Front(u) + [u[m - 1]] && u[m - 1] < k + m
    ensures Front(u) in Tapes(k, m - 1) && |Front(u)| == m - 1
  {
    TapesStep(k, m, u);
    TapesExact(k, m, u);
  }

  lemma NextDraw(k: nat, m: nat, t: seq<nat>, d: nat)
    requires m > 0 && t in Tapes(k, m - 1) && d < k + m
    ensures t + [d] in Tapes(k, m) && |t| == m - 1
  {
    FrontOfAppend(t, d);
    TapesStep(k, m, t + [d]);
    TapesExact(k, m - 1, t);
  }

  // The tapes leaving `base` and one further position out of `xs`.
  ghost function Growing(k: nat, m: nat, base: set<nat>, xs: set<nat>): set<seq<nat>> {
    set t | t in Tapes(k, m) && base < SampleSet(k, t) && SampleSet(k, t) - base <= xs
            && |SampleSet(k, t) - base| == 1
  }

  lemma OneMore(a: set<nat>, base: set<nat>, x: nat)
    requires base <= a && |a - base| == 1 && x in a - base
    ensures a == base + {x}
  {
    assert a - base == {x} by {
      assert a - base == {x} + (a - base - {x});
    }
  }

  lemma {:induction false} GrowingSize(k: nat, m: nat, base: set<nat>, xs: set<nat>, c: nat)
    requires base !! xs
    requires forall x :: x in xs ==> |Keeping(k, m, base + {x})| == c
    ensures |Growing(k, m, base, xs)| == |xs| * c
    decreases xs
  {
    hide Growing, Keeping;
    if xs == {} {
      NoneGrowing(k, m, base);
    } else {
      var x :| x in xs;
      var rest := xs - {x};
      GrowingSize(k, m, base, rest, c);
      GrowingSplit(k, m, base, xs, x);
      MulSucc(|rest|, c);
      assert |xs| == |rest| + 1;
    }
  }

  lemma NoneGrowing(k: nat, m: nat, base: set<nat>)
    ensures Growing(k, m, base, {}) == {}
  {
    hide Tapes, SampleSet;
  }

  lemma GrowingSplit(k: nat, m: nat, base: set<nat>, xs: set<nat>, x: nat)
    requires base !! xs && x in xs
    ensures |Growing(k, m, base, xs)| ==
            |Growing(k, m, base, xs - {x})| + |Keeping(k, m, base + {x})|
  {
    var all, rest, own := Growing(k, m, base, xs), Growing(k, m, base, xs - {x}), Keeping(k, m, base + {x});
    assert (base + {x}) - base == {x};
    forall t | t in all ensures t in rest || t in own {
      if x in SampleSet(k, t) { OneMore(SampleSet(k, t), base, x); }
    }
    assert all == rest + own;
    assert rest !! own;
  }

  // Where the element to be replaced sits: exactly one slot.
  lemma OneSlot(k: nat, t: seq<nat>, x: nat) returns (d: nat)
    requires x in SampleSet(k, t)
    ensures d < k && Sample(k, t)[d] == x
    ensures forall e :: 0 <= e < k && Sample(k, t)[e] == x ==> e == d
  {
    SampleDistinct(k, t);
    d :| 0 <= d < k && Sample(k, t)[d] == x;
  }

  // The newest position was taken in: it replaced the one element outside `base`.
  lemma NewestTakenIn(k: nat, m: nat, base: set<nat>)
    requires m > 0 && k + m - 1 !in base && |base| + 1 == k
    ensures |Keeping(k, m, base + {k + m - 1})| ==
            |Growing(k, m - 1, base, Below(k + m - 1) - base)|
  {
    hide Tapes, SampleSet, Sample, Below;
    var newest := k + m - 1;
    var shorter, longer := Growing(k, m - 1, base, Below(newest) - base), Keeping(k, m, base + {newest});
    forall u | u in longer ensures Front(u) in shorter {
      TakenInBackward(k, m, base, u);
    }
    forall t | t in shorter ensures |Fiber(longer, t)| == 1 {
      OneContinuation(k, m, base, t);
    }
    FiberSize(longer, shorter, 1);
  }

  lemma TakenInBackward(k: nat, m: nat, base: set<nat>, u: seq<nat>)
    requires m > 0 && k + m - 1 !in base && |base| + 1 == k
    requires u in Keeping(k, m, base + {k + m - 1})
    ensures u != [] && u[|u| - 1] < k && Sample(k, Front(u))[u[|u| - 1]] !in base
    ensures Front(u) in Growing(k, m - 1, base, Below(k + m - 1) - base)
  {
    hide Tapes, SampleSet, Sample;
    LastDraw(k, m, u);
    var t, d := Front(u), u[m - 1];
    SampleSetStep(k, t, d);
    var was, out := SampleSet(k, t), Sample(k, t)[d];
    assert was == base + {out};
    SampleSetSize(k, t);
    assert was == base + {out};
    assert out in base ==> was == base;
    assert was - base == {out};
  }

  lemma OneContinuation(k: nat, m: nat, base: set<nat>, t: seq<nat>)
    requires m > 0 && k + m - 1 !in base && |base| + 1 == k
    requires t in Growing(k, m - 1, base, Below(k + m - 1) - base)
    ensures |Fiber(Keeping(k, m, base + {k + m - 1}), t)| == 1
  {
    hide Tapes, SampleSet, Sample, Below;
    var newest := k + m - 1;
    var longer, was := Keeping(k, m, base + {newest}), SampleSet(k, t);
    var x :| x in was - base;
    OneMore(was, base, x);
    var d := OneSlot(k, t, x);
    NextDraw(k, m, t, d);
    SampleSetStep(k, t, d);
    assert t + [d] in longer;
    forall u | u in longer && Front(u) == t ensures u != [] && u[|u| - 1] in {d} {
      TakenInBackward(k, m, base, u);
      SampleSetStep(k, t, u[|u| - 1]);
    }
    ContinuedBy(longer, t, {d});
  }

  // Whichever k of the k + m offered positions are named, exactly m! of the
  // tapes leave precisely those in the sample.
  lemma {:induction false} UniformSubsets(k: nat, m: nat, chosen: set<nat>)
    requires |chosen| == k && chosen <= Below(k + m)
    ensures |Keeping(k, m, chosen)| == Factorial(m)
    decreases m
  {
    hide Tapes, SampleSet, Sample, Keeping, Growing, Below;
    if m == 0 {
      NothingDrawn(k, chosen);
    } else if k + m - 1 !in chosen {
      UniformSubsets(k, m - 1, chosen);
      NewestLeftOut(k, m, chosen);
    } else {
      var base := chosen - {k + m - 1};
      forall x | x in Below(k + m - 1) - base ensures |Keeping(k, m - 1, base + {x})| == Factorial(m - 1) {
        UniformSubsets(k, m - 1, base + {x});
      }
      TakenInCount(k, m, base, Factorial(m - 1));
      assert base + {k + m - 1} == chosen;
    }
  }

  lemma TakenInCount(k: nat, m: nat, base: set<nat>, c: nat)
    requires m > 0 && |base| + 1 == k && base <= Below(k + m - 1)
    requires forall x :: x in Below(k + m - 1) - base ==> |Keeping(k, m - 1, base + {x})| == c
    ensures |Keeping(k, m, base + {k + m - 1})| == m * c
  {
    hide Tapes, SampleSet, Sample, Keeping, Growing, Below;
    var others := Below(k + m - 1) - base;
    assert |others| == m by { assert Below(k + m - 1) == others + base; }
    GrowingSize(k, m - 1, base, others, c);
    NewestTakenIn(k, m, base);
  }

  lemma StartSet(k: nat)
    ensures SampleSet(k, []) == Below(k)
  {
    forall x | x in Below(k) ensures x in SampleSet(k, []) { assert Iota(k)[x] == x; }
  }

  lemma NothingDrawn(k: nat, chosen: set<nat>)
    requires |chosen| == k && chosen <= Below(k)
    ensures |Keeping(k, 0, chosen)| == 1
  {
    assert Below(k) == chosen + (Below(k) - chosen);
    assert chosen == Below(k);
    StartSet(k);
    NoTapes(k);
    hide Tapes, SampleSet, Below;
    assert Keeping(k, 0, chosen) == {[]};
  }

  // ---------------------------------------------------------------------
  // Every position survives in exactly k/n of the tapes
  // ---------------------------------------------------------------------

  ghost function Surviving(k: nat, m: nat, i: nat): set<seq<nat>> {
    set t | t in Tapes(k, m) && i in SampleSet(k, t)
  }

  lemma NewestSurvives(k: nat, m: nat)
    requires m > 0
    ensures |Surviving(k, m, k + m - 1)| == |Tapes(k, m - 1)| * k
  {
    hide Tapes, SampleSet, Sample, Below;
    var shorter, longer := Tapes(k, m - 1), Surviving(k, m, k + m - 1);
    forall u | u in longer ensures u != [] && Front(u) in shorter && u[|u| - 1] in Below(k) {
      LastDraw(k, m, u);
      SampleSetStep(k, Front(u), u[|u| - 1]);
    }
    forall t | t in shorter ensures |Fiber(longer, t)| == k {
      forall d | d in Below(k) ensures t + [d] in longer {
        NextDraw(k, m, t, d);
        SampleSetStep(k, t, d);
      }
      ContinuedBy(longer, t, Below(k));
    }
    FiberSize(longer, shorter, k);
  }

  // An older survivor is lost only to the one draw that names its slot.
  lemma OlderSurvives(k: nat, m: nat, i: nat)
    requires m > 0 && i < k + m - 1
    ensures |Surviving(k, m, i)| == |Surviving(k, m - 1, i)| * (k + m - 1)
  {
    hide Tapes, SampleSet, Sample, Below;
    var shorter, longer := Surviving(k, m - 1, i), Surviving(k, m, i);
    forall u | u in longer ensures Front(u) in shorter {
      LastDraw(k, m, u);
      SampleSetStep(k, Front(u), u[|u| - 1]);
    }
    forall t | t in shorter ensures |Fiber(longer, t)| == k + m - 1 {
      AllButOneSlot(k, m, i, t);
    }
    FiberSize(longer, shorter, k + m - 1);
  }

  lemma AllButOneSlot(k: nat, m: nat, i: nat, t: seq<nat>)
    requires m > 0 && i < k + m - 1 && t in Surviving(k, m - 1, i)
    ensures |Fiber(Surviving(k, m, i), t)| == k + m - 1
  {
    hide Tapes, SampleSet, Sample, Below;
    var longer := Surviving(k, m, i);
    var slot := OneSlot(k, t, i);
    var kept := Below(k + m) - {slot};
    forall d | d in kept ensures t + [d] in longer {
      NextDraw(k, m, t, d);
      SampleSetStep(k, t, d);
    }
    forall u | u in longer && Front(u) == t ensures u != [] && u[|u| - 1] in kept {
      LastDraw(k, m, u);
      SampleSetStep(k, t, u[|u| - 1]);
    }
    ContinuedBy(longer, t, kept);
  }

  // survivors * n == k * tapes, for every position i among n == k + m offers.
  lemma {:induction false} EqualSurvival(k: nat, m: nat, i: nat)
    requires i < k + m
    ensures |Surviving(k, m, i)| * (k + m) == k * |Tapes(k, m)|
  {
    hide Tapes, SampleSet;
    if m == 0 {
      NoTapes(k);
      assert Surviving(k, 0, i) == {[]};
    } else {
      TapeCountStep(k, m);
      if i == k + m - 1 {
        NewestSurvives(k, m);
      } else {
        EqualSurvival(k, m - 1, i);
        OlderSurvives(k, m, i);
      }
      ShareOf(|Surviving(k, m, i)|, |Tapes(k, m - 1)|, k, k + m);
    }
  }

  lemma ShareOf(survivors: nat, tapes: nat, k: nat, n: nat)
    requires survivors == k * tapes
    ensures survivors * n == k * (tapes * n)
  {
  }
}
