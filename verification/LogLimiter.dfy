/**
 The limiter that keeps a failing collector from filling the log: at most one
 entry per key and interval.
 */
module LogLimiters {

  class LogLimiter {
    const every: int
    var last: map<string, int>

    constructor (every: int)
      ensures this.every == every && last == map[]
    {
      this.every := every;
      last := map[];
    }

    // One passage through the critical section, at clock reading `now`.
    method Allow(key: string, now: int) returns (ok: bool)
      modifies this
      ensures ok == Passes(every, old(last), Attempt(key, now))
      ensures last == Next(every, old(last), Attempt(key, now))
    {
      if key !in last || now - last[key] >= every {
        last := last[key := now];
        return true;
      }
      return false;
    }
  }

  datatype Attempt = Attempt(key: string, now: int)

  predicate Passes(every: int, last: map<string, int>, a: Attempt) {
    a.key !in last || a.now - last[a.key] >= every
  }

  function Next(every: int, last: map<string, int>, a: Attempt): map<string, int> {
    if Passes(every, last, a) then last[a.key := a.now] else last
  }

  // The limiter's memory after a run of attempts by any number of keys.
  function Memory(every: int, run: seq<Attempt>): map<string, int> {
    if run == [] then map[] else Next(every, Memory(every, run[..|run| - 1]), run[|run| - 1])
  }

  predicate Allowed(every: int, run: seq<Attempt>, i: nat)
    requires i < |run|
  {
    Passes(every, Memory(every, run[..i]), run[i])
  }

  // A run of calls on the object is a run of the model.
  method AllowAll(l: LogLimiter, run: seq<Attempt>) returns (verdicts: seq<bool>)
    requires l.last == map[]
    modifies l
    ensures |verdicts| == |run|
    ensures forall i :: 0 <= i < |run| ==> verdicts[i] == Allowed(l.every, run, i)
  {
    verdicts := [];
    for n := 0 to |run|
      invariant |verdicts| == n
      invariant l.last == Memory(l.every, run[..n])
      invariant forall i :: 0 <= i < n ==> verdicts[i] == Allowed(l.every, run, i)
    {
      assert run[..n + 1][..n] == run[..n];
      var ok := l.Allow(run[n].key, run[n].now);
      verdicts := verdicts + [ok];
    }
  }

  // The last attempt of `key` among the first n that was allowed, or -1.
  function LastAllowed(every: int, run: seq<Attempt>, key: string, n: nat): (p: int)
    requires n <= |run|
    ensures -1 <= p < n
    ensures p >= 0 ==> run[p].key == key && Allowed(every, run, p)
    ensures forall i :: p < i < n && run[i].key == key ==> !Allowed(every, run, i)
  {
    if n == 0 then -1
    else if run[n - 1].key == key && Allowed(every, run, n - 1) then n - 1
    else LastAllowed(every, run, key, n - 1)
  }

  lemma {:induction false} Remembers(every: int, run: seq<Attempt>, key: string, n: nat)
    requires n <= |run|
    ensures var p := LastAllowed(every, run, key, n);
            var m := Memory(every, run[..n]);
            if p < 0 then key !in m else key in m && m[key] == run[p].now
  {
    if n > 0 {
      Remembers(every, run, key, n - 1);
      assert run[..n][..n - 1] == run[..n - 1];
    }
  }

  // Entries that pass under one key are at least `every` apart, in the order they
  // pass: goroutines read the clock before they queue for the lock, so attempts need
  // not come in clock order, but those that pass do.
  lemma {:induction false} Spaced(every: int, run: seq<Attempt>, i: nat, j: nat)
    requires every >= 0 && i < j < |run| && run[i].key == run[j].key
    requires Allowed(every, run, i) && Allowed(every, run, j)
    ensures run[j].now - run[i].now >= every
    decreases j
  {
    Remembers(every, run, run[j].key, j);
    var p := LastAllowed(every, run, run[j].key, j);
    if i < p {
      Spaced(every, run, i, p);
    }
  }

  // An entry is held back exactly because of one that passed less than `every` before.
  lemma HeldBack(every: int, run: seq<Attempt>, j: nat)
    requires every >= 0 && j < |run|
    ensures !Allowed(every, run, j) <==>
            exists i :: 0 <= i < j && run[i].key == run[j].key && Allowed(every, run, i)
                        && run[j].now - run[i].now < every
  {
    Remembers(every, run, run[j].key, j);
    var p := LastAllowed(every, run, run[j].key, j);
    if i :| 0 <= i < j && run[i].key == run[j].key && Allowed(every, run, i) && run[j].now - run[i].now < every {
      if i < p {
        Spaced(every, run, i, p);
      }
    }
  }

  predicate PassedAt(every: int, run: seq<Attempt>, key: string, from: int, to: int, i: nat)
    requires i < |run|
  {
    run[i].key == key && Allowed(every, run, i) && from <= run[i].now <= to
  }

  // How many of the first n attempts passed under `key` between two clock readings.
  function Passed(every: int, run: seq<Attempt>, key: string, from: int, to: int, n: nat): nat
    requires n <= |run|
  {
    if n == 0 then 0
    else Passed(every, run, key, from, to, n - 1) + if PassedAt(every, run, key, from, to, n - 1) then 1 else 0
  }

  lemma {:induction false} PassedSpan(every: int, run: seq<Attempt>, key: string, from: int, to: int, n: nat)
    returns (p: nat)
    requires every > 0 && n <= |run|
    ensures var c := Passed(every, run, key, from, to, n);
            c > 0 ==> p < n && PassedAt(every, run, key, from, to, p) && (c - 1) * every <= run[p].now - from
  {
    p := 0;
    if n > 0 {
      p := PassedSpan(every, run, key, from, to, n - 1);
      var before := Passed(every, run, key, from, to, n - 1);
      if PassedAt(every, run, key, from, to, n - 1) {
        if before > 0 {
          Spaced(every, run, p, n - 1);
          OneMore(before - 1, every);
        }
        p := n - 1;
      }
    }
  }

  lemma OneMore(n: int, every: int)
    ensures (n + 1) * every == n * every + every
  {
  }

  // In any span of clock time at most one more entry per key passes than the span
  // is long, counted in intervals.
  lemma RateBound(every: int, run: seq<Attempt>, key: string, from: int, to: int)
    requires every > 0 && from <= to
    ensures Passed(every, run, key, from, to, |run|) <= (to - from) / every + 1
  {
    var p := PassedSpan(every, run, key, from, to, |run|);
    var c := Passed(every, run, key, from, to, |run|);
    if c > 0 {
      DivideBound(c - 1, every, to - from);
    }
  }

  lemma DivideBound(n: int, every: int, span: int)
    requires every > 0 && n * every <= span
    ensures n <= span / every
  {
    if n > span / every {
      MulMonotonic(span / every + 1, n, every);
    }
  }

  lemma MulMonotonic(a: int, b: int, c: int)
    requires a <= b && c >= 0
    ensures a * c <= b * c
  {
  }

  function OnlyKey(run: seq<Attempt>, key: string): seq<Attempt> {
    if run == [] then []
    else OnlyKey(run[..|run| - 1], key) + if run[|run| - 1].key == key then [run[|run| - 1]] else []
  }

  // Other keys have no influence: an attempt's verdict is what it would have been
  // had its key been the only one.
  lemma {:induction false} MemoryOfKey(every: int, run: seq<Attempt>, key: string)
    ensures var all, own := Memory(every, run), Memory(every, OnlyKey(run, key));
            (key in all <==> key in own) && (key in all ==> all[key] == own[key])
  {
    if run != [] {
      var last, own := run[|run| - 1], OnlyKey(run[..|run| - 1], key);
      MemoryOfKey(every, run[..|run| - 1], key);
      if last.key == key {
        assert (own + [last])[..|own|] == own;
      } else {
        assert own + [] == own;
      }
    }
  }

  lemma KeysIndependent(every: int, run: seq<Attempt>, i: nat)
    requires i < |run|
    ensures var own := OnlyKey(run[..i], run[i].key);
            Allowed(every, run, i) <==> Allowed(every, own + [run[i]], |own|)
  {
    var own := OnlyKey(run[..i], run[i].key);
    MemoryOfKey(every, run[..i], run[i].key);
    assert (own + [run[i]])[..|own|] == own;
  }
}
