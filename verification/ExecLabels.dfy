/**
 The labels of a command's metrics: the configured ones, sorted, followed by
 those the command printed.
 */
module ExecLabels {
  import opened Text
  import opened Wrappers

  // ---------------------------------------------------------------------
  // Sequences
  // ---------------------------------------------------------------------

  predicate Distinct(s: seq<string>) { forall i, j :: 0 <= i < j < |s| ==> s[i] != s[j] }

  lemma DistinctSnoc(s: seq<string>, x: string)
    ensures Distinct(s + [x]) <==> Distinct(s) && x !in s
  {
    var t := s + [x];
    assert t[..|s|] == s && t[|s|] == x;
    assert forall i :: 0 <= i < |s| ==> t[i] == s[i];
    if Distinct(t) {
      forall i | 0 <= i < |s| ensures s[i] != x { assert t[i] != t[|s|]; }
    }
  }

  lemma {:induction false} DistinctCounts(s: seq<string>)
    ensures Distinct(s) <==> forall x :: multiset(s)[x] <= 1
  {
    if s != [] {
      var front, last := s[..|s| - 1], s[|s| - 1];
      assert s == front + [last];
      hide Distinct;
      DistinctSnoc(front, last);
      DistinctCounts(front);
      if forall x :: multiset(s)[x] <= 1 {
        assert multiset(s)[last] <= 1;
        assert forall x :: multiset(front)[x] <= multiset(s)[x];
      }
    }
  }

  // What each element yields, in order.
  function Gather<T, U>(xs: seq<T>, f: T -> seq<U>): seq<U> {
    if xs == [] then [] else Gather(xs[..|xs| - 1], f) + f(xs[|xs| - 1])
  }

  lemma GatherSnoc<T, U>(xs: seq<T>, x: T, f: T -> seq<U>)
    ensures Gather(xs + [x], f) == Gather(xs, f) + f(x)
  {
    assert (xs + [x])[..|xs|] == xs;
  }

  lemma {:induction false} GatherWithout<T, U>(a: seq<T>, x: T, b: seq<T>, f: T -> seq<U>)
    ensures multiset(Gather(a + [x] + b, f)) == multiset(Gather(a + b, f)) + multiset(f(x))
  {
    hide Gather;
    if b == [] {
      assert a + [x] + b == a + [x] && a + b == a;
      GatherSnoc(a, x, f);
    } else {
      var front, last := b[..|b| - 1], b[|b| - 1];
      assert b == front + [last];
      GatherWithout(a, x, front, f);
      Associative(a + [x], front, [last]);
      Associative(a, front, [last]);
      GatherSnoc(a + [x] + front, last, f);
      GatherSnoc(a + front, last, f);
    }
  }

  lemma WithoutMiddle<T>(a: seq<T>, x: T, b: seq<T>)
    ensures multiset(a + [x] + b) - multiset{x} == multiset(a + b)
  {
    assert multiset(a + [x] + b) == multiset(a) + multiset{x} + multiset(b);
    assert multiset(a + b) == multiset(a) + multiset(b);
  }

  lemma {:induction false} GatherPermutes<T, U>(xs: seq<T>, ys: seq<T>, f: T -> seq<U>)
    requires multiset(xs) == multiset(ys)
    ensures multiset(Gather(xs, f)) == multiset(Gather(ys, f))
  {
    if xs == [] {
      assert |multiset(ys)| == 0;
    } else {
      var front, last := xs[..|xs| - 1], xs[|xs| - 1];
      assert xs == front + [last];
      assert last in multiset(ys);
      var i :| 0 <= i < |ys| && ys[i] == last;
      var a, b := ys[..i], ys[i + 1..];
      assert ys == a + [last] + b;
      WithoutMiddle(a, last, b);
      assert multiset(xs) == multiset(front) + multiset{last};
      assert multiset(front) == multiset(xs) - multiset{last};
      GatherPermutes(front, a + b, f);
      GatherWithout(a, last, b, f);
    }
  }

  // ---------------------------------------------------------------------
  // Byte order
  // ---------------------------------------------------------------------

  predicate AtMost(a: string, b: string) {
    a == "" || (b != "" && (a[0] < b[0] || (a[0] == b[0] && AtMost(a[1..], b[1..]))))
  }

  lemma {:induction false} AtMostTotal(a: string, b: string)
    ensures AtMost(a, b) || AtMost(b, a)
    ensures AtMost(a, b) && AtMost(b, a) ==> a == b
  {
    if a != "" && b != "" && a[0] == b[0] {
      AtMostTotal(a[1..], b[1..]);
      assert a == [a[0]] + a[1..] && b == [b[0]] + b[1..];
    }
  }

  lemma {:induction false} AtMostTransitive(a: string, b: string, c: string)
    requires AtMost(a, b) && AtMost(b, c)
    ensures AtMost(a, c)
  {
    if a != "" && a[0] == b[0] == c[0] {
      AtMostTransitive(a[1..], b[1..], c[1..]);
    }
  }

  ghost predicate Sorted(s: seq<string>) { forall i, j :: 0 <= i < j < |s| ==> AtMost(s[i], s[j]) }

  function Insert(s: seq<string>, x: string): (r: seq<string>)
    requires Sorted(s)
    ensures multiset(r) == multiset(s) + multiset{x}
    ensures Sorted(r)
  {
    if s == [] then [x]
    else
      var front, last := s[..|s| - 1], s[|s| - 1];
      assert s == front + [last];
      if AtMost(last, x) then
        SortedSnoc(s, x);
        s + [x]
      else
        AtMostTotal(last, x);
        var inner := Insert(front, x);
        BelowAll(inner, front, x, last);
        SortedSnoc(inner, last);
        inner + [last]
  }

  lemma SortedSnoc(s: seq<string>, x: string)
    requires Sorted(s) && (s != [] ==> AtMost(s[|s| - 1], x))
    ensures Sorted(s + [x])
  {
    hide AtMost;
    forall i | 0 <= i < |s| ensures AtMost(s[i], x) {
      if i < |s| - 1 { AtMostTransitive(s[i], s[|s| - 1], x); }
    }
  }

  lemma BelowAll(inner: seq<string>, front: seq<string>, x: string, last: string)
    requires multiset(inner) == multiset(front) + multiset{x}
    requires Sorted(front + [last]) && AtMost(x, last)
    ensures inner != [] ==> AtMost(inner[|inner| - 1], last)
  {
    hide AtMost;
    if inner != [] {
      var y := inner[|inner| - 1];
      assert y in multiset(inner);
      if y != x {
        assert y in front;
        var i :| 0 <= i < |front| && front[i] == y;
        assert (front + [last])[i] == y && (front + [last])[|front|] == last;
      }
    }
  }

  // sort.Strings.
  function SortStrings(s: seq<string>): (r: seq<string>)
    ensures Sorted(r) && multiset(r) == multiset(s)
  {
    if s == [] then []
    else
      var front := s[..|s| - 1];
      assert s == front + [s[|s| - 1]];
      Insert(SortStrings(front), s[|s| - 1])
  }

  lemma WithoutLast(s: seq<string>)
    requires s != [] && Sorted(s)
    ensures multiset(s[..|s| - 1]) == multiset(s) - multiset{s[|s| - 1]}
    ensures Sorted(s[..|s| - 1])
  {
    hide AtMost;
    assert s == s[..|s| - 1] + [s[|s| - 1]];
  }

  lemma LastsAgree(a: seq<string>, b: seq<string>)
    requires Sorted(a) && Sorted(b) && multiset(a) == multiset(b) && a != [] && b != []
    ensures a[|a| - 1] == b[|b| - 1]
  {
    hide AtMost, Sorted;
    var x, y := a[|a| - 1], b[|b| - 1];
    assert x in multiset(b) && y in multiset(a);
    LastIsGreatest(a, y);
    LastIsGreatest(b, x);
    AtMostTotal(x, y);
  }

  // A sorted sequence is determined by its elements.
  lemma {:induction false} SortedUnique(a: seq<string>, b: seq<string>)
    requires Sorted(a) && Sorted(b) && multiset(a) == multiset(b)
    ensures a == b
  {
    hide AtMost, Sorted;
    if a == [] {
      assert |multiset(b)| == 0;
    } else {
      assert a[|a| - 1] in multiset(b);
      assert b != [];
      var x, y := a[|a| - 1], b[|b| - 1];
      LastsAgree(a, b);
      WithoutLast(a);
      WithoutLast(b);
      SortedUnique(a[..|a| - 1], b[..|b| - 1]);
      assert a == a[..|a| - 1] + [x] && b == b[..|b| - 1] + [x];
    }
  }

  lemma LastIsGreatest(s: seq<string>, x: string)
    requires Sorted(s) && x in multiset(s)
    ensures s != [] && AtMost(x, s[|s| - 1])
  {
    hide AtMost;
    var i :| 0 <= i < |s| && s[i] == x;
    AtMostTotal(x, x);
  }

  // ---------------------------------------------------------------------
  // Configured labels
  // ---------------------------------------------------------------------

  type Item = (string, string)

  predicate Kept(item: Item) {
    TrimSpace(item.0) != "" && TrimSpace(item.0) != "workload" && TrimSpace(item.1) != ""
  }

  function PairOf(item: Item): seq<string> {
    if Kept(item) then [TrimSpace(item.0) + "=" + TrimSpace(item.1)] else []
  }

  // `order` is the order in which one iteration over the map visits it.
  method LabelPairs(labels: map<string, string>, order: seq<Item>) returns (pairs: seq<string>)
    requires multiset(order) == multiset(labels.Items)
    ensures pairs == SortStrings(Gather(order, PairOf))
  {
    hide TrimSpace;
    pairs := [];
    for i := 0 to |order|
      invariant pairs == Gather(order[..i], PairOf)
    {
      var name, value := TrimSpace(order[i].0), TrimSpace(order[i].1);
      assert order[..i + 1] == order[..i] + [order[i]];
      GatherSnoc(order[..i], order[i], PairOf);
      if name == "" || name == "workload" || value == "" {
        continue;
      }
      pairs := pairs + [name + "=" + value];
    }
    assert order[..|order|] == order;
    pairs := SortStrings(pairs);
  }

  // The same configuration gives the same pairs whatever order the map is visited in.
  lemma OrderDoesNotMatter(labels: map<string, string>, order: seq<Item>, other: seq<Item>)
    requires multiset(order) == multiset(labels.Items) == multiset(other)
    ensures SortStrings(Gather(order, PairOf)) == SortStrings(Gather(other, PairOf))
  {
    GatherPermutes(order, other, PairOf);
    SortedUnique(SortStrings(Gather(order, PairOf)), SortStrings(Gather(other, PairOf)));
  }

  // Every configured label whose name and value are usable is a pair, its name, an equals
  // sign and its value, both trimmed, and there is no other.
  lemma {:induction false} ConfiguredPairs(order: seq<Item>, pair: string)
    ensures pair in SortStrings(Gather(order, PairOf)) <==>
            exists i :: 0 <= i < |order|
              && TrimSpace(order[i].0) !in {"", "workload"} && TrimSpace(order[i].1) != ""
              && pair == TrimSpace(order[i].0) + "=" + TrimSpace(order[i].1)
  {
    hide TrimSpace, SortStrings, Gather;
    var pairs := Gather(order, PairOf);
    assert pair in SortStrings(pairs) <==> pair in multiset(SortStrings(pairs));
    assert pair in pairs <==> pair in multiset(pairs);
    Gathered(order, pair);
  }

  lemma {:induction false} Gathered(order: seq<Item>, pair: string)
    ensures pair in Gather(order, PairOf) <==> exists i :: 0 <= i < |order| && pair in PairOf(order[i])
  {
    hide PairOf;
    if order != [] {
      var front, last := order[..|order| - 1], order[|order| - 1];
      Gathered(front, pair);
      if i :| 0 <= i < |order| && pair in PairOf(order[i]) {
        assert i < |front| ==> front[i] == order[i];
      }
      if i :| 0 <= i < |front| && pair in PairOf(front[i]) { assert order[i] == front[i]; }
    }
  }

  // ---------------------------------------------------------------------
  // Names
  // ---------------------------------------------------------------------

  // strings.Cut at the first "=": the part before it, or everything.
  function NameOf(pair: string): string {
    var eq := IndexByte(pair, '=');
    if eq < 0 then pair else pair[..eq]
  }

  function NameList(pair: string): seq<string> { [NameOf(pair)] }

  function Names(pairs: seq<string>): seq<string> { Gather(pairs, NameList) }

  predicate AllNamed(pairs: seq<string>) { forall i :: 0 <= i < |pairs| ==> '=' in pairs[i] }

  lemma NameOfPair(name: string, value: string)
    ensures '=' in name + "=" + value
    ensures NameOf(name + "=" + value) == NameOf(name)
    ensures '=' !in name ==> NameOf(name) == name
  {
    var pair := name + ("=" + value);
    assert pair == name + "=" + value;
    assert pair[|name|] == '=';
    var eq := IndexByte(name, '=');
    if eq < 0 {
      IndexAnyAfter(name, "=" + value, {'='});
      assert pair[..|name|] == name;
    } else {
      assert pair == name[..eq] + (name[eq..] + "=" + value);
      IndexAnyAfter(name[..eq], name[eq..] + "=" + value, {'='});
      assert pair[..eq] == name[..eq];
    }
  }

  lemma NamesSnoc(pairs: seq<string>, pair: string)
    ensures Names(pairs + [pair]) == Names(pairs) + [NameOf(pair)]
  {
    GatherSnoc(pairs, pair, NameList);
  }

  // The names that the configured labels will go by.
  function ConfiguredName(item: Item): seq<string> {
    if Kept(item) then [NameOf(TrimSpace(item.0))] else []
  }

  function ConfiguredNames(order: seq<Item>): seq<string> { Gather(order, ConfiguredName) }

  lemma {:induction false} NamesOfConfigured(order: seq<Item>)
    ensures Names(Gather(order, PairOf)) == ConfiguredNames(order)
    ensures AllNamed(Gather(order, PairOf))
  {
    hide NameOf, TrimSpace;
    if order != [] {
      var front, last := order[..|order| - 1], order[|order| - 1];
      NamesOfConfigured(front);
      var pairs := Gather(front, PairOf);
      if Kept(last) {
        var name, value := TrimSpace(last.0), TrimSpace(last.1);
        NameOfPair(name, value);
        NamesSnoc(pairs, name + "=" + value);
      } else {
        assert pairs + [] == pairs;
      }
    }
  }

  lemma NamesPermute(pairs: seq<string>, other: seq<string>)
    requires multiset(pairs) == multiset(other)
    ensures Distinct(Names(pairs)) <==> Distinct(Names(other))
    ensures forall x :: x in Names(pairs) <==> x in Names(other)
    ensures AllNamed(pairs) ==> AllNamed(other)
  {
    hide NameOf;
    GatherPermutes(pairs, other, NameList);
    DistinctCounts(Names(pairs));
    DistinctCounts(Names(other));
    forall x ensures x in Names(pairs) <==> x in Names(other) {
      assert x in Names(pairs) <==> x in multiset(Names(pairs));
    }
    if AllNamed(pairs) {
      forall i | 0 <= i < |other| ensures '=' in other[i] {
        assert other[i] in multiset(pairs);
      }
    }
  }

  // ---------------------------------------------------------------------
  // Printed labels
  // ---------------------------------------------------------------------

  const Quotes: set<char> := {'"', '\''}

  function Trim(s: string, cut: set<char>): string { TrimRight(TrimLeft(s, cut), cut) }

  function PrintedPair(field: string): seq<string> {
    var eq := IndexByte(field, '=');
    if eq < 0 then []
    else
      var name := TrimSpace(field[..eq]);
      var value := Trim(TrimSpace(field[eq + 1..]), Quotes);
      if name == "" || name == "workload" || value == "" || !Free(value, {'|', '\r', '\n'}) then []
      else [name + "=" + value]
  }

  // A number, then labels. What counts as a number is a parameter.
  function OutputLine<N>(line: string, parse: string -> Option<N>): Option<(N, seq<string>)> {
    var fields := Fields(line);
    if fields == [] || parse(fields[0]).None? then None
    else Some((parse(fields[0]).value, Gather(fields[1..], PrintedPair)))
  }

  method ParseOutputLine<N>(line: string, parse: string -> Option<N>) returns (r: Option<(N, seq<string>)>)
    ensures r == OutputLine(line, parse)
  {
    hide Fields, TrimSpace, Trim, IndexAny;
    var fields := Fields(line);
    if |fields| == 0 {
      return None;
    }
    var number := parse(fields[0]);
    if number.None? {
      return None;
    }
    var labels: seq<string> := [];
    var rest := fields[1..];
    for i := 0 to |rest|
      invariant labels == Gather(rest[..i], PrintedPair)
    {
      var field := rest[i];
      assert rest[..i + 1] == rest[..i] + [field];
      GatherSnoc(rest[..i], field, PrintedPair);
      var eq := IndexByte(field, '=');
      if eq < 0 {
        continue;
      }
      var name := TrimSpace(field[..eq]);
      if name == "" || name == "workload" {
        continue;
      }
      var value := Trim(TrimSpace(field[eq + 1..]), Quotes);
      if value == "" || !Free(value, {'|', '\r', '\n'}) {
        continue;
      }
      labels := labels + [name + "=" + value];
    }
    assert rest[..|rest|] == rest;
    return Some((number.value, labels));
  }

  lemma PrintedName(field: string)
    ensures forall pair :: pair in PrintedPair(field) ==>
              '=' in pair && NameOf(pair) != "" && NameOf(pair) != "workload"
  {
    hide TrimSpace, Trim, NameOf;
    var eq := IndexByte(field, '=');
    if eq >= 0 {
      var name := TrimSpace(field[..eq]);
      assert Free(field[..eq], {'='});
      TrimSpaceFree(field[..eq], {'='});
      hide Free;
      NameOfPair(name, Trim(TrimSpace(field[eq + 1..]), Quotes));
      FreeOf(name, '=');
    }
  }

  // Quotes at either end of a printed value are dropped, however many and whether or
  // not they pair up; nothing else of the value changes.
  lemma PrintedUnquoted(name: string, lead: string, value: string, tail: string)
    requires name != "" && name != "workload" && Trimmed(name) && '=' !in name
    requires (forall c :: c in lead ==> c in Quotes) && (forall c :: c in tail ==> c in Quotes)
    requires value != "" && value[0] !in Quotes && value[|value| - 1] !in Quotes
    requires Trimmed(lead + value + tail)
    ensures PrintedPair(name + "=" + (lead + value + tail))
         == if Free(value, {'|', '\r', '\n'}) then [name + "=" + value] else []
  {
    hide TrimSpace, Trim, IndexAny;
    var raw := lead + value + tail;
    var field := name + ("=" + raw);
    assert field == name + "=" + raw;
    IndexAnyAfter(name, "=" + raw, {'='});
    assert field[..|name|] == name && field[|name| + 1..] == raw;
    TrimSpaceTrims(name);
    TrimSpaceTrims(raw);
    TrimIs(lead, value, tail);
  }

  lemma TrimIs(lead: string, value: string, tail: string)
    requires (forall c :: c in lead ==> c in Quotes) && (forall c :: c in tail ==> c in Quotes)
    requires value != "" && value[0] !in Quotes && value[|value| - 1] !in Quotes
    ensures Trim(lead + value + tail, Quotes) == value
  {
    assert lead + value + tail == lead + (value + tail);
    TrimLeftIs(lead, value + tail, Quotes);
    TrimRightIs(value, tail, Quotes);
  }

  // A printed word is no label without an equals sign, a usable name, or a value besides
  // its quotes.
  lemma PrintedDropped(field: string, name: string, value: string)
    requires '=' !in name
    requires field == name || (field == name + "=" + value
                               && (TrimSpace(name) in {"", "workload"} || forall c :: c in TrimSpace(value) ==> c in Quotes))
    ensures PrintedPair(field) == []
  {
    hide TrimSpace, IndexAny;
    if field == name {
      assert Free(name, {'='});
      IndexAnyNone(name, {'='});
    } else {
      var pair := name + ("=" + value);
      assert field == pair;
      IndexAnyAfter(name, "=" + value, {'='});
      assert field[..|name|] == name && field[|name| + 1..] == value;
      if forall c :: c in TrimSpace(value) ==> c in Quotes {
        assert TrimSpace(value) + "" == TrimSpace(value);
        TrimLeftIs(TrimSpace(value), "", Quotes);
      }
    }
  }

  // A line of words, white space between and around them: the first is the number, and
  // every other is read as a label, in order.
  lemma LineOfWords<N>(lead: string, number: string, words: seq<Word>, tail: string, parse: string -> Option<N>)
    requires number != "" && Free(number, Spaces) && Blank(lead) && Blank(tail)
    requires forall i :: 0 <= i < |words| ==> WordOk(words[i])
    ensures OutputLine(lead + (number + (Spaced(words) + tail)), parse)
         == match parse(number)
            case None => None
            case Some(v) => Some((v, Gather(WordsOf(words), PrintedPair)))
  {
    hide Fields, Gather, PrintedPair;
    FieldsAfter(lead, number + (Spaced(words) + tail));
    FieldsSpaced(number, words, tail);
    assert ([number] + WordsOf(words))[1..] == WordsOf(words);
  }

  lemma FreeOf(s: string, c: char)
    requires Free(s, {c})
    ensures c !in s
  {
  }

  predicate WellNamed(pairs: seq<string>) {
    AllNamed(pairs) && "" !in Names(pairs) && "workload" !in Names(pairs)
  }

  lemma {:induction false} PrintedNames(fields: seq<string>)
    ensures var printed := Gather(fields, PrintedPair);
            AllNamed(printed) && "" !in Names(printed) && "workload" !in Names(printed)
  {
    hide PrintedPair;
    if fields == [] {
      assert Names([]) == [];
    } else {
      PrintedNames(fields[..|fields| - 1]);
      OneMorePrinted(Gather(fields[..|fields| - 1], PrintedPair), fields[|fields| - 1]);
    }
  }

  lemma OneMorePrinted(before: seq<string>, field: string)
    requires WellNamed(before)
    ensures WellNamed(before + PrintedPair(field))
  {
    PrintedName(field);
    AtMostOnePair(field);
    hide WellNamed, PrintedPair;
    var own := PrintedPair(field);
    if own == [] {
      assert before + own == before;
    } else {
      assert own[0] in own;
      WellNamedSnoc(before, own[0]);
    }
  }

  lemma WellNamedSnoc(before: seq<string>, pair: string)
    requires WellNamed(before) && '=' in pair && NameOf(pair) != "" && NameOf(pair) != "workload"
    ensures WellNamed(before + [pair])
  {
    hide NameOf, Names;
    NamesSnoc(before, pair);
  }

  lemma AtMostOnePair(field: string)
    ensures PrintedPair(field) != [] ==> PrintedPair(field) == [PrintedPair(field)[0]]
  {
  }

  // ---------------------------------------------------------------------
  // Merging
  // ---------------------------------------------------------------------

  // The first pair of each name.
  function FirstOfEach(pairs: seq<string>): seq<string> {
    if pairs == [] then []
    else
      var kept, last := FirstOfEach(pairs[..|pairs| - 1]), pairs[|pairs| - 1];
      if '=' in last && NameOf(last) !in Names(kept) then kept + [last] else kept
  }

  function Merged(configured: seq<string>, printed: seq<string>): seq<string> {
    if printed == [] then configured else FirstOfEach(configured + printed)
  }

  method MergeLabels(configured: seq<string>, printed: seq<string>) returns (merged: seq<string>)
    ensures merged == Merged(configured, printed)
  {
    hide IndexAny;
    if |printed| == 0 {
      return configured;
    }
    merged := [];
    var seen: set<string> := {};
    var all := configured + printed;
    for i := 0 to |all|
      invariant merged == FirstOfEach(all[..i])
      invariant forall name :: name in seen <==> name in Names(merged)
    {
      var pair := all[i];
      assert all[..i + 1][..i] == all[..i];
      var eq := IndexByte(pair, '=');
      if eq < 0 {
        continue;
      }
      var name := pair[..eq];
      assert name == NameOf(pair);
      if name in seen {
        continue;
      }
      NamesSnoc(merged, pair);
      seen := seen + {name};
      merged := merged + [pair];
    }
    assert all[..|all|] == all;
  }

  lemma {:induction false} FirstOfEachNames(pairs: seq<string>)
    requires AllNamed(pairs)
    ensures Distinct(Names(FirstOfEach(pairs)))
    ensures forall x :: x in Names(FirstOfEach(pairs)) <==> x in Names(pairs)
  {
    hide NameOf, Distinct;
    if pairs == [] {
      DistinctEmpty();
    } else {
      var front, last := pairs[..|pairs| - 1], pairs[|pairs| - 1];
      assert pairs == front + [last] && '=' in last;
      FirstOfEachNames(front);
      NamesSnoc(front, last);
      var kept := FirstOfEach(front);
      NamesSnoc(kept, last);
      DistinctSnoc(Names(kept), NameOf(last));
    }
  }

  lemma DistinctEmpty()
    ensures Distinct([])
  {
  }

  function Unless(known: bool, pair: string): seq<string> { if known then [] else [pair] }

  // The first printed pair of each name that is not configured.
  function NewPairs(configured: seq<string>, printed: seq<string>): seq<string> {
    if printed == [] then []
    else
      var front, last := printed[..|printed| - 1], printed[|printed| - 1];
      NewPairs(configured, front) + Unless(NameOf(last) in Names(configured) || NameOf(last) in Names(front), last)
  }

  lemma {:induction false} NamesConcat(a: seq<string>, b: seq<string>)
    ensures Names(a + b) == Names(a) + Names(b)
  {
    hide NameOf;
    if b == [] {
      assert a + b == a;
    } else {
      var front, last := b[..|b| - 1], b[|b| - 1];
      NamesConcat(a, front);
      assert a + b == (a + front) + [last];
      NamesSnoc(a + front, last);
      NamesSnoc(front, last);
    }
  }

  lemma {:induction false} FirstOfEachSplits(configured: seq<string>, printed: seq<string>)
    requires AllNamed(configured) && AllNamed(printed)
    ensures FirstOfEach(configured + printed) == FirstOfEach(configured) + NewPairs(configured, printed)
  {
    hide NameOf;
    if printed == [] {
      assert configured + printed == configured;
    } else {
      hide Names, FirstOfEach, NewPairs;
      var front, last := printed[..|printed| - 1], printed[|printed| - 1];
      assert printed == front + [last] && '=' in last;
      FirstOfEachSplits(configured, front);
      LastMerged(configured, front, last);
    }
  }

  // What the last pair adds depends only on whether its name came before.
  lemma LastMerged(configured: seq<string>, front: seq<string>, last: string)
    requires AllNamed(configured + front) && '=' in last
    requires FirstOfEach(configured + front) == FirstOfEach(configured) + NewPairs(configured, front)
    ensures FirstOfEach(configured + (front + [last]))
         == FirstOfEach(configured) + NewPairs(configured, front + [last])
  {
    hide NameOf, Names;
    var all := configured + front;
    assert configured + (front + [last]) == all + [last];
    FirstOfEachNames(all);
    NamesConcat(configured, front);
    FirstOfEachSnoc(all, last);
    NewPairsSnoc(configured, front, last);
    assert NameOf(last) in Names(all) <==> NameOf(last) in Names(configured) || NameOf(last) in Names(front);
    hide FirstOfEach, NewPairs, Unless;
    var kept, added, extra := FirstOfEach(configured), NewPairs(configured, front), Unless(NameOf(last) in Names(all), last);
    assert (kept + added) + extra == kept + (added + extra);
  }

  lemma FirstOfEachSnoc(pairs: seq<string>, last: string)
    requires '=' in last
    ensures FirstOfEach(pairs + [last]) == FirstOfEach(pairs) + Unless(NameOf(last) in Names(FirstOfEach(pairs)), last)
  {
    hide NameOf, Names;
    assert (pairs + [last])[..|pairs|] == pairs;
  }

  lemma NewPairsSnoc(configured: seq<string>, front: seq<string>, last: string)
    ensures NewPairs(configured, front + [last])
         == NewPairs(configured, front) + Unless(NameOf(last) in Names(configured) || NameOf(last) in Names(front), last)
  {
    hide NameOf, Names;
    assert (front + [last])[..|front|] == front;
  }

  lemma {:induction false} FirstOfEachKeeps(pairs: seq<string>)
    requires AllNamed(pairs)
    ensures FirstOfEach(pairs) == pairs <==> Distinct(Names(pairs))
    ensures |FirstOfEach(pairs)| <= |pairs|
  {
    hide NameOf, Distinct;
    if pairs == [] {
      DistinctEmpty();
    } else {
      var front, last := pairs[..|pairs| - 1], pairs[|pairs| - 1];
      assert pairs == front + [last] && '=' in last;
      FirstOfEachKeeps(front);
      FirstOfEachNames(front);
      NamesSnoc(front, last);
      DistinctSnoc(Names(front), NameOf(last));
    }
  }

  // ---------------------------------------------------------------------
  // What is published
  // ---------------------------------------------------------------------

  function Configured(order: seq<Item>): seq<string> { SortStrings(Gather(order, PairOf)) }

  function Printed(fields: seq<string>): seq<string> { Gather(fields, PrintedPair) }

  lemma ConfiguredAs(order: seq<Item>)
    ensures AllNamed(Configured(order))
    ensures Distinct(Names(Configured(order))) <==> Distinct(ConfiguredNames(order))
    ensures forall x :: x in Names(Configured(order)) <==> x in ConfiguredNames(order)
  {
    hide Distinct, Names, AllNamed;
    NamesOfConfigured(order);
    NamesPermute(Gather(order, PairOf), Configured(order));
  }

  // The configured pairs come first, then the first printed pair of each other name;
  // a repeated configured name loses its later pairs exactly when something is printed.
  lemma Published(order: seq<Item>, fields: seq<string>)
    ensures var configured, printed := Configured(order), Printed(fields);
            Merged(configured, printed)
            == (if printed == [] then configured else FirstOfEach(configured)) + NewPairs(configured, printed)
    ensures FirstOfEach(Configured(order)) == Configured(order) <==> Distinct(ConfiguredNames(order))
  {
    hide Distinct, Names, AllNamed, FirstOfEach;
    var configured, printed := Configured(order), Printed(fields);
    ConfiguredAs(order);
    FirstOfEachKeeps(configured);
    PrintedNames(fields);
    FirstOfEachSplits(configured, printed);
    assert printed == [] ==> configured + NewPairs(configured, printed) == configured;
  }

  // Names never repeat, unless configured names collide and the command prints none.
  lemma DistinctExactly(order: seq<Item>, fields: seq<string>)
    ensures Distinct(Names(Merged(Configured(order), Printed(fields))))
       <==> Printed(fields) != [] || Distinct(ConfiguredNames(order))
  {
    hide Distinct, Names, FirstOfEach, NewPairs;
    var configured, printed := Configured(order), Printed(fields);
    ConfiguredAs(order);
    PrintedNames(fields);
    assert AllNamed(configured + printed);
    FirstOfEachNames(configured + printed);
  }

  // Only the configuration can name a label "workload", or not at all.
  lemma ReservedExactly(order: seq<Item>, fields: seq<string>, name: string)
    requires name == "workload" || name == ""
    ensures name in Names(Merged(Configured(order), Printed(fields))) <==> name in ConfiguredNames(order)
  {
    hide Distinct, Names, FirstOfEach, NewPairs;
    var configured, printed := Configured(order), Printed(fields);
    ConfiguredAs(order);
    PrintedNames(fields);
    assert AllNamed(configured + printed);
    FirstOfEachNames(configured + printed);
    NamesConcat(configured, printed);
  }

  // Configured names that hold no "=" and differ once trimmed.
  predicate PlainlyNamed(order: seq<Item>) {
    && (forall i :: 0 <= i < |order| && Kept(order[i]) ==> '=' !in TrimSpace(order[i].0))
    && (forall i, j :: 0 <= i < j < |order| && Kept(order[i]) && Kept(order[j])
                       ==> TrimSpace(order[i].0) != TrimSpace(order[j].0))
  }

  predicate NameIn(order: seq<Item>, x: string) {
    exists i :: 0 <= i < |order| && Kept(order[i]) && TrimSpace(order[i].0) == x
  }

  lemma PlainlyNamedSnoc(front: seq<Item>, last: Item)
    requires PlainlyNamed(front + [last])
    ensures PlainlyNamed(front)
    ensures Kept(last) ==> '=' !in TrimSpace(last.0) && !NameIn(front, TrimSpace(last.0))
  {
    hide TrimSpace, Kept;
    var order := front + [last];
    assert order[|front|] == last;
    assert forall i :: 0 <= i < |front| ==> order[i] == front[i];
  }

  lemma NameInSnoc(front: seq<Item>, last: Item, x: string)
    ensures NameIn(front + [last], x) <==> NameIn(front, x) || (Kept(last) && TrimSpace(last.0) == x)
  {
    hide TrimSpace, Kept;
    var order := front + [last];
    assert order[|front|] == last;
    assert forall i :: 0 <= i < |front| ==> order[i] == front[i];
  }

  // Such names go by what they are, and never collide.
  lemma {:induction false} PlainNames(order: seq<Item>)
    requires PlainlyNamed(order)
    ensures Distinct(ConfiguredNames(order))
    ensures forall x :: x in ConfiguredNames(order) <==> NameIn(order, x)
  {
    hide TrimSpace, NameOf, Distinct, PlainlyNamed, NameIn;
    if order == [] {
      DistinctEmpty();
      NoNames();
    } else {
      var front, last := order[..|order| - 1], order[|order| - 1];
      assert order == front + [last];
      PlainlyNamedSnoc(front, last);
      PlainNames(front);
      var names := ConfiguredNames(front);
      forall x ensures NameIn(order, x) <==> NameIn(front, x) || (Kept(last) && TrimSpace(last.0) == x) {
        NameInSnoc(front, last, x);
      }
      if Kept(last) {
        var name := TrimSpace(last.0);
        NameOfPair(name, "");
        assert ConfiguredNames(order) == names + [name];
        DistinctSnoc(names, name);
      } else {
        assert ConfiguredNames(order) == names + [] == names;
      }
    }
  }

  lemma NoNames()
    ensures forall x :: !NameIn([], x)
  {
  }

  // As with two labels of different names.
  lemma PlainShown()
    ensures PlainlyNamed([("a", "x"), ("b", "y")])
  {
    TrimSpaceTrims("a");
    TrimSpaceTrims("b");
    hide TrimSpace;
    assert "a"[0] != "b"[0];
  }

  // The configured pairs, untouched, then the first printed pair of each new name;
  // no name repeats and none is reserved.
  lemma PublishedPlainly(order: seq<Item>, fields: seq<string>)
    requires PlainlyNamed(order)
    ensures var configured, printed := Configured(order), Printed(fields);
            var published := Merged(configured, printed);
            && published == configured + NewPairs(configured, printed)
            && Distinct(Names(published))
            && "workload" !in Names(published) && "" !in Names(published)
  {
    hide Distinct, Names, FirstOfEach, NewPairs, PlainlyNamed, ConfiguredNames, Configured, Merged, Printed, TrimSpace;
    PlainNames(order);
    Published(order, fields);
    DistinctExactly(order, fields);
    ReservedExactly(order, fields, "workload");
    ReservedExactly(order, fields, "");
  }

  lemma ConfiguredAt(name: string, rest: string, value: string)
    requires Trimmed(name + "=" + rest) && name + "=" + rest != "workload" && Trimmed(value) && value != ""
    requires '=' !in name
    ensures ConfiguredName((name + "=" + rest, value)) == [name]
  {
    hide TrimSpace, NameOf;
    TrimSpaceTrims(name + "=" + rest);
    TrimSpaceTrims(value);
    NameOfPair(name, rest);
  }

  lemma NamesOfThree(x: Item, y: Item, z: Item)
    ensures ConfiguredNames([x, y, z]) == ConfiguredName(x) + ConfiguredName(y) + ConfiguredName(z)
  {
    hide ConfiguredName;
    assert [x, y, z] == [x, y] + [z] && [x, y] == [x] + [y] && [x] == [] + [x];
    GatherSnoc([x, y], z, ConfiguredName);
    GatherSnoc([x], y, ConfiguredName);
    GatherSnoc([], x, ConfiguredName);
  }

  lemma CollidingNames()
    ensures ConfiguredNames([("a=b", "1"), ("a=c", "2"), ("workload=d", "3")]) == ["a", "a", "workload"]
  {
    hide ConfiguredName, ConfiguredNames;
    assert "a" + "=" + "b" == "a=b" && "a" + "=" + "c" == "a=c" && "workload" + "=" + "d" == "workload=d";
    ConfiguredAt("a", "b", "1");
    ConfiguredAt("a", "c", "2");
    ConfiguredAt("workload", "d", "3");
    NamesOfThree(("a=b", "1"), ("a=c", "2"), ("workload=d", "3"));
  }

  // Two configured names that agree up to "=" are both published, and one that
  // starts with "workload=" publishes the reserved name.
  lemma CollisionsArePublished()
    ensures var order := [("a=b", "1"), ("a=c", "2"), ("workload=d", "3")];
            var published := Names(Merged(Configured(order), Printed([])));
            !Distinct(published) && "workload" in published
  {
    hide ConfiguredNames, Configured, Merged, Names;
    var order: seq<Item> := [("a=b", "1"), ("a=c", "2"), ("workload=d", "3")];
    CollidingNames();
    DistinctExactly(order, []);
    ReservedExactly(order, [], "workload");
    var names := ConfiguredNames(order);
    assert names[0] == names[1] && names[2] == "workload";
  }
}
