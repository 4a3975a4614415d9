/**
 The byte-string operations of Go's `strings` package that the agent relies on.
 A string is a sequence of bytes: each char stands for one byte, 0 to 255.
 White space and letter case are the ASCII ones.
 */
module Text {

  const Spaces: set<char> := {' ', '\t', '\n', '\U{0B}', '\U{0C}', '\r'}

  predicate IsSpace(c: char) { c in Spaces }

  predicate HasSuffix(s: string, suffix: string) {
    |suffix| <= |s| && s[|s| - |suffix|..] == suffix
  }

  predicate Free(s: string, cs: set<char>) { forall i :: 0 <= i < |s| ==> s[i] !in cs }

  lemma FreeConcat(a: string, b: string, cs: set<char>)
    ensures Free(a + b, cs) <==> Free(a, cs) && Free(b, cs)
  {
    var s := a + b;
    if Free(s, cs) {
      forall i | 0 <= i < |a| ensures a[i] !in cs { assert a[i] == s[i]; }
      forall i | 0 <= i < |b| ensures b[i] !in cs { assert b[i] == s[|a| + i]; }
    }
  }

  function Repeated(c: char, n: nat): (s: string)
    ensures |s| == n && forall i :: 0 <= i < n ==> s[i] == c
  {
    seq(n, _ => c)
  }

  lemma Associative<T>(a: seq<T>, b: seq<T>, c: seq<T>)
    ensures a + (b + c) == (a + b) + c
  {
  }

  // --- searching -----------------------------------------------------------

  // The first position holding a byte of `cs`, or -1.
  function IndexAny(s: string, cs: set<char>): (i: int)
    ensures -1 <= i < |s|
    ensures i >= 0 ==> s[i] in cs
    ensures forall j :: 0 <= j < (if i < 0 then |s| else i) ==> s[j] !in cs
  {
    if s == "" then -1
    else if s[0] in cs then 0
    else var i := IndexAny(s[1..], cs); if i < 0 then -1 else i + 1
  }

  function IndexByte(s: string, c: char): (i: int)
    ensures -1 <= i < |s|
    ensures i >= 0 ==> s[i] == c
    ensures forall j :: 0 <= j < (if i < 0 then |s| else i) ==> s[j] != c
  {
    IndexAny(s, {c})
  }

  // The first byte of `cs` in a + s, when `a` has none and s starts with one.
  lemma IndexAnyAfter(a: string, s: string, cs: set<char>)
    requires Free(a, cs)
    requires s != "" && s[0] in cs
    ensures IndexAny(a + s, cs) == |a|
  {
    assert (a + s)[|a|] == s[0];
    forall j | 0 <= j < |a| ensures (a + s)[j] !in cs { assert (a + s)[j] == a[j]; }
  }

  lemma IndexAnyNone(s: string, cs: set<char>)
    requires Free(s, cs)
    ensures IndexAny(s, cs) == -1
  {
  }

  // The last position holding c, or -1.
  function LastIndexByte(s: string, c: char): (i: int)
    ensures -1 <= i < |s|
    ensures i >= 0 ==> s[i] == c
    ensures forall j :: i < j < |s| ==> s[j] != c
  {
    if s == "" then -1
    else if s[|s| - 1] == c then |s| - 1
    else LastIndexByte(s[..|s| - 1], c)
  }

  lemma LastIndexIs(s: string, c: char, p: nat)
    requires p < |s| && s[p] == c && c !in s[p + 1..]
    ensures LastIndexByte(s, c) == p
  {
    hide LastIndexByte;
    forall i | p < i < |s| ensures s[i] != c { assert s[p + 1..][i - p - 1] == s[i]; }
  }

  lemma LastIndexAfter(a: string, c: char, b: string)
    requires c !in b
    ensures LastIndexByte(a + [c] + b, c) == |a|
  {
    hide LastIndexByte;
    var s := a + [c] + b;
    assert s[|a|] == c && s[|a| + 1..] == b;
    LastIndexIs(s, c, |a|);
  }

  // --- trimming ------------------------------------------------------------

  function TrimRight(s: string, cut: set<char>): (r: string)
    ensures r <= s
    ensures r != "" ==> r[|r| - 1] !in cut
    ensures forall i :: |r| <= i < |s| ==> s[i] in cut
  {
    if s != "" && s[|s| - 1] in cut then TrimRight(s[..|s| - 1], cut) else s
  }

  // Where trimming from the right must stop.
  lemma TrimRightIs(s: string, tail: string, cut: set<char>)
    requires forall c :: c in tail ==> c in cut
    requires s != "" ==> s[|s| - 1] !in cut
    ensures TrimRight(s + tail, cut) == s
  {
    hide TrimRight;
    var all := s + tail;
    var r := TrimRight(all, cut);
    assert all[..|s|] == s;
    forall i | |s| <= i < |all| ensures all[i] in cut { assert all[i] == tail[i - |s|]; }
    assert s != "" ==> all[|s| - 1] == s[|s| - 1];
    assert |r| == |s|;
    assert r == all[..|s|];
  }

  function TrimLeft(s: string, cut: set<char>): (r: string)
    ensures |r| <= |s| && r == s[|s| - |r|..]
    ensures r != "" ==> r[0] !in cut
    ensures forall i :: 0 <= i < |s| - |r| ==> s[i] in cut
  {
    if s != "" && s[0] in cut then TrimLeft(s[1..], cut) else s
  }

  lemma TrimLeftIs(lead: string, s: string, cut: set<char>)
    requires forall c :: c in lead ==> c in cut
    requires s != "" ==> s[0] !in cut
    ensures TrimLeft(lead + s, cut) == s
  {
    var all := lead + s;
    var r := TrimLeft(all, cut);
    assert s != "" ==> all[|lead|] == s[0];
    assert |r| == |s|;
  }

  function TrimSpace(s: string): string { TrimRight(TrimLeft(s, Spaces), Spaces) }

  // No white space at either end.
  predicate Trimmed(s: string) { s != "" ==> !IsSpace(s[0]) && !IsSpace(s[|s| - 1]) }

  predicate Blank(s: string) { forall c :: c in s ==> IsSpace(c) }

  lemma TrimSpaceIs(lead: string, s: string, tail: string)
    requires Blank(lead) && Blank(tail) && Trimmed(s)
    ensures TrimSpace(lead + s + tail) == s
  {
    if s == "" {
      assert lead + s + tail == (lead + tail) + "";
      TrimLeftIs(lead + tail, "", Spaces);
    } else {
      assert lead + s + tail == lead + (s + tail);
      TrimLeftIs(lead, s + tail, Spaces);
    }
    TrimRightIs(s, if s == "" then "" else tail, Spaces);
  }

  lemma TrimSpaceEnds(s: string)
    ensures Trimmed(TrimSpace(s))
  {
    hide TrimLeft, TrimRight;
    var l := TrimLeft(s, Spaces);
    var r := TrimRight(l, Spaces);
    assert r != "" ==> r[0] == l[0];
  }

  lemma TrimSpaceTrims(s: string)
    ensures Trimmed(TrimSpace(s))
    ensures Trimmed(s) ==> TrimSpace(s) == s
  {
    TrimSpaceEnds(s);
    if Trimmed(s) {
      hide TrimSpace;
      assert "" + s + "" == s;
      TrimSpaceIs("", s, "");
    }
  }

  // Trimming stops at the first and the last character that is not white space.
  lemma EndTrims(front: string, text: string) returns (kept: string)
    requires front != "" && !IsSpace(front[0]) && !IsSpace(front[|front| - 1])
    ensures TrimSpace(front + text) == front + kept && kept <= text
    ensures kept != "" ==> !IsSpace(kept[|kept| - 1])
  {
    hide TrimRight, TrimLeft;
    var line := front + text;
    assert line[0] == front[0] && line[|front| - 1] == front[|front| - 1];
    var r := TrimRight(TrimLeft(line, Spaces), Spaces);
    assert |r| >= |front|;
    assert r[..|front|] == line[..|front|] == front;
    kept := r[|front|..];
    assert kept == text[..|kept|];
  }

  lemma TrimSpaceFree(s: string, cs: set<char>)
    requires Free(s, cs)
    ensures Free(TrimSpace(s), cs)
  {
    hide TrimLeft, TrimRight;
    var l := TrimLeft(s, Spaces);
    forall i | 0 <= i < |TrimSpace(s)| ensures TrimSpace(s)[i] !in cs {
      assert TrimSpace(s)[i] == l[i] == s[|s| - |l| + i];
    }
  }

  // --- separators ----------------------------------------------------------

  // strings.Split for a one-byte separator: never empty.
  function Split(s: string, sep: char): (parts: seq<string>)
    ensures |parts| >= 1
    ensures forall i :: 0 <= i < |parts| ==> sep !in parts[i]
    decreases |s|
  {
    var i := IndexByte(s, sep);
    if i < 0 then [s] else [s[..i]] + Split(s[i + 1..], sep)
  }

  function Join(parts: seq<string>, sep: char): string
    requires |parts| >= 1
  {
    if |parts| == 1 then parts[0] else parts[0] + [sep] + Join(parts[1..], sep)
  }

  lemma SplitFirst(part: string, rest: string, sep: char)
    requires sep !in part
    ensures Split(part + [sep] + rest, sep) == [part] + Split(rest, sep)
  {
    var s := part + [sep] + rest;
    assert s == part + ([sep] + rest);
    IndexAnyAfter(part, [sep] + rest, {sep});
    assert s[..|part|] == part && s[|part| + 1..] == rest;
  }

  lemma SplitNone(part: string, sep: char)
    requires sep !in part
    ensures Split(part, sep) == [part]
  {
    IndexAnyNone(part, {sep});
  }

  lemma {:induction false} JoinSplit(s: string, sep: char)
    ensures Join(Split(s, sep), sep) == s
    decreases |s|
  {
    hide Split;
    var i := IndexByte(s, sep);
    if i < 0 {
      SplitNone(s, sep);
    } else {
      var part, rest := s[..i], s[i + 1..];
      JoinSplit(rest, sep);
      assert s == part + [sep] + rest;
      SplitFirst(part, rest, sep);
      assert Split(s, sep)[1..] == Split(rest, sep);
    }
  }

  lemma {:induction false} SplitJoin(parts: seq<string>, sep: char)
    requires |parts| >= 1 && forall i :: 0 <= i < |parts| ==> sep !in parts[i]
    ensures Split(Join(parts, sep), sep) == parts
  {
    if |parts| == 1 {
      SplitNone(parts[0], sep);
    } else {
      SplitJoin(parts[1..], sep);
      SplitFirst(parts[0], Join(parts[1..], sep), sep);
    }
  }

  lemma {:induction false} SplitConcat(a: string, b: string, sep: char)
    ensures Split(a + [sep] + b, sep) == Split(a, sep) + Split(b, sep)
    decreases |a|
  {
    hide Split;
    var i := IndexByte(a, sep);
    if i < 0 {
      SplitNone(a, sep);
      SplitFirst(a, b, sep);
    } else {
      var part, rest := a[..i], a[i + 1..];
      SplitConcat(rest, b, sep);
      assert a == part + [sep] + rest;
      SplitFirst(part, rest, sep);
      assert a + [sep] + b == part + [sep] + (rest + [sep] + b);
      SplitFirst(part, rest + [sep] + b, sep);
    }
  }

  // The first occurrence of `sub`, or -1.
  function IndexOf(s: string, sub: string): (i: int)
    ensures -1 <= i <= |s|
    ensures i >= 0 ==> sub <= s[i..]
  {
    if sub <= s then 0
    else if s == "" then -1
    else
      var i := IndexOf(s[1..], sub);
      if i < 0 then -1 else i + 1
  }

  lemma {:induction false} IndexOfIsFirst(s: string, sub: string, j: nat)
    requires j <= |s| && sub <= s[j..]
    ensures 0 <= IndexOf(s, sub) <= j
  {
    if !(sub <= s) {
      assert s[1..][j - 1..] == s[j..];
      IndexOfIsFirst(s[1..], sub, j - 1);
    }
  }

  lemma TwoJoined(a: string, b: string)
    ensures Join([a, b] + [""], '\n') == a + "\n" + (b + "\n")
  {
    var all := [a, b, ""];
    assert [a, b] + [""] == all && all[1..] == [b, ""] && [b, ""][1..] == [""];
    assert Join([""], '\n') == "";
    assert Join([b, ""], '\n') == b + "\n" + "";
  }

  // --- chunks --------------------------------------------------------------

  function Flatten(chunks: seq<string>): string {
    if chunks == [] then "" else chunks[0] + Flatten(chunks[1..])
  }

  lemma {:induction false} FlattenSnoc(chunks: seq<string>, chunk: string)
    ensures Flatten(chunks + [chunk]) == Flatten(chunks) + chunk
  {
    if chunks == [] {
      assert [chunk][1..] == [] && [] + [chunk] == [chunk];
      assert chunk + "" == "" + chunk;
    } else {
      FlattenSnoc(chunks[1..], chunk);
      assert (chunks + [chunk])[1..] == chunks[1..] + [chunk];
      assert chunks[0] + (Flatten(chunks[1..]) + chunk) == (chunks[0] + Flatten(chunks[1..])) + chunk;
    }
  }

  // --- letter case ---------------------------------------------------------

  function Lower(c: char): char {
    if 'A' <= c <= 'Z' then (c as int + 32) as char else c
  }

  function ToLower(s: string): (r: string)
    ensures |r| == |s| && forall i :: 0 <= i < |s| ==> r[i] == Lower(s[i])
  {
    seq(|s|, i requires 0 <= i < |s| => Lower(s[i]))
  }

  // --- fields --------------------------------------------------------------

  // strings.Fields: the maximal runs of bytes that are not white space.
  function Fields(s: string): seq<string>
    decreases |s|
  {
    if s == "" then []
    else if IsSpace(s[0]) then Fields(s[1..])
    else
      var i := IndexAny(s, Spaces);
      if i < 0 then [s] else [s[..i]] + Fields(s[i..])
  }

  lemma FieldsOne(token: string)
    requires token != "" && Free(token, Spaces)
    ensures Fields(token) == [token]
  {
    IndexAnyNone(token, Spaces);
  }

  lemma {:induction false} FieldsNotEmpty(s: string, i: nat)
    requires i < |s| && !IsSpace(s[i])
    ensures Fields(s) != []
    decreases |s|
  {
    if IsSpace(s[0]) {
      FieldsNotEmpty(s[1..], i - 1);
    }
  }

  lemma FieldsFirst(token: string, rest: string)
    requires token != "" && Free(token, Spaces)
    ensures Fields(token + " " + rest) == [token] + Fields(rest)
  {
    var s := token + (" " + rest);
    assert s == token + " " + rest;
    IndexAnyAfter(token, " " + rest, Spaces);
    assert s[0] == token[0] && s[..|token|] == token && s[|token|..] == " " + rest;
    assert (" " + rest)[1..] == rest;
  }

  lemma {:induction false} FieldsAfter(gap: string, s: string)
    requires Blank(gap)
    ensures Fields(gap + s) == Fields(s)
  {
    if gap == "" {
      assert gap + s == s;
    } else {
      assert gap[0] in gap;
      assert (gap + s)[0] == gap[0] && (gap + s)[1..] == gap[1..] + s;
      FieldsAfter(gap[1..], s);
    }
  }

  lemma FieldsNext(token: string, gap: string, rest: string)
    requires token != "" && Free(token, Spaces) && gap != "" && Blank(gap)
    ensures Fields(token + (gap + rest)) == [token] + Fields(rest)
  {
    var s := token + (gap + rest);
    assert gap[0] in gap && (gap + rest)[0] == gap[0];
    IndexAnyAfter(token, gap + rest, Spaces);
    assert s[0] == token[0] && s[..|token|] == token && s[|token|..] == gap + rest;
    FieldsAfter(gap, rest);
  }

  // Words with white space before each.
  type Word = (string, string)

  predicate WordOk(w: Word) { w.0 != "" && Blank(w.0) && w.1 != "" && Free(w.1, Spaces) }

  function Spaced(words: seq<Word>): string {
    if words == [] then "" else words[0].0 + (words[0].1 + Spaced(words[1..]))
  }

  function WordsOf(words: seq<Word>): (r: seq<string>)
    ensures |r| == |words| && forall i :: 0 <= i < |r| ==> r[i] == words[i].1
  {
    seq(|words|, i requires 0 <= i < |words| => words[i].1)
  }

  lemma {:induction false} FieldsSpaced(token: string, words: seq<Word>, tail: string)
    requires token != "" && Free(token, Spaces) && Blank(tail)
    requires forall i :: 0 <= i < |words| ==> WordOk(words[i])
    ensures Fields(token + (Spaced(words) + tail)) == [token] + WordsOf(words)
    decreases |words|
  {
    hide Fields;
    if words == [] {
      assert Spaced(words) + tail == tail && WordsOf(words) == [];
      if tail == "" {
        assert token + tail == token;
        FieldsOne(token);
      } else {
        assert tail + "" == tail;
        FieldsNext(token, tail, "");
        NoFields();
      }
    } else {
      var (gap, next) := words[0];
      var rest := next + (Spaced(words[1..]) + tail);
      assert Spaced(words) + tail == gap + rest;
      FieldsNext(token, gap, rest);
      FieldsSpaced(next, words[1..], tail);
      assert WordsOf(words) == [next] + WordsOf(words[1..]);
    }
  }

  lemma NoFields()
    ensures Fields("") == []
  {
  }
}
