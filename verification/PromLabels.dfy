/**
 Reading the label set of a Prometheus sample: a scan that tracks quoting, and
 the proof that it undoes the escaping an exporter applies.
 */
module PromLabels {
  import opened Text
  import opened Wrappers

  const MaxLabelsPerSample: nat := 8

  // What ingest refuses in a value becomes harmless.
  function Clean(c: char): char {
    if c == '|' then '_' else if c == '\r' || c == '\n' then ' ' else c
  }

  function CleanAll(s: string): (r: string)
    ensures |r| == |s| && forall i :: 0 <= i < |s| ==> r[i] == Clean(s[i])
  {
    seq(|s|, i requires 0 <= i < |s| => Clean(s[i]))
  }

  function Unquoted(raw: string): string {
    if |raw| >= 2 && raw[0] == '"' && raw[|raw| - 1] == '"' then raw[1..|raw| - 1] else raw
  }

  // Quotes are taken off only as a pair, one at each end.
  lemma UnquotedExactly(raw: string)
    ensures (exists inner: string :: raw == ['"'] + inner + ['"'] && Unquoted(raw) == inner)
         || (Unquoted(raw) == raw && forall inner: string :: raw != ['"'] + inner + ['"'])
  {
    if |raw| >= 2 && raw[0] == '"' && raw[|raw| - 1] == '"' {
      var inner := raw[1..|raw| - 1];
      assert raw == ['"'] + inner + ['"'];
    } else {
      forall inner: string ensures raw != ['"'] + inner + ['"'] {
        var quoted := ['"'] + inner + ['"'];
        assert quoted[0] == '"' && quoted[|quoted| - 1] == '"';
      }
    }
  }

  function UnquoteLabelValue(raw: string): string { TrimSpace(CleanAll(Unquoted(raw))) }

  datatype Label = Label(name: string, value: string)

  // The name and value of one name="value".
  function PairOf(current: string): Option<Label> {
    var pair := TrimSpace(current);
    var eq := IndexByte(pair, '=');
    if eq < 0 then None
    else Some(Label(TrimSpace(pair[..eq]), UnquoteLabelValue(TrimSpace(pair[eq + 1..]))))
  }

  // What it contributes, given the labels already kept.
  function Flush(current: string, out: seq<string>, allow: string -> bool): seq<string> {
    match PairOf(current)
    case None => out
    case Some(l) =>
      if l.name == "" || l.name == "workload" || !allow(l.name) || l.value == "" || |out| >= MaxLabelsPerSample then out
      else out + [l.name + "=" + l.value]
  }

  datatype Scan = Scan(current: string, inQuotes: bool, escaped: bool, out: seq<string>)

  function ScanByte(s: Scan, ch: char, allow: string -> bool): Scan {
    if s.escaped then s.(current := s.current + [ch], escaped := false)
    else if ch == '\\' && s.inQuotes then s.(escaped := true)
    else if ch == '"' then s.(inQuotes := !s.inQuotes, current := s.current + [ch])
    else if ch == ',' && !s.inQuotes then s.(current := "", out := Flush(s.current, s.out, allow))
    else s.(current := s.current + [ch])
  }

  function ScanAll(s: Scan, raw: string, allow: string -> bool): Scan {
    if raw == "" then s else ScanByte(ScanAll(s, raw[..|raw| - 1], allow), raw[|raw| - 1], allow)
  }

  const Fresh: Scan := Scan("", false, false, [])

  function Labels(raw: string, allow: string -> bool): seq<string> {
    var end := ScanAll(Fresh, raw, allow);
    Flush(end.current, end.out, allow)
  }

  method ParseLabels(raw: string, allow: string -> bool) returns (out: seq<string>)
    ensures out == Labels(raw, allow)
  {
    hide Flush;
    out := [];
    var current, inQuotes, escaped := "", false, false;
    for i := 0 to |raw|
      invariant Scan(current, inQuotes, escaped, out) == ScanAll(Fresh, raw[..i], allow)
    {
      assert raw[..i + 1][..i] == raw[..i];
      var ch := raw[i];
      if escaped {
        current := current + [ch];
        escaped := false;
      } else if ch == '\\' && inQuotes {
        escaped := true;
      } else if ch == '"' {
        inQuotes := !inQuotes;
        current := current + [ch];
      } else if ch == ',' && !inQuotes {
        out := Flush(current, out, allow);
        current := "";
      } else {
        current := current + [ch];
      }
    }
    assert raw[..|raw|] == raw;
    out := Flush(current, out, allow);
  }

  // ---------------------------------------------------------------------
  // Whatever is read can be sent on
  // ---------------------------------------------------------------------

  // A label ingest will take: a usable, permitted name and a harmless value.
  predicate Sendable(pair: string, allow: string -> bool) {
    var eq := IndexByte(pair, '=');
    && eq > 0 && pair[..eq] != "workload" && allow(pair[..eq]) && Trimmed(pair[..eq])
    && pair[eq + 1..] != "" && Trimmed(pair[eq + 1..]) && Free(pair[eq + 1..], {'|', '\r', '\n'})
  }

  lemma CleanFree(s: string)
    ensures Free(UnquoteLabelValue(s), {'|', '\r', '\n'})
  {
    hide TrimSpace;
    var c := CleanAll(Unquoted(s));
    assert Free(c, {'|', '\r', '\n'});
    TrimSpaceFree(c, {'|', '\r', '\n'});
  }

  lemma PairIsClean(current: string)
    ensures var p := PairOf(current);
            p.Some? ==>
              && Free(p.value.name, {'='}) && Trimmed(p.value.name)
              && Trimmed(p.value.value) && Free(p.value.value, {'|', '\r', '\n'})
  {
    hide TrimSpace, Trimmed, Unquoted, CleanAll;
    var pair := TrimSpace(current);
    var eq := IndexByte(pair, '=');
    if eq >= 0 {
      var text := TrimSpace(pair[eq + 1..]);
      TrimSpaceTrims(pair[..eq]);
      TrimSpaceFree(pair[..eq], {'='});
      TrimSpaceTrims(CleanAll(Unquoted(text)));
      CleanFree(text);
    }
  }

  lemma FlushSendable(current: string, out: seq<string>, allow: string -> bool)
    requires |out| <= MaxLabelsPerSample && forall i :: 0 <= i < |out| ==> Sendable(out[i], allow)
    ensures var r := Flush(current, out, allow);
            |r| <= MaxLabelsPerSample && forall i :: 0 <= i < |r| ==> Sendable(r[i], allow)
  {
    hide PairOf, Trimmed;
    PairIsClean(current);
    var p := PairOf(current);
    if p.Some? {
      LabelParts(p.value.name, p.value.value);
    }
  }

  lemma LabelParts(name: string, value: string)
    requires '=' !in name
    ensures var pair := name + "=" + value;
            && IndexByte(pair, '=') == |name| && pair[..|name|] == name && pair[|name| + 1..] == value
  {
    var pair := name + ("=" + value);
    assert pair == name + "=" + value;
    IndexAnyAfter(name, "=" + value, {'='});
  }

  lemma {:induction false} ScanSendable(raw: string, allow: string -> bool)
    ensures var s := ScanAll(Fresh, raw, allow);
            |s.out| <= MaxLabelsPerSample && forall i :: 0 <= i < |s.out| ==> Sendable(s.out[i], allow)
  {
    hide Flush, Sendable;
    if raw != "" {
      var before := ScanAll(Fresh, raw[..|raw| - 1], allow);
      ScanSendable(raw[..|raw| - 1], allow);
      FlushSendable(before.current, before.out, allow);
    }
  }

  lemma AlwaysSendable(raw: string, allow: string -> bool)
    ensures |Labels(raw, allow)| <= MaxLabelsPerSample
    ensures forall i :: 0 <= i < |Labels(raw, allow)| ==> Sendable(Labels(raw, allow)[i], allow)
  {
    ScanSendable(raw, allow);
    var end := ScanAll(Fresh, raw, allow);
    FlushSendable(end.current, end.out, allow);
  }

  // ---------------------------------------------------------------------
  // Round trip
  // ---------------------------------------------------------------------

  // The escapes an exporter writes: for quotes, backslashes and newlines.
  function Escape(value: string): string {
    if value == "" then ""
    else
      var c := value[|value| - 1];
      Escape(value[..|value| - 1]) + EscapeByte(c)
  }

  function EscapeByte(c: char): string {
    if c == '"' || c == '\\' then ['\\', c] else if c == '\n' then "\\n" else [c]
  }

  // A value without its escapes: the scan drops the backslash of any escape and
  // keeps the byte after it, so an escaped newline becomes the letter n.
  function Unescaped(value: string): (r: string)
    ensures |r| == |value| && forall i :: 0 <= i < |r| ==> r[i] == UnescapedByte(value[i])
  {
    seq(|value|, i requires 0 <= i < |value| => UnescapedByte(value[i]))
  }

  function UnescapedByte(c: char): char { if c == '\n' then 'n' else c }

  // What becomes of a value: bars and carriage returns are replaced, then edge white
  // space goes. Nothing at all arrives of a value this leaves empty.
  function Arrival(value: string): string { TrimSpace(CleanAll(Unescaped(value))) }

  function Quoted(l: Label): string { l.name + "=\"" + Escape(l.value) + "\"" }

  function RenderLabels(ls: seq<Label>): string {
    if ls == [] then ""
    else if |ls| == 1 then Quoted(ls[0])
    else RenderLabels(ls[..|ls| - 1]) + "," + Quoted(ls[|ls| - 1])
  }

  predicate WellFormed(l: Label) { l.name != "" && Trimmed(l.name) && Free(l.name, {'=', ',', '"'}) }

  // The labels that arrive: the first eight of those allowed.
  function Wanted(ls: seq<Label>, allow: string -> bool): seq<string> {
    if ls == [] then []
    else Keep(Wanted(ls[..|ls| - 1], allow), ls[|ls| - 1], allow)
  }

  function Keep(kept: seq<string>, l: Label, allow: string -> bool): seq<string> {
    if l.name != "workload" && allow(l.name) && Arrival(l.value) != "" && |kept| < MaxLabelsPerSample
    then kept + [l.name + "=" + Arrival(l.value)] else kept
  }

  lemma {:induction false} ScanConcat(s: Scan, a: string, b: string, allow: string -> bool)
    ensures ScanAll(s, a + b, allow) == ScanAll(ScanAll(s, a, allow), b, allow)
    decreases |b|
  {
    hide ScanByte;
    if b == "" {
      assert a + b == a;
    } else {
      ScanConcat(s, a, b[..|b| - 1], allow);
      assert (a + b)[..|a + b| - 1] == a + b[..|b| - 1];
    }
  }

  lemma {:induction false} ScanName(s: Scan, name: string, allow: string -> bool)
    requires !s.inQuotes && !s.escaped && Free(name, {',', '"'})
    ensures ScanAll(s, name, allow) == s.(current := s.current + name)
  {
    if name == "" {
      assert s.current + name == s.current;
    } else {
      var n := |name| - 1;
      ScanName(s, name[..n], allow);
      assert s.current + name == (s.current + name[..n]) + [name[n]];
    }
  }

  // Inside quotes the scan undoes the escaping but for newlines.
  lemma {:induction false} ScanEscaped(s: Scan, value: string, allow: string -> bool)
    requires s.inQuotes && !s.escaped
    ensures ScanAll(s, Escape(value), allow) == s.(current := s.current + Unescaped(value))
  {
    hide Flush, ScanAll, EscapeByte;
    if value == "" {
      assert s.current + Unescaped(value) == s.current;
      NothingScanned(s, allow);
    } else {
      var n := |value| - 1;
      var t := s.(current := s.current + Unescaped(value[..n]));
      ScanEscaped(s, value[..n], allow);
      assert s.current + Unescaped(value) == (s.current + Unescaped(value[..n])) + [UnescapedByte(value[n])];
      ScanConcat(s, Escape(value[..n]), EscapeByte(value[n]), allow);
      ScanEscapedByte(t, value[n], allow);
    }
  }

  lemma NothingScanned(s: Scan, allow: string -> bool)
    ensures ScanAll(s, "", allow) == s
  {
  }

  lemma ScanEscapedByte(s: Scan, c: char, allow: string -> bool)
    requires s.inQuotes && !s.escaped
    ensures ScanAll(s, EscapeByte(c), allow) == s.(current := s.current + [UnescapedByte(c)])
  {
    hide Flush, ScanAll;
    if c == '"' || c == '\\' {
      ScanTwo(s, '\\', c, allow);
    } else if c == '\n' {
      ScanTwo(s, '\\', 'n', allow);
    } else {
      ScanOne(s, c, allow);
    }
  }

  lemma ScanOne(s: Scan, c: char, allow: string -> bool)
    ensures ScanAll(s, [c], allow) == ScanByte(s, c, allow)
  {
    assert [c][..0] == "";
    assert ScanAll(s, "", allow) == s;
  }

  lemma ScanTwo(s: Scan, c: char, d: char, allow: string -> bool)
    ensures ScanAll(s, [c, d], allow) == ScanByte(ScanByte(s, c, allow), d, allow)
  {
    hide ScanByte;
    assert [c, d][..1] == [c];
    ScanOne(s, c, allow);
  }

  // What may stand between two commas: a label, with white space anywhere around its
  // parts, or text that is none. An exporter that ends its list with a comma writes the
  // empty text last.
  datatype Segment =
    | Given(lead: string, given: Label, beforeEq: string, afterEq: string, tail: string)
    | Stray(text: string)

  predicate Proper(g: Segment) {
    match g
    case Given(lead, l, beforeEq, afterEq, tail) =>
      WellFormed(l) && Blank(lead) && Blank(beforeEq) && Blank(afterEq) && Blank(tail)
    case Stray(text) => Free(text, {'=', ',', '"'})
  }

  function RenderSegment(g: Segment): string {
    match g
    case Given(lead, l, beforeEq, afterEq, tail) =>
      lead + l.name + beforeEq + "=" + afterEq + "\"" + Escape(l.value) + "\"" + tail
    case Stray(text) => text
  }

  function RenderSegments(gs: seq<Segment>): string {
    if gs == [] then ""
    else if |gs| == 1 then RenderSegment(gs[0])
    else RenderSegments(gs[..|gs| - 1]) + "," + RenderSegment(gs[|gs| - 1])
  }

  function LabelsIn(gs: seq<Segment>): seq<Label> {
    if gs == [] then []
    else LabelsIn(gs[..|gs| - 1]) + match gs[|gs| - 1] case Given(_, l, _, _, _) => [l] case Stray(_) => []
  }

  // The part before a value's quotes, and the value with its escapes undone.
  function Front(g: Segment): string
    requires g.Given?
  {
    g.lead + g.given.name + g.beforeEq + "=" + g.afterEq
  }

  function InQuotes(l: Label): string { "\"" + Unescaped(l.value) + "\"" }

  // A segment as the scan collects it.
  function Plain(g: Segment): string {
    match g
    case Given(_, l, _, _, tail) => Front(g) + InQuotes(l) + tail
    case Stray(text) => text
  }

  lemma ScanLabel(s: Scan, g: Segment, allow: string -> bool)
    requires !s.inQuotes && !s.escaped && g.Given? && Proper(g)
    ensures ScanAll(s, RenderSegment(g), allow) == s.(current := s.current + Plain(g))
  {
    hide Flush, ScanAll, Escape;
    var front, value := Front(g), g.given.value;
    FrontFree(g);
    BlankFree(g.tail);
    ScanConcat(s, front + "\"" + Escape(value) + "\"", g.tail, allow);
    ScanConcat(s, front + "\"" + Escape(value), "\"", allow);
    ScanConcat(s, front + "\"", Escape(value), allow);
    ScanConcat(s, front, "\"", allow);
    ScanName(s, front, allow);
    var a := s.(current := s.current + front);
    ScanOne(a, '"', allow);
    var b := a.(inQuotes := true, current := a.current + "\"");
    ScanEscaped(b, value, allow);
    var c := b.(current := b.current + Unescaped(value));
    ScanOne(c, '"', allow);
    var d := c.(inQuotes := false, current := c.current + "\"");
    ScanName(d, g.tail, allow);
    assert d.current + g.tail == s.current + Plain(g);
  }

  lemma BlankFree(s: string)
    requires Blank(s)
    ensures Free(s, {',', '"'}) && Free(s, {'='})
  {
    forall i | 0 <= i < |s| ensures s[i] !in {',', '"'} && s[i] !in {'='} { assert s[i] in s; }
  }

  lemma FrontFree(g: Segment)
    requires g.Given? && Proper(g)
    ensures Free(Front(g), {',', '"'})
  {
    BlankFree(g.lead);
    BlankFree(g.beforeEq);
    BlankFree(g.afterEq);
    hide Blank, Free;
    FreeConcat(g.lead, g.given.name, {',', '"'});
    FreeConcat(g.lead + g.given.name, g.beforeEq, {',', '"'});
    EqualsFree();
    FreeConcat(g.lead + g.given.name + g.beforeEq, "=", {',', '"'});
    FreeConcat(g.lead + g.given.name + g.beforeEq + "=", g.afterEq, {',', '"'});
  }

  lemma EqualsFree()
    ensures Free("=", {',', '"'})
  {
  }

  lemma ScanSegment(s: Scan, g: Segment, allow: string -> bool)
    requires !s.inQuotes && !s.escaped && Proper(g)
    ensures ScanAll(s, RenderSegment(g), allow) == s.(current := s.current + Plain(g))
  {
    if g.Given? {
      ScanLabel(s, g, allow);
    } else {
      ScanName(s, g.text, allow);
    }
  }

  // A label is read as its name and what arrives of its value.
  lemma PairGiven(g: Segment)
    requires g.Given? && Proper(g)
    ensures PairOf(Plain(g)) == Some(Label(g.given.name, Arrival(g.given.value)))
  {
    hide TrimSpace, Unescaped, CleanAll;
    var l, text := g.given, InQuotes(g.given);
    var name, value := l.name + g.beforeEq, g.afterEq + text;
    var pair := name + "=" + value;
    assert Plain(g) == g.lead + pair + g.tail;
    assert pair[0] == l.name[0] && pair[|pair| - 1] == '"';
    TrimSpaceIs(g.lead, pair, g.tail);
    BlankFree(g.beforeEq);
    FreeConcat(l.name, g.beforeEq, {'='});
    LabelParts(name, value);
    assert "" + l.name + g.beforeEq == name && g.afterEq + text + "" == value;
    TrimSpaceIs("", l.name, g.beforeEq);
    TrimSpaceIs(g.afterEq, text, "");
    assert Unquoted(text) == Unescaped(l.value);
  }

  lemma NoPair(text: string)
    requires Free(text, {'='})
    ensures PairOf(text) == None
  {
    TrimSpaceFree(text, {'='});
  }

  // And kept, if it is wanted at all.
  lemma FlushSegment(g: Segment, out: seq<string>, allow: string -> bool)
    requires Proper(g)
    ensures Flush(Plain(g), out, allow) == if g.Given? then Keep(out, g.given, allow) else out
  {
    hide PairOf, Trimmed, Arrival;
    if g.Given? {
      hide Plain;
      PairGiven(g);
    } else {
      NoPair(g.text);
    }
  }

  lemma {:induction false} ScanSegments(gs: seq<Segment>, allow: string -> bool)
    requires gs != [] && forall i :: 0 <= i < |gs| ==> Proper(gs[i])
    ensures var s := ScanAll(Fresh, RenderSegments(gs), allow);
            && !s.inQuotes && !s.escaped
            && Flush(s.current, s.out, allow) == Wanted(LabelsIn(gs), allow)
  {
    hide Flush, ScanAll, Proper, Plain, RenderSegment;
    var n := |gs| - 1;
    var earlier, last := gs[..n], gs[n];
    assert "" + Plain(last) == Plain(last);
    WantedNext(gs, allow);
    if n == 0 {
      ScanSegment(Fresh, last, allow);
      FlushSegment(last, [], allow);
    } else {
      ScanSegments(earlier, allow);
      var s := ScanAll(Fresh, RenderSegments(earlier), allow);
      ScanConcat(Fresh, RenderSegments(earlier) + ",", RenderSegment(last), allow);
      ScanConcat(Fresh, RenderSegments(earlier), ",", allow);
      ScanOne(s, ',', allow);
      var t := s.(current := "", out := Wanted(LabelsIn(earlier), allow));
      ScanSegment(t, last, allow);
      FlushSegment(last, t.out, allow);
    }
  }

  lemma WantedNext(gs: seq<Segment>, allow: string -> bool)
    requires gs != []
    ensures var earlier, last := LabelsIn(gs[..|gs| - 1]), gs[|gs| - 1];
            Wanted(LabelsIn(gs), allow)
            == if last.Given? then Keep(Wanted(earlier, allow), last.given, allow) else Wanted(earlier, allow)
    ensures LabelsIn([]) == [] && Wanted([], allow) == []
  {
    hide Keep;
    var earlier, last := LabelsIn(gs[..|gs| - 1]), gs[|gs| - 1];
    if last.Given? {
      assert (earlier + [last.given])[..|earlier|] == earlier;
    } else {
      assert earlier + [] == earlier;
    }
  }

  // Whatever stands between the commas, with white space anywhere and any bytes in the
  // values: the first eight allowed labels come back in order, each with what arrives of
  // its value, and what is no label takes nothing from them.
  lemma SegmentsRoundTrip(gs: seq<Segment>, allow: string -> bool)
    requires forall i :: 0 <= i < |gs| ==> Proper(gs[i])
    ensures Labels(RenderSegments(gs), allow) == Wanted(LabelsIn(gs), allow)
  {
    if gs != [] {
      ScanSegments(gs, allow);
    } else {
      TrimSpaceTrims("");
    }
  }

  // As an exporter without white space writes them.
  function Tight(ls: seq<Label>): (gs: seq<Segment>)
    ensures |gs| == |ls| && forall i :: 0 <= i < |gs| ==> gs[i] == Given("", ls[i], "", "", "")
  {
    seq(|ls|, i requires 0 <= i < |ls| => Given("", ls[i], "", "", ""))
  }

  lemma TightRendered(l: Label)
    ensures RenderSegment(Given("", l, "", "", "")) == Quoted(l)
  {
    hide Escape;
    assert "" + l.name + "" == l.name;
    assert l.name + "=" + "" + "\"" == l.name + "=\"";
    assert Quoted(l) + "" == Quoted(l);
  }

  lemma {:induction false} TightRenders(ls: seq<Label>)
    ensures RenderSegments(Tight(ls)) == RenderLabels(ls)
  {
    hide RenderSegment, Quoted;
    if ls != [] {
      var gs, earlier, last := Tight(ls), ls[..|ls| - 1], ls[|ls| - 1];
      TightRenders(earlier);
      assert gs[..|gs| - 1] == Tight(earlier);
      TightRendered(last);
      hide Tight;
    }
  }

  lemma {:induction false} TightLabels(ls: seq<Label>)
    ensures LabelsIn(Tight(ls)) == ls
  {
    if ls != [] {
      TightLabels(ls[..|ls| - 1]);
      assert Tight(ls)[..|ls| - 1] == Tight(ls[..|ls| - 1]);
    }
  }

  // Whatever bytes the values hold, the first eight allowed labels come back in order,
  // each with what arrives of its value.
  lemma LabelsRoundTrip(ls: seq<Label>, allow: string -> bool)
    requires forall i :: 0 <= i < |ls| ==> WellFormed(ls[i])
    ensures Labels(RenderLabels(ls), allow) == Wanted(ls, allow)
  {
    TightRenders(ls);
    TightLabels(ls);
    hide Labels, RenderLabels, RenderSegments, Wanted;
    SegmentsRoundTrip(Tight(ls), allow);
  }

  // ---------------------------------------------------------------------
  // When nothing is changed on the way
  // ---------------------------------------------------------------------

  // Quotes, backslashes, commas, equals signs and closing braces are all harmless.
  predicate Unharmed(value: string) { value != "" && Trimmed(value) && Free(value, {'|', '\r', '\n'}) }

  lemma UnharmedArrives(value: string)
    ensures Unharmed(value) ==> Arrival(value) == value
    ensures Arrival(value) == value != "" ==> Unharmed(value)
  {
    hide TrimSpace;
    var c := CleanAll(Unescaped(value));
    TrimSpaceTrims(c);
    assert Free(c, {'|', '\r', '\n'});
    TrimSpaceFree(c, {'|', '\r', '\n'});
    if Unharmed(value) {
      forall i | 0 <= i < |value| ensures c[i] == value[i] { assert value[i] !in {'|', '\r', '\n'}; }
      assert c == value;
    }
  }

  function Pairs(ls: seq<Label>): seq<string> {
    if ls == [] then [] else Pairs(ls[..|ls| - 1]) + [ls[|ls| - 1].name + "=" + ls[|ls| - 1].value]
  }

  lemma {:induction false} PairsSize(ls: seq<Label>, allow: string -> bool)
    ensures |Pairs(ls)| == |ls| && |Wanted(ls, allow)| <= |ls|
  {
    if ls != [] {
      PairsSize(ls[..|ls| - 1], allow);
    }
  }

  lemma SamePair(name: string, a: string, b: string)
    ensures name + "=" + a == name + "=" + b <==> a == b
  {
    var lead := name + "=";
    assert (lead + a)[|lead|..] == a && (lead + b)[|lead|..] == b;
  }

  lemma KeepsExactly(kept: seq<string>, pairs: seq<string>, l: Label, allow: string -> bool)
    requires l.name != "workload" && allow(l.name) && |kept| <= |pairs| < MaxLabelsPerSample
    ensures Keep(kept, l, allow) == pairs + [l.name + "=" + l.value] <==> kept == pairs && Unharmed(l.value)
  {
    hide Arrival, Unharmed;
    UnharmedArrives(l.value);
    SamePair(l.name, Arrival(l.value), l.value);
    EmptyHarmed();
    var pair, got := l.name + "=" + l.value, l.name + "=" + Arrival(l.value);
    SnocSame(kept, pairs, got, pair);
  }

  lemma SnocSame(a: seq<string>, b: seq<string>, x: string, y: string)
    ensures a + [x] == b + [y] <==> a == b && x == y
  {
    if a + [x] == b + [y] {
      assert a == (a + [x])[..|a|] && b == (b + [y])[..|b|];
      assert (a + [x])[|a|] == x && (b + [y])[|b|] == y;
    }
  }

  lemma EmptyHarmed()
    ensures !Unharmed("")
  {
  }

  // At the parser: up to eight allowed labels come back exactly as they were written
  // if and only if each value is non-empty, has no white space at its ends, and holds
  // no bar, carriage return or newline.
  lemma {:induction false} LabelsReturnExactly(ls: seq<Label>, allow: string -> bool)
    requires |ls| <= MaxLabelsPerSample
    requires forall i :: 0 <= i < |ls| ==> WellFormed(ls[i]) && ls[i].name != "workload" && allow(ls[i].name)
    ensures Labels(RenderLabels(ls), allow) == Pairs(ls) <==> forall i :: 0 <= i < |ls| ==> Unharmed(ls[i].value)
  {
    hide Labels, RenderLabels, Keep, Unharmed, WellFormed;
    LabelsRoundTrip(ls, allow);
    if ls != [] {
      var earlier, last := ls[..|ls| - 1], ls[|ls| - 1];
      LabelsReturnExactly(earlier, allow);
      LabelsRoundTrip(earlier, allow);
      PairsSize(earlier, allow);
      KeepsExactly(Wanted(earlier, allow), Pairs(earlier), last, allow);
      assert ls == earlier + [last];
    }
  }

  // A value with a bar, and one with a newline as an exporter writes it.
  lemma HarmedByBar(allow: string -> bool)
    requires allow("k")
    ensures Labels("k=\"a|b\"", allow) == ["k=a_b"]
  {
    hide Labels;
    assert CleanAll(Unescaped("a|b")) == "a_b";
    hide CleanAll, Unescaped;
    assert EscapeByte('a') == "a" && EscapeByte('|') == "|" && EscapeByte('b') == "b";
    assert "a|b" == "a" + "|" + "b";
    HarmedValue("a|b", "a|b", "a_b", allow);
    assert "k=\"" + "a|b" + "\"" == "k=\"a|b\"" && "k=" + "a_b" == "k=a_b";
  }

  lemma HarmedByReturn(allow: string -> bool)
    requires allow("k")
    ensures Labels("k=\"a\rb\"", allow) == ["k=a b"]
  {
    hide Labels;
    assert CleanAll(Unescaped("a\rb")) == "a b";
    hide CleanAll, Unescaped;
    assert EscapeByte('a') == "a" && EscapeByte('\r') == "\r" && EscapeByte('b') == "b";
    assert "a\rb" == "a" + "\r" + "b";
    HarmedValue("a\rb", "a\rb", "a b", allow);
    assert "k=\"" + "a\rb" + "\"" == "k=\"a\rb\"" && "k=" + "a b" == "k=a b";
  }

  lemma HarmedByNewline(allow: string -> bool)
    requires allow("k")
    ensures Labels("k=\"a\\nb\"", allow) == ["k=anb"]
  {
    hide Labels;
    assert CleanAll(Unescaped("a\nb")) == "anb";
    hide CleanAll, Unescaped;
    assert EscapeByte('a') == "a" && EscapeByte('\n') == "\\n" && EscapeByte('b') == "b";
    assert "a\\nb" == "a" + "\\n" + "b";
    HarmedValue("a\nb", "a\\nb", "anb", allow);
    assert "k=\"" + "a\\nb" + "\"" == "k=\"a\\nb\"" && "k=" + "anb" == "k=anb";
  }

  lemma HarmedValue(value: string, escaped: string, arrives: string, allow: string -> bool)
    requires allow("k") && |value| == 3 && escaped == EscapeByte(value[0]) + EscapeByte(value[1]) + EscapeByte(value[2])
    requires arrives == CleanAll(Unescaped(value)) && Trimmed(arrives) && arrives != ""
    ensures Labels("k=\"" + escaped + "\"", allow) == ["k=" + arrives]
  {
    hide Labels, TrimSpace, CleanAll, Unescaped, EscapeByte;
    var l := Label("k", value);
    EscapeThree(value);
    assert Quoted(l) == "k=\"" + escaped + "\"";
    assert RenderLabels([l]) == Quoted(l);
    LabelsRoundTrip([l], allow);
    TrimSpaceTrims(arrives);
    assert [l][..0] == [];
    assert Wanted([], allow) == [];
    assert l.name + "=" + Arrival(value) == "k=" + arrives;
  }

  lemma EscapeThree(value: string)
    requires |value| == 3
    ensures Escape(value) == EscapeByte(value[0]) + EscapeByte(value[1]) + EscapeByte(value[2])
  {
    hide EscapeByte;
    assert value[..2][..1] == value[..1] && value[..1][..0] == "";
    assert Escape("") == "";
    assert Escape(value[..1]) == EscapeByte(value[0]);
    assert Escape(value[..2]) == EscapeByte(value[0]) + EscapeByte(value[1]);
  }
}
