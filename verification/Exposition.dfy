/**
 Reading a document in the Prometheus text format, and the proof that a document
 an exporter writes comes back as the samples it was written from.
 */
module Exposition {
  import opened Text
  import opened Wrappers
  import opened PromLabels

  // A document line may not reach the scanner's buffer size.
  const MaxLineBytes: nat := 1024 * 1024

  datatype Sample = Sample(name: string, labels: seq<string>, value: real, kind: string)

  datatype ScanError = LineTooLong

  type FloatParser = string -> Option<real>
  type Allow = string -> bool

  const NameEnd: set<char> := {'{', ' ', '\t'}

  // The labels and what follows them, given the part of a line after the name;
  // None if the label set is not closed.
  function Braced(rest: string, allow: Allow): Option<(seq<string>, string)> {
    if "{" <= rest then
      var close := IndexByte(rest, '}');
      if close < 0 then None else Some((Labels(rest[1..close], allow), rest[close + 1..]))
    else Some(([], rest))
  }

  function SampleLine(line: string, allow: Allow, pf: FloatParser): Option<Sample> {
    var nameEnd := IndexAny(line, NameEnd);
    if nameEnd < 0 then None
    else match Braced(line[nameEnd..], allow)
      case None => None
      case Some((labels, rest)) =>
        var fields := Fields(rest);
        if fields == [] then None
        else match pf(fields[0])
          case None => None
          case Some(v) => Some(Sample(line[..nameEnd], labels, v, ""))
  }

  function MetricFamily(name: string): string {
    if HasSuffix(name, "_bucket") then name[..|name| - 7]
    else if HasSuffix(name, "_sum") then name[..|name| - 4]
    else if HasSuffix(name, "_count") then name[..|name| - 6]
    else name
  }

  datatype State = State(types: map<string, string>, out: seq<Sample>)

  function KindOf(types: map<string, string>, name: string): string {
    if MetricFamily(name) in types then types[MetricFamily(name)] else ""
  }

  function DropsBucket(kind: string, name: string): bool { kind == "histogram" && HasSuffix(name, "_bucket") }

  function Take(s: State, raw: string, allow: Allow, pf: FloatParser): State {
    var line := TrimSpace(raw);
    if line == "" then s
    else if "#" <= line then
      var fields := Fields(line);
      if |fields| >= 4 && fields[1] == "TYPE" then s.(types := s.types[fields[2] := ToLower(fields[3])]) else s
    else match SampleLine(line, allow, pf)
      case None => s
      case Some(parsed) =>
        var kind := KindOf(s.types, parsed.name);
        if DropsBucket(kind, parsed.name) then s else s.(out := s.out + [parsed.(kind := kind)])
  }

  function TakeAll(s: State, lines: seq<string>, allow: Allow, pf: FloatParser): State
    decreases lines
  {
    if lines == [] then s else TakeAll(Take(s, lines[0], allow, pf), lines[1..], allow, pf)
  }

  predicate Scannable(lines: seq<string>) { forall i :: 0 <= i < |lines| ==> |lines[i]| < MaxLineBytes }

  function Exposed(text: string, allow: Allow, pf: FloatParser): Result<seq<Sample>, ScanError> {
    var lines := Split(text, '\n');
    if Scannable(lines) then Ok(TakeAll(State(map[], []), lines, allow, pf).out) else Err(LineTooLong)
  }

  method ParseSampleLine(line: string, allow: Allow, pf: FloatParser) returns (r: Option<Sample>)
    ensures r == SampleLine(line, allow, pf)
  {
    hide Fields, IndexAny, IndexByte, Labels;
    var nameEnd := IndexAny(line, NameEnd);
    if nameEnd < 0 {
      return None;
    }
    var name, rest := line[..nameEnd], line[nameEnd..];
    var labels := [];
    if "{" <= rest {
      var close := IndexByte(rest, '}');
      if close < 0 {
        return None;
      }
      labels := ParseLabels(rest[1..close], allow);
      rest := rest[close + 1..];
    }
    var fields := Fields(rest);
    if fields == [] {
      return None;
    }
    var value := pf(fields[0]);
    if value.None? {
      return None;
    }
    return Some(Sample(name, labels, value.value, ""));
  }

  method ParseExposition(text: string, allow: Allow, pf: FloatParser) returns (r: Result<seq<Sample>, ScanError>)
    ensures r == Exposed(text, allow, pf)
  {
    hide SampleLine, Fields, TrimSpace, Split, MetricFamily, HasSuffix, ToLower;
    var lines := Split(text, '\n');
    var types: map<string, string>, out: seq<Sample> := map[], [];
    for i := 0 to |lines|
      invariant Scannable(lines[..i])
      invariant TakeAll(State(map[], []), lines, allow, pf) == TakeAll(State(types, out), lines[i..], allow, pf)
    {
      if |lines[i]| >= MaxLineBytes {
        return Err(LineTooLong);
      }
      assert lines[i..][0] == lines[i] && lines[i..][1..] == lines[i + 1..];
      var line := TrimSpace(lines[i]);
      if line == "" {
        continue;
      }
      if "#" <= line {
        var fields := Fields(line);
        if |fields| >= 4 && fields[1] == "TYPE" {
          types := types[fields[2] := ToLower(fields[3])];
        }
        continue;
      }
      var parsed := ParseSampleLine(line, allow, pf);
      if parsed.None? {
        continue;
      }
      var family := MetricFamily(parsed.value.name);
      var kind := if family in types then types[family] else "";
      if kind == "histogram" && HasSuffix(parsed.value.name, "_bucket") {
        continue;
      }
      out := out + [parsed.value.(kind := kind)];
    }
    assert lines[|lines|..] == [];
    return Ok(out);
  }

  // ---------------------------------------------------------------------
  // Documents
  // ---------------------------------------------------------------------

  datatype Suffix = Plainly | Sum | Count | Bucket

  function SuffixText(s: Suffix): string {
    match s
    case Plainly => ""
    case Sum => "_sum"
    case Count => "_count"
    case Bucket => "_bucket"
  }

  // Blanks or tabs stand before the number, and a timestamp may follow it.
  datatype Point = Point(suffix: Suffix, labels: seq<Segment>, gap: string, number: string, stamp: string)

  // Lines that say nothing: gaps, comments, and samples without a value, with an open
  // label set, or with a value that is no number.
  datatype Note =
    | Gap(space: string)
    | Help(text: string)
    | Word(series: string)
    | Unclosed(series: string, text: string)
    | NoNumber(series: string, word: string)

  // The samples of one family, after its TYPE line if it has one.
  datatype Family = Family(notes: seq<Note>, name: string, kind: Option<string>, points: seq<Point>)

  predicate Token(s: string) { s != "" && Free(s, Spaces) }

  predicate PointOk(p: Point, pf: FloatParser) {
    && p.gap != "" && (forall i :: 0 <= i < |p.gap| ==> p.gap[i] in {' ', '\t'})
    && Token(p.number) && pf(p.number).Some? && (p.stamp == "" || Token(p.stamp))
    && (forall i :: 0 <= i < |p.labels| ==> Proper(p.labels[i]))
    && Free(RenderSegments(p.labels), {'}', '\n'})
  }

  predicate Series(name: string) { name != "" && name[0] != '#' && Free(name, NameEnd + Spaces) }

  predicate NoteOk(n: Note, pf: FloatParser) {
    match n
    case Gap(space) => Blank(space) && '\n' !in space
    case Help(text) => '\n' !in text
    case Word(series) => Series(series)
    case Unclosed(series, text) => Series(series) && Free(text, {'}', '\n'})
    case NoNumber(series, word) => Series(series) && Token(word) && pf(word) == None
  }

  predicate NameOk(name: string) {
    && Token(name) && name[0] != '#' && Free(name, {'{'})
    && !HasSuffix(name, "_sum") && !HasSuffix(name, "_count") && !HasSuffix(name, "_bucket")
  }

  predicate FamilyOk(f: Family, pf: FloatParser) {
    && NameOk(f.name) && (f.kind.Some? ==> Token(f.kind.value))
    && (forall i :: 0 <= i < |f.notes| ==> NoteOk(f.notes[i], pf))
    && forall i :: 0 <= i < |f.points| ==> PointOk(f.points[i], pf)
  }

  function Braces(p: Point): string { if p.labels == [] then "" else "{" + RenderSegments(p.labels) + "}" }

  function NumberText(p: Point): string { p.gap + (p.number + StampText(p)) }

  function StampText(p: Point): string { if p.stamp == "" then "" else " " + p.stamp }

  function PointLine(name: string, p: Point): string {
    name + SuffixText(p.suffix) + (Braces(p) + NumberText(p))
  }

  function TypeLine(name: string, kind: string): string { "# TYPE " + name + " " + kind }

  function NoteLine(n: Note): string {
    match n
    case Gap(space) => space
    case Help(text) => "# HELP " + text
    case Word(series) => series
    case Unclosed(series, text) => series + "{" + text
    case NoNumber(series, word) => series + (" " + word)
  }

  function NoteLines(notes: seq<Note>): seq<string> {
    if notes == [] then [] else [NoteLine(notes[0])] + NoteLines(notes[1..])
  }

  function TypeLines(f: Family): seq<string> {
    if f.kind.Some? then [TypeLine(f.name, f.kind.value)] else []
  }

  function PointLines(name: string, points: seq<Point>): seq<string> {
    if points == [] then [] else [PointLine(name, points[0])] + PointLines(name, points[1..])
  }

  function LinesOf(f: Family): seq<string> { NoteLines(f.notes) + TypeLines(f) + PointLines(f.name, f.points) }

  function FamilyLines(fs: seq<Family>): seq<string> {
    if fs == [] then [] else LinesOf(fs[0]) + FamilyLines(fs[1..])
  }

  function Reading(pf: FloatParser, number: string): real {
    match pf(number) case Some(v) => v case None => 0.0
  }

  // What should come back: every point in order, but for buckets of histograms.
  function PointSamples(name: string, kind: string, points: seq<Point>, allow: Allow, pf: FloatParser): seq<Sample> {
    if points == [] then []
    else PointSample(name, kind, points[0], allow, pf) + PointSamples(name, kind, points[1..], allow, pf)
  }

  function PointSample(name: string, kind: string, p: Point, allow: Allow, pf: FloatParser): seq<Sample> {
    if kind == "histogram" && p.suffix == Bucket then []
    else [Sample(name + SuffixText(p.suffix), Wanted(LabelsIn(p.labels), allow), Reading(pf, p.number), kind)]
  }

  function Declared(types: map<string, string>, f: Family): map<string, string> {
    if f.kind.Some? then types[f.name := ToLower(f.kind.value)] else types
  }

  // A family's kind is the one its name was last declared with, in lower case, or none.
  function KnownKind(types: map<string, string>, name: string): string { if name in types then types[name] else "" }

  function FamilySamples(types: map<string, string>, fs: seq<Family>, allow: Allow, pf: FloatParser): seq<Sample>
    decreases |fs|
  {
    if fs == [] then []
    else
      var f, now := fs[0], Declared(types, fs[0]);
      PointSamples(f.name, KnownKind(now, f.name), f.points, allow, pf) + FamilySamples(now, fs[1..], allow, pf)
  }

  // --- one line ------------------------------------------------------------

  lemma SuffixIs(s: string, suffix: string)
    ensures HasSuffix(s + suffix, suffix) && (s + suffix)[..|s|] == s
  {
  }

  // A series belongs to the family its name was made from.
  lemma FamilyOfPoint(name: string, suffix: Suffix)
    requires NameOk(name)
    ensures MetricFamily(name + SuffixText(suffix)) == name
    ensures HasSuffix(name + SuffixText(suffix), "_bucket") <==> suffix == Bucket
  {
    var series := name + SuffixText(suffix);
    SuffixIs(name, SuffixText(suffix));
    if suffix == Plainly {
      assert series == name;
    } else {
      assert series[|series| - 1] == SuffixText(suffix)[|SuffixText(suffix)| - 1];
      assert HasSuffix(series, "_bucket") ==> series[|series| - 1] == 't' && series[|series| - 2] == 'e';
      assert HasSuffix(series, "_sum") ==> series[|series| - 1] == 'm';
      assert suffix == Count ==> series[|series| - 2] == 'n';
    }
  }

  lemma BracedSet(text: string, rest: string, allow: Allow)
    requires Free(text, {'}'})
    ensures Braced("{" + text + "}" + rest, allow) == Some((Labels(text, allow), rest))
  {
    hide Labels, IndexAny;
    var front, back := "{" + text, "}" + rest;
    var all := front + back;
    assert all == "{" + text + "}" + rest;
    FreeConcat("{", text, {'}'});
    hide Free;
    IndexAnyAfter(front, back, {'}'});
    assert all[1..|front|] == text;
    assert all[|front| + 1..] == rest;
  }

  lemma BracedPoint(p: Point, rest: string, allow: Allow, pf: FloatParser)
    requires PointOk(p, pf) && rest != "" && rest[0] in {' ', '\t'}
    ensures Braced(Braces(p) + rest, allow) == Some((Wanted(LabelsIn(p.labels), allow), rest))
  {
    if p.labels == [] {
      assert "" + rest == rest;
    } else {
      SetFree(p, pf);
      hide Braced, RenderSegments, Labels, Free, PointOk;
      BracedSet(RenderSegments(p.labels), rest, allow);
      SegmentsRoundTrip(p.labels, allow);
    }
  }

  lemma SetFree(p: Point, pf: FloatParser)
    requires PointOk(p, pf)
    ensures Free(RenderSegments(p.labels), {'}'}) && Free(RenderSegments(p.labels), {'\n'})
  {
    hide RenderSegments;
  }

  // In general the set ends at the first closing brace, quoted or not.
  lemma BraceEndsSet(text: string, rest: string, allow: Allow)
    ensures var all := "{" + text + "}" + rest;
            var i := IndexByte(text + "}", '}');
            0 <= i <= |text| && Braced(all, allow) == Some((Labels(text[..i], allow), all[i + 2..]))
  {
    var i := IndexByte(text + "}", '}');
    assert (text + "}")[|text|] == '}';
    assert i <= |text|;
    var all := "{" + text + "}" + rest;
    var front, back := "{" + text[..i], all[i + 1..];
    assert all == front + back;
    assert all[i + 1] == (text + "}")[i];
    assert Free(text[..i], {'}'}) by {
      forall j | 0 <= j < i ensures text[..i][j] !in {'}'} { assert text[j] == (text + "}")[j]; }
    }
    FreeConcat("{", text[..i], {'}'});
    IndexAnyAfter(front, back, {'}'});
    assert all[1..i + 1] == text[..i];
  }

  // So a set comes back from its line if and only if it holds no closing brace.
  lemma BraceEndsExactly(text: string, rest: string, allow: Allow)
    ensures Braced("{" + text + "}" + rest, allow) == Some((Labels(text, allow), rest)) <==> Free(text, {'}'})
  {
    hide Braced, Labels;
    var i := IndexByte(text + "}", '}');
    var all := "{" + text + "}" + rest;
    BraceEndsSet(text, rest, allow);
    if Free(text, {'}'}) {
      BracedSet(text, rest, allow);
    } else {
      var j :| 0 <= j < |text| && text[j] == '}';
      assert (text + "}")[j] == '}';
      assert |all[i + 2..]| > |rest|;
    }
  }

  // The rest of a line after the first brace in its label set.
  function AfterBrace(text: string, rest: string): string
    requires '}' in text
  {
    text[IndexByte(text, '}') + 1..] + "}" + rest
  }

  lemma FirstBraceOf(text: string)
    requires '}' in text
    ensures IndexByte(text + "}", '}') == IndexByte(text, '}')
  {
    hide IndexAny;
    var i, j := IndexByte(text, '}'), IndexByte(text + "}", '}');
    assert (text + "}")[i] == '}' && forall k :: 0 <= k < i ==> (text + "}")[k] == text[k];
  }

  lemma BracedEarly(text: string, rest: string, allow: Allow)
    requires '}' in text
    ensures Braced("{" + text + "}" + rest, allow)
         == Some((Labels(text[..IndexByte(text, '}')], allow), AfterBrace(text, rest)))
    ensures Fields(AfterBrace(text, rest)) != []
  {
    hide Labels, Braced, Fields, IndexAny;
    FirstBraceOf(text);
    BraceEndsSet(text, rest, allow);
    var i := IndexByte(text, '}');
    var all, after := "{" + text + "}" + rest, AfterBrace(text, rest);
    assert all[i + 2..] == after;
    assert after[|text| - i - 1] == '}';
    FieldsNotEmpty(after, |text| - i - 1);
  }

  // A line whose label set holds a brace: the sample is lost if and only if the first
  // word after that brace is no number; otherwise it is published with that number,
  // which may come from inside a label value, and the labels before the brace.
  lemma BracedSampleExactly(name: string, text: string, rest: string, allow: Allow, pf: FloatParser)
    requires Free(name, NameEnd) && '}' in text
    ensures var words := Fields(AfterBrace(text, rest));
            && words != []
            && SampleLine(name + ("{" + text + "}" + rest), allow, pf)
               == match pf(words[0])
                  case None => None
                  case Some(v) => Some(Sample(name, Labels(text[..IndexByte(text, '}')], allow), v, ""))
  {
    hide Labels, Braced, Fields, IndexAny, AfterBrace;
    var set_ := "{" + text + "}" + rest;
    BracedEarly(text, rest, allow);
    IndexAnyAfter(name, set_, NameEnd);
    assert (name + set_)[..|name|] == name && (name + set_)[|name|..] == set_;
  }

  // A sample is published with the number 5, which stood inside its label value.
  lemma BraceTakesNumber(allow: Allow, pf: FloatParser, v: real)
    requires pf("5") == Some(v)
    ensures SampleLine("m{k=\"} 5 \"} 1", allow, pf) == Some(Sample("m", Labels("k=\"", allow), v, ""))
  {
    hide Labels, SampleLine, IndexAny;
    var text := "k=\"} 5 \"";
    BraceAtThree();
    assert text[..3] == "k=\"" && text[4..] == " 5 \"";
    assert "m" + ("{" + text + "}" + " 1") == "m{k=\"} 5 \"} 1";
    assert AfterBrace(text, " 1") == " " + ("5" + " " + "\"} 1");
    NumberLeads();
    BracedSampleExactly("m", text, " 1", allow, pf);
  }

  lemma BraceAtThree()
    ensures '}' in "k=\"} 5 \"" && IndexByte("k=\"} 5 \"", '}') == 3
  {
    var s := "k=\"} 5 \"";
    assert s[0] == 'k' && s[1] == '=' && s[2] == '"' && s[3] == '}';
    hide IndexByte, IndexAny;
    var i := IndexByte(s, '}');
    assert i >= 0;
  }

  lemma NumberLeads()
    ensures var fields := Fields(" " + ("5" + " " + "\"} 1")); fields != [] && fields[0] == "5"
  {
    FieldsFirst("5", "\"} 1");
    var s := " " + ("5" + " " + "\"} 1");
    assert s[1..] == "5" + " " + "\"} 1";
  }

  const BraceLine: string := "m{k=\"}\"} 1"

  lemma BraceLineWritten()
    ensures PointLine("m", Point(Plainly, [Given("", Label("k", "}"), "", "", "")], " ", "1", "")) == BraceLine
  {
    hide Escape;
    OneBrace();
    var g := Given("", Label("k", "}"), "", "", "");
    assert RenderSegment(g) == "k=\"}\"" && RenderSegments([g]) == RenderSegment(g);
    hide RenderSegments, RenderSegment;
    assert "m" + "" + (("{" + "k=\"}\"" + "}") + (" " + ("1" + ""))) == BraceLine;
  }

  lemma OneBrace()
    ensures Escape("}") == "}"
  {
    assert "}"[..0] == "" && Escape("") == "";
  }

  lemma FirstBrace()
    ensures IndexByte("k=\"}\"}", '}') == 3
  {
    var s := "k=\"}\"}";
    assert s[0] == 'k' && s[1] == '=' && s[2] == '"' && s[3] == '}';
    hide IndexByte, IndexAny;
    var i := IndexByte(s, '}');
    assert i >= 0;
  }

  lemma BraceCut(allow: Allow)
    ensures Braced("{k=\"}\"} 1", allow) == Some((Labels("k=\"", allow), "\"} 1"))
  {
    hide Labels, Braced, IndexByte;
    var text := "k=\"}\"";
    assert text + "}" == "k=\"}\"}" && text[..3] == "k=\"";
    assert "{" + text + "}" + " 1" == "{k=\"}\"} 1" && "{k=\"}\"} 1"[5..] == "\"} 1";
    FirstBrace();
    BraceEndsSet(text, " 1", allow);
  }

  // A sample whose one label value is a brace: what is left after the first brace
  // starts with no number, and the whole sample is lost.
  lemma BraceLosesSample(allow: Allow, pf: FloatParser)
    requires pf("\"}") == None
    ensures SampleLine(BraceLine, allow, pf) == None
  {
    hide Labels, Braced, Fields, IndexAny;
    BraceCut(allow);
    assert BraceLine == "m" + "{k=\"}\"} 1" && BraceLine[1..] == "{k=\"}\"} 1";
    IndexAnyAfter("m", "{k=\"}\"} 1", NameEnd);
    assert "\"}" + " " + "1" == "\"} 1";
    FieldsFirst("\"}", "1");
  }

  // And a family keeps its own name only if it has none of the three suffixes.
  lemma FamilyKeepsName(name: string)
    ensures MetricFamily(name) == name <==>
            !HasSuffix(name, "_bucket") && !HasSuffix(name, "_sum") && !HasSuffix(name, "_count")
  {
    assert |MetricFamily(name)| == |name| <==>
           !HasSuffix(name, "_bucket") && !HasSuffix(name, "_sum") && !HasSuffix(name, "_count");
  }

  // So, in whatever is declared, a series is given the kind declared under its own name
  // if and only if it has no such suffix, or the name without it is declared alike.
  lemma KindFoundExactly(types: map<string, string>, name: string)
    requires name in types && types[name] != ""
    ensures KindOf(types, name) == types[name] <==>
            || (!HasSuffix(name, "_bucket") && !HasSuffix(name, "_sum") && !HasSuffix(name, "_count"))
            || (MetricFamily(name) in types && types[MetricFamily(name)] == types[name])
  {
    hide HasSuffix, MetricFamily;
    FamilyKeepsName(name);
  }

  // A counter called "x_sum" loses its kind.
  lemma SumLosesKind()
    ensures KindOf(map["x_sum" := "counter"], "x_sum") == ""
  {
    SuffixIs("x", "_sum");
    assert "x" + "_sum" == "x_sum" && !HasSuffix("x_sum", "_bucket");
    hide HasSuffix;
    assert "x_sum"[..1] == "x";
  }

  // A gauge called "x_bucket" beside a histogram called "x" is dropped.
  lemma GaugeDropped()
    ensures var types := map["x" := "histogram", "x_bucket" := "gauge"];
            KindOf(types, "x_bucket") == "histogram" && DropsBucket(KindOf(types, "x_bucket"), "x_bucket")
  {
    SuffixIs("x", "_bucket");
    assert "x" + "_bucket" == "x_bucket";
    hide HasSuffix;
    assert "x_bucket"[..1] == "x";
  }

  // Only the first word after the labels is read.
  lemma NumberField(p: Point, pf: FloatParser)
    requires PointOk(p, pf)
    ensures Fields(NumberText(p)) != [] && Fields(NumberText(p))[0] == p.number
  {
    hide RenderSegments;
    GapBlank(p, pf);
    FieldsAfter(p.gap, p.number + StampText(p));
    if p.stamp == "" {
      assert p.number + StampText(p) == p.number;
      FieldsOne(p.number);
    } else {
      assert p.number + StampText(p) == p.number + " " + p.stamp;
      FieldsFirst(p.number, p.stamp);
    }
  }

  lemma GapBlank(p: Point, pf: FloatParser)
    requires PointOk(p, pf)
    ensures Blank(p.gap) && Free(p.gap, {'\n'}) && NumberText(p) != "" && NumberText(p)[0] in {' ', '\t'}
  {
    hide RenderSegments;
    forall c | c in p.gap ensures IsSpace(c) {}
  }

  lemma PointParses(name: string, p: Point, allow: Allow, pf: FloatParser)
    requires NameOk(name) && PointOk(p, pf)
    ensures SampleLine(PointLine(name, p), allow, pf)
         == Some(Sample(name + SuffixText(p.suffix), Wanted(LabelsIn(p.labels), allow), Reading(pf, p.number), ""))
  {
    var series, after := name + SuffixText(p.suffix), NumberText(p);
    var rest := Braces(p) + after;
    assert PointLine(name, p) == series + rest;
    NameFree(name, p.suffix);
    GapBlank(p, pf);
    BracedPoint(p, after, allow, pf);
    NumberField(p, pf);
    BracesStart(p, after);
    ReadingOf(p, pf);
    hide NameOk, PointOk, Braced, Fields, IndexAny, Braces, SuffixText, NumberText, PointLine;
    IndexAnyAfter(series, rest, NameEnd);
    assert (series + rest)[..|series|] == series && (series + rest)[|series|..] == rest;
  }

  lemma ReadingOf(p: Point, pf: FloatParser)
    requires PointOk(p, pf)
    ensures pf(p.number) == Some(Reading(pf, p.number))
  {
    hide RenderSegments;
  }

  lemma BracesStart(p: Point, after: string)
    requires after != "" && after[0] in {' ', '\t'}
    ensures var rest := Braces(p) + after; rest != "" && rest[0] in NameEnd
  {
    hide RenderSegments;
  }

  lemma NameFree(name: string, suffix: Suffix)
    requires NameOk(name)
    ensures Free(name + SuffixText(suffix), NameEnd + Spaces)
    ensures Free(name + SuffixText(suffix), NameEnd) && Free(name + SuffixText(suffix), {'\n'})
  {
    FreeConcat(name, SuffixText(suffix), NameEnd + Spaces);
  }

  lemma BracesFree(p: Point, pf: FloatParser)
    requires PointOk(p, pf)
    ensures Free(Braces(p), {'\n'})
  {
    SetFree(p, pf);
    hide RenderSegments, PointOk;
    FreeConcat("{", RenderSegments(p.labels), {'\n'});
    FreeConcat("{" + RenderSegments(p.labels), "}", {'\n'});
  }

  lemma NumberEnds(p: Point, pf: FloatParser)
    requires PointOk(p, pf)
    ensures var after := NumberText(p);
            Free(after, {'\n'}) && after != "" && !IsSpace(after[|after| - 1])
  {
    hide RenderSegments;
    var after := NumberText(p);
    GapBlank(p, pf);
    FreeConcat(p.number, StampText(p), {'\n'});
    FreeConcat(p.gap, p.number + StampText(p), {'\n'});
    assert after[|after| - 1] == if p.stamp == "" then p.number[|p.number| - 1] else p.stamp[|p.stamp| - 1];
  }

  lemma PointTrimmed(name: string, p: Point, pf: FloatParser)
    requires NameOk(name) && PointOk(p, pf)
    ensures var line := PointLine(name, p);
            TrimSpace(line) == line && line != "" && !("#" <= line) && '\n' !in line
  {
    var series, after := name + SuffixText(p.suffix), NumberText(p);
    var line := PointLine(name, p);
    NameFree(name, p.suffix);
    BracesFree(p, pf);
    NumberEnds(p, pf);
    assert line == series + (Braces(p) + after);
    assert line[0] == name[0] && line[|line| - 1] == after[|after| - 1];
    hide PointOk, Braces, NumberText, SuffixText, PointLine;
    TrimSpaceTrims(line);
    FreeConcat(Braces(p), after, {'\n'});
    FreeConcat(series, Braces(p) + after, {'\n'});
    assert Free(line, {'\n'});
  }

  // A point is taken with the kind its family is known by, or dropped if it is a bucket
  // of a histogram; a family never declared has none.
  lemma PointTaken(s: State, name: string, p: Point, allow: Allow, pf: FloatParser)
    requires NameOk(name) && PointOk(p, pf)
    ensures var kind := if name in s.types then s.types[name] else "";
            Take(s, PointLine(name, p), allow, pf) ==
            if kind == "histogram" && p.suffix == Bucket then s
            else s.(out := s.out + [Sample(name + SuffixText(p.suffix), Wanted(LabelsIn(p.labels), allow),
                                           Reading(pf, p.number), kind)])
  {
    hide PointLine, SampleLine, NameOk, PointOk, TrimSpace, MetricFamily, HasSuffix, SuffixText, Reading;
    PointTrimmed(name, p, pf);
    PointParses(name, p, allow, pf);
    FamilyOfPoint(name, p.suffix);
  }

  lemma TypeFields(name: string, kind: string)
    requires Token(name) && Token(kind)
    ensures Fields(TypeLine(name, kind)) == ["#", "TYPE", name, kind]
  {
    hide Fields;
    assert TypeLine(name, kind) == "#" + " " + ("TYPE" + " " + (name + " " + kind));
    FieldsFirst("#", "TYPE" + " " + (name + " " + kind));
    FieldsFirst("TYPE", name + " " + kind);
    FieldsFirst(name, kind);
    FieldsOne(kind);
  }

  lemma TokenIsLine(s: string)
    requires Token(s)
    ensures Free(s, {'\n'})
    ensures Free("# TYPE ", {'\n'}) && Free(" ", {'\n'})
  {
  }

  lemma FreeOfNewline(s: string)
    requires Free(s, {'\n'})
    ensures '\n' !in s
  {
  }

  lemma TypeEnds(name: string, kind: string)
    requires Token(kind)
    ensures var line := TypeLine(name, kind);
            Trimmed(line) && line != "" && "#" <= line
  {
    var line := "# TYPE " + name + " " + kind;
    assert line[0] == '#' && line[|line| - 1] == kind[|kind| - 1];
  }

  lemma TypeTrimmed(name: string, kind: string)
    requires Token(name) && Token(kind)
    ensures var line := TypeLine(name, kind);
            TrimSpace(line) == line && line != "" && "#" <= line && '\n' !in line
  {
    hide TrimSpace, Trimmed, Free;
    var line := TypeLine(name, kind);
    TokenIsLine(name);
    TokenIsLine(kind);
    TypeEnds(name, kind);
    hide Token;
    TrimSpaceTrims(line);
    FreeConcat("# TYPE ", name, {'\n'});
    FreeConcat("# TYPE " + name, " ", {'\n'});
    FreeConcat("# TYPE " + name + " ", kind, {'\n'});
    FreeOfNewline(line);
  }

  lemma TypeTaken(s: State, name: string, kind: string, allow: Allow, pf: FloatParser)
    requires Token(name) && Token(kind)
    ensures Take(s, TypeLine(name, kind), allow, pf) == s.(types := s.types[name := ToLower(kind)])
  {
    hide TypeLine, Fields, TrimSpace, SampleLine, ToLower;
    TypeTrimmed(name, kind);
    TypeFields(name, kind);
  }

  // A HELP line is one however it ends, and so no declaration.
  lemma HelpFields(kept: string)
    requires kept == "" || kept[0] == ' '
    ensures var fields := Fields("# HELP" + kept); |fields| >= 2 && fields[1] == "HELP"
  {
    hide Fields;
    assert "# HELP" + kept == "#" + " " + ("HELP" + kept);
    FieldsFirst("#", "HELP" + kept);
    if kept == "" {
      assert "HELP" + kept == "HELP";
      FieldsOne("HELP");
    } else {
      assert "HELP" + kept == "HELP" + " " + kept[1..];
      FieldsFirst("HELP", kept[1..]);
    }
  }

  lemma SeriesFree(name: string)
    requires Series(name)
    ensures Free(name, NameEnd) && Free(name, Spaces) && Free(name, {'\n'})
    ensures !IsSpace(name[0]) && !IsSpace(name[|name| - 1])
  {
  }

  lemma WordTaken(s: State, series: string, allow: Allow, pf: FloatParser)
    requires Series(series)
    ensures Take(s, series, allow, pf) == s
  {
    SeriesFree(series);
    assert series[0] != '#' && Trimmed(series);
    hide TrimSpace, Fields, Braced, IndexAny, Series, Free, Trimmed, IsSpace;
    TrimSpaceTrims(series);
    IndexAnyNone(series, NameEnd);
  }

  lemma UnclosedTaken(s: State, series: string, text: string, allow: Allow, pf: FloatParser)
    requires Series(series) && Free(text, {'}', '\n'})
    ensures Take(s, series + "{" + text, allow, pf) == s
  {
    SeriesFree(series);
    var front := series + "{";
    assert front[0] == series[0];
    hide TrimSpace, Fields, IndexAny, Series;
    var kept := EndTrims(front, text);
    var line := front + kept;
    assert line[0] == series[0];
    OpenSet(series, kept, allow, pf);
    hide SampleLine;
  }

  lemma OpenSet(series: string, kept: string, allow: Allow, pf: FloatParser)
    requires Free(series, NameEnd) && Free(kept, {'}', '\n'})
    ensures SampleLine(series + "{" + kept, allow, pf) == None
  {
    hide IndexAny, Fields;
    var rest := "{" + kept;
    assert series + "{" + kept == series + rest;
    IndexAnyAfter(series, rest, NameEnd);
    assert (series + rest)[|series|..] == rest;
    FreeConcat("{", kept, {'}'});
    IndexAnyNone(rest, {'}'});
  }

  lemma NoNumberTaken(s: State, series: string, word: string, allow: Allow, pf: FloatParser)
    requires Series(series) && Token(word) && pf(word) == None
    ensures Take(s, series + (" " + word), allow, pf) == s
  {
    SeriesFree(series);
    var rest := " " + word;
    var line := series + rest;
    assert line[0] == series[0] && line[|line| - 1] == word[|word| - 1];
    assert Trimmed(line) && line[0] != '#';
    hide TrimSpace, IndexAny, Fields, Series, Free, Trimmed;
    TrimSpaceTrims(line);
    IndexAnyAfter(series, rest, NameEnd);
    assert line[|series|..] == rest && rest[1..] == word;
    OneField(word);
  }

  lemma OneField(word: string)
    requires Token(word)
    ensures Fields(" " + word) == [word]
  {
    assert (" " + word)[1..] == word;
    FieldsOne(word);
  }

  lemma NoteIsLine(n: Note, pf: FloatParser)
    requires NoteOk(n, pf)
    ensures '\n' !in NoteLine(n)
  {
    match n
    case Gap(space) =>
    case Help(text) =>
    case Word(series) =>
      SeriesFree(series);
    case Unclosed(series, text) =>
      SeriesFree(series);
    case NoNumber(series, word) =>
      SeriesFree(series);
      TokenIsLine(word);
  }

  lemma NoteTaken(s: State, n: Note, allow: Allow, pf: FloatParser)
    requires NoteOk(n, pf)
    ensures Take(s, NoteLine(n), allow, pf) == s
  {
    match n
    case Word(series) =>
      WordTaken(s, series, allow, pf);
    case Unclosed(series, text) =>
      UnclosedTaken(s, series, text, allow, pf);
    case NoNumber(series, word) =>
      NoNumberTaken(s, series, word, allow, pf);
    case Gap(space) =>
      assert space + "" + "" == space;
      TrimSpaceIs(space, "", "");
    case Help(text) =>
      hide Fields, TrimSpace, SampleLine, ToLower;
      var kept := EndTrims("# HELP", " " + text);
      assert "# HELP" + (" " + text) == NoteLine(n);
      assert kept != "" ==> kept[0] == (" " + text)[0];
      HelpFields(kept);
  }

  // --- whole documents -----------------------------------------------------

  lemma {:induction false} TakeConcat(s: State, a: seq<string>, b: seq<string>, allow: Allow, pf: FloatParser)
    ensures TakeAll(s, a + b, allow, pf) == TakeAll(TakeAll(s, a, allow, pf), b, allow, pf)
    decreases a
  {
    hide Take;
    if a == [] {
      assert a + b == b;
    } else {
      TakeConcat(Take(s, a[0], allow, pf), a[1..], b, allow, pf);
      assert (a + b)[0] == a[0] && (a + b)[1..] == a[1..] + b;
    }
  }

  lemma PointAdded(s: State, name: string, p: Point, allow: Allow, pf: FloatParser)
    requires NameOk(name) && PointOk(p, pf)
    ensures Take(s, PointLine(name, p), allow, pf)
         == s.(out := s.out + PointSample(name, KnownKind(s.types, name), p, allow, pf))
  {
    hide Take, NameOk, PointOk, PointLine, Reading, SuffixText, Wanted, LabelsIn;
    PointTaken(s, name, p, allow, pf);
    assert s.out + [] == s.out;
  }

  lemma {:induction false} PointsTaken(s: State, name: string, points: seq<Point>, allow: Allow, pf: FloatParser)
    requires NameOk(name) && forall i :: 0 <= i < |points| ==> PointOk(points[i], pf)
    ensures TakeAll(s, PointLines(name, points), allow, pf)
         == s.(out := s.out + PointSamples(name, KnownKind(s.types, name), points, allow, pf))
    decreases points
  {
    hide Take, NameOk, PointOk, PointLine, PointSample, KnownKind;
    if points == [] {
      assert s.out + [] == s.out;
    } else {
      var kind, lines := KnownKind(s.types, name), PointLines(name, points);
      var t := Take(s, lines[0], allow, pf);
      PointAdded(s, name, points[0], allow, pf);
      assert lines[1..] == PointLines(name, points[1..]);
      PointsTaken(t, name, points[1..], allow, pf);
      Associative(s.out, PointSample(name, kind, points[0], allow, pf), PointSamples(name, kind, points[1..], allow, pf));
    }
  }

  lemma NothingTaken(s: State, allow: Allow, pf: FloatParser)
    ensures TakeAll(s, [], allow, pf) == s
  {
  }

  lemma OneTaken(s: State, line: string, allow: Allow, pf: FloatParser)
    ensures TakeAll(s, [line], allow, pf) == Take(s, line, allow, pf)
  {
    hide Take;
    assert [line][1..] == [];
  }

  lemma {:induction false} NotesTaken(s: State, notes: seq<Note>, allow: Allow, pf: FloatParser)
    requires forall i :: 0 <= i < |notes| ==> NoteOk(notes[i], pf)
    ensures TakeAll(s, NoteLines(notes), allow, pf) == s
    decreases notes
  {
    hide Take, NoteOk, NoteLine;
    if notes != [] {
      NoteTaken(s, notes[0], allow, pf);
      assert NoteLines(notes)[1..] == NoteLines(notes[1..]);
      NotesTaken(s, notes[1..], allow, pf);
    }
  }

  lemma FamilyParts(f: Family, pf: FloatParser)
    requires FamilyOk(f, pf)
    ensures NameOk(f.name) && Token(f.name) && (f.kind.Some? ==> Token(f.kind.value))
    ensures forall i :: 0 <= i < |f.notes| ==> NoteOk(f.notes[i], pf)
    ensures forall i :: 0 <= i < |f.points| ==> PointOk(f.points[i], pf)
  {
  }

  lemma TypesTaken(s: State, f: Family, allow: Allow, pf: FloatParser)
    requires Token(f.name) && (f.kind.Some? ==> Token(f.kind.value))
    ensures TakeAll(s, TypeLines(f), allow, pf) == s.(types := Declared(s.types, f))
  {
    hide Take, Token, TakeAll, ToLower, TypeLine;
    if f.kind.Some? {
      TypeTaken(s, f.name, f.kind.value, allow, pf);
      OneTaken(s, TypeLine(f.name, f.kind.value), allow, pf);
    } else {
      NothingTaken(s, allow, pf);
    }
  }

  lemma FamilyTaken(s: State, f: Family, allow: Allow, pf: FloatParser)
    requires FamilyOk(f, pf)
    ensures var now := Declared(s.types, f);
            TakeAll(s, LinesOf(f), allow, pf)
            == State(now, s.out + PointSamples(f.name, KnownKind(now, f.name), f.points, allow, pf))
  {
    FamilyParts(f, pf);
    hide Take, TakeAll, PointLines, PointSamples, TypeLines, NoteLines, FamilyOk, NameOk, PointOk, NoteOk, Token, Declared;
    var t := s.(types := Declared(s.types, f));
    TakeConcat(s, NoteLines(f.notes) + TypeLines(f), PointLines(f.name, f.points), allow, pf);
    TakeConcat(s, NoteLines(f.notes), TypeLines(f), allow, pf);
    NotesTaken(s, f.notes, allow, pf);
    TypesTaken(s, f, allow, pf);
    PointsTaken(t, f.name, f.points, allow, pf);
  }

  lemma {:induction false} FamiliesTaken(s: State, fs: seq<Family>, allow: Allow, pf: FloatParser)
    requires forall i :: 0 <= i < |fs| ==> FamilyOk(fs[i], pf)
    ensures TakeAll(s, FamilyLines(fs), allow, pf).out == s.out + FamilySamples(s.types, fs, allow, pf)
    decreases |fs|
  {
    hide TakeAll, Take, LinesOf, PointSamples, FamilyOk, Declared, KnownKind;
    if fs == [] {
      assert TakeAll(s, [], allow, pf) == s by { NothingTaken(s, allow, pf); }
      assert s.out + [] == s.out;
    } else {
      var f, now := fs[0], Declared(s.types, fs[0]);
      var rest := FamilyLines(fs[1..]);
      var own := PointSamples(f.name, KnownKind(now, f.name), f.points, allow, pf);
      FamilyTaken(s, f, allow, pf);
      TakeConcat(s, LinesOf(f), rest, allow, pf);
      FamiliesTaken(State(now, s.out + own), fs[1..], allow, pf);
      Associative(s.out, own, FamilySamples(now, fs[1..], allow, pf));
    }
  }

  predicate OneLiners(lines: seq<string>) { forall i :: 0 <= i < |lines| ==> '\n' !in lines[i] }

  lemma OneLinersConcat(a: seq<string>, b: seq<string>)
    requires OneLiners(a) && OneLiners(b)
    ensures OneLiners(a + b)
  {
  }

  lemma {:induction false} PointsAreLines(name: string, points: seq<Point>, pf: FloatParser)
    requires NameOk(name) && forall i :: 0 <= i < |points| ==> PointOk(points[i], pf)
    ensures OneLiners(PointLines(name, points))
    decreases points
  {
    hide PointLine, NameOk, PointOk, OneLiners, TrimSpace;
    if points == [] {
      NoLines();
    } else {
      PointTrimmed(name, points[0], pf);
      OneLine(PointLine(name, points[0]));
      PointsAreLines(name, points[1..], pf);
      OneLinersConcat([PointLine(name, points[0])], PointLines(name, points[1..]));
    }
  }

  lemma {:induction false} NotesAreLines(notes: seq<Note>, pf: FloatParser)
    requires forall i :: 0 <= i < |notes| ==> NoteOk(notes[i], pf)
    ensures OneLiners(NoteLines(notes))
    decreases notes
  {
    hide NoteLine, NoteOk, OneLiners, Take;
    if notes == [] {
      NoLines();
    } else {
      NoteIsLine(notes[0], pf);
      OneLine(NoteLine(notes[0]));
      NotesAreLines(notes[1..], pf);
      OneLinersConcat([NoteLine(notes[0])], NoteLines(notes[1..]));
    }
  }

  lemma NoLines()
    ensures OneLiners([]) && OneLiners([""])
  {
  }

  lemma OneLine(line: string)
    requires '\n' !in line
    ensures OneLiners([line])
  {
  }

  lemma FamilyIsLines(f: Family, pf: FloatParser)
    requires FamilyOk(f, pf)
    ensures OneLiners(LinesOf(f))
  {
    FamilyParts(f, pf);
    hide TypeLine, OneLiners, PointLines, NoteLines, TrimSpace, FamilyOk, NameOk, PointOk, NoteOk, Token;
    NotesAreLines(f.notes, pf);
    NoLines();
    if f.kind.Some? {
      TypeTrimmed(f.name, f.kind.value);
      OneLine(TypeLine(f.name, f.kind.value));
    }
    PointsAreLines(f.name, f.points, pf);
    OneLinersConcat(NoteLines(f.notes), TypeLines(f));
    OneLinersConcat(NoteLines(f.notes) + TypeLines(f), PointLines(f.name, f.points));
  }

  lemma {:induction false} LinesAreLines(fs: seq<Family>, pf: FloatParser)
    requires forall i :: 0 <= i < |fs| ==> FamilyOk(fs[i], pf)
    ensures OneLiners(FamilyLines(fs))
    decreases |fs|
  {
    hide LinesOf, OneLiners, FamilyOk;
    if fs == [] {
      NoLines();
    } else {
      FamilyIsLines(fs[0], pf);
      LinesAreLines(fs[1..], pf);
      OneLinersConcat(LinesOf(fs[0]), FamilyLines(fs[1..]));
    }
  }

  function Document(fs: seq<Family>): string { Join(FamilyLines(fs) + [""], '\n') }

  // Samples with TYPE lines, HELP lines and gaps between them come back as those samples,
  // in order, each with the kind last declared for its family, less exactly the buckets
  // of declared histograms.
  lemma ExpositionRoundTrip(fs: seq<Family>, allow: Allow, pf: FloatParser)
    requires forall i :: 0 <= i < |fs| ==> FamilyOk(fs[i], pf)
    requires Scannable(FamilyLines(fs))
    ensures Exposed(Document(fs), allow, pf) == Ok(FamilySamples(map[], fs, allow, pf))
  {
    hide FamilyLines, FamilySamples, TakeAll, Split, Join, FamilyOk;
    var start := State(map[], []);
    var lines := FamilyLines(fs);
    LinesAreLines(fs, pf);
    NoLines();
    OneLinersConcat(lines, [""]);
    SplitJoin(lines + [""], '\n');
    TakeConcat(start, lines, [""], allow, pf);
    FamiliesTaken(start, fs, allow, pf);
    EmptyLine(TakeAll(start, lines, allow, pf), allow, pf);
    assert [] + FamilySamples(map[], fs, allow, pf) == FamilySamples(map[], fs, allow, pf);
  }

  const One: Point := Point(Plainly, [], " ", "1", "")
  const Counter: Family := Family([], "m", Some("counter"), [One])

  // The smallest document there is: a counter and its value.
  lemma DocumentShown(allow: Allow, pf: FloatParser, v: real)
    requires pf("1") == Some(v)
    ensures Document([Counter]) == "# TYPE m counter\nm 1\n"
    ensures Exposed("# TYPE m counter\nm 1\n", allow, pf) == Ok([Sample("m", [], v, "counter")])
  {
    CounterOk(pf);
    CounterLines();
    CounterSamples(allow, pf);
    hide FamilyOk, FamilyLines, FamilySamples, Exposed;
    ExpositionRoundTrip([Counter], allow, pf);
  }

  lemma CounterOk(pf: FloatParser)
    requires pf("1").Some?
    ensures FamilyOk(Counter, pf)
  {
    assert RenderSegments([]) == "";
    assert PointOk(One, pf);
    hide PointOk;
  }

  lemma CounterLines()
    ensures FamilyLines([Counter]) == ["# TYPE m counter", "m 1"]
    ensures Document([Counter]) == "# TYPE m counter\nm 1\n"
    ensures Scannable(FamilyLines([Counter]))
  {
    assert TypeLine("m", "counter") == "# TYPE m counter" && PointLine("m", One) == "m 1";
    hide TypeLine, PointLine, Join;
    assert [One][1..] == [] && [Counter][1..] == [];
    assert PointLines("m", []) == [] && FamilyLines([]) == [];
    assert PointLines("m", [One]) == ["m 1"];
    assert LinesOf(Counter) == ["# TYPE m counter", "m 1"];
    hide LinesOf;
    TwoJoined("# TYPE m counter", "m 1");
    assert "# TYPE m counter" + "\n" + ("m 1" + "\n") == "# TYPE m counter\nm 1\n";
  }

  lemma CounterSamples(allow: Allow, pf: FloatParser)
    requires pf("1").Some?
    ensures FamilySamples(map[], [Counter], allow, pf) == [Sample("m", [], pf("1").value, "counter")]
  {
    LowerCounter();
    hide ToLower;
    assert [One][1..] == [] && [Counter][1..] == [];
    assert "m" + "" == "m";
    assert LabelsIn([]) == [] && Wanted([], allow) == [];
    hide LabelsIn, Wanted;
    assert PointSample("m", "counter", One, allow, pf) == [Sample("m", [], pf("1").value, "counter")];
    hide PointSample;
    assert PointSamples("m", "counter", [One], allow, pf) == PointSample("m", "counter", One, allow, pf) + [];
  }

  lemma LowerCounter()
    ensures ToLower("counter") == "counter"
  {
  }

  // One line of a megabyte anywhere, and nothing of the document is reported; shorter
  // lines never fail it, whatever they hold.
  lemma RefusedExactly(lines: seq<string>, allow: Allow, pf: FloatParser)
    requires lines != [] && OneLiners(lines)
    ensures Exposed(Join(lines, '\n'), allow, pf) == Err(LineTooLong) <==>
            exists i :: 0 <= i < |lines| && |lines[i]| >= 1048576
  {
    hide Split, TakeAll, Join;
    SplitJoin(lines, '\n');
    if !Scannable(lines) {
      var i :| 0 <= i < |lines| && |lines[i]| >= MaxLineBytes;
    }
  }

  lemma EmptyLine(s: State, allow: Allow, pf: FloatParser)
    ensures TakeAll(s, [""], allow, pf) == s
  {
    hide TrimSpace, SampleLine, Fields;
    TrimSpaceTrims("");
    assert [""][1..] == [];
    assert Take(s, "", allow, pf) == s;
  }
}
