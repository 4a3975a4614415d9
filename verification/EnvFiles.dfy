/**
 Reading KEY=VALUE files, later ones overriding earlier ones.
 */
module EnvFiles {
  import opened Text
  import opened Wrappers

  // ---------------------------------------------------------------------
  // One line
  // ---------------------------------------------------------------------

  datatype Fault = ExpectedKeyValue | EmptyKey

  datatype Parsed = Nothing | Assign(key: string, value: string) | Bad(fault: Fault)

  function StripExport(line: string): string {
    if "export " <= line || "export\t" <= line then TrimSpace(line[7..]) else line
  }

  // In a pair of quotes, of either kind.
  predicate Wrapped(val: string) {
    |val| >= 2 && ((val[0] == '"' && val[|val| - 1] == '"') || (val[0] == '\'' && val[|val| - 1] == '\''))
  }

  lemma WrappedExactly(val: string)
    ensures Wrapped(val) <==> exists inner: string :: val == ['"'] + inner + ['"'] || val == ['\''] + inner + ['\'']
  {
    if Wrapped(val) {
      var inner := val[1..|val| - 1];
      assert val == [val[0]] + inner + [val[|val| - 1]];
    }
    if inner: string :| val == ['"'] + inner + ['"'] || val == ['\''] + inner + ['\''] {
      assert val[|val| - 1] == val[0];
    }
  }

  function Unquoted(val: string): string { if Wrapped(val) then val[1..|val| - 1] else val }

  function Assignment(line: string): Parsed {
    var eq := IndexByte(line, '=');
    if eq <= 0 then Bad(ExpectedKeyValue)
    else if TrimSpace(line[..eq]) == "" then Bad(EmptyKey)
    else Assign(TrimSpace(line[..eq]), Unquoted(TrimSpace(line[eq + 1..])))
  }

  function ParseLine(raw: string): Parsed {
    var line := TrimSpace(raw);
    if line == "" || "#" <= line then Nothing else Assignment(StripExport(line))
  }

  // ---------------------------------------------------------------------
  // Files
  // ---------------------------------------------------------------------

  // What reading one listed path yields; a blank path counts as missing.
  datatype Source = Missing | Unreadable | Data(text: string)

  datatype LoadError = CannotRead(file: nat) | BadLine(file: nat, line: nat, fault: Fault)

  type Env = map<string, string>

  function LoadLines(env: Env, lines: seq<string>, file: nat): Result<Env, LoadError> {
    if lines == [] then Ok(env)
    else
      var n := |lines| - 1;
      match LoadLines(env, lines[..n], file)
      case Err(e) => Err(e)
      case Ok(before) =>
        match ParseLine(lines[n])
        case Nothing => Ok(before)
        case Assign(key, value) => Ok(before[key := value])
        case Bad(fault) => Err(BadLine(file, n + 1, fault))
  }

  function Load(sources: seq<Source>): Result<Env, LoadError> {
    if sources == [] then Ok(map[])
    else
      var n := |sources| - 1;
      match Load(sources[..n])
      case Err(e) => Err(e)
      case Ok(before) =>
        match sources[n]
        case Missing => Ok(before)
        case Unreadable => Err(CannotRead(n))
        case Data(text) => LoadLines(before, Split(text, '\n'), n)
  }

  method ReadLine(raw: string) returns (p: Parsed)
    ensures p == ParseLine(raw)
  {
    hide TrimSpace, IndexByte;
    var line := TrimSpace(raw);
    if line == "" || "#" <= line {
      return Nothing;
    }
    if "export " <= line {
      line := TrimSpace(line[7..]);
    } else if "export\t" <= line {
      line := TrimSpace(line[7..]);
    }
    var eq := IndexByte(line, '=');
    if eq <= 0 {
      return Bad(ExpectedKeyValue);
    }
    var key, val := TrimSpace(line[..eq]), TrimSpace(line[eq + 1..]);
    if key == "" {
      return Bad(EmptyKey);
    }
    if |val| >= 2 {
      if (val[0] == '"' && val[|val| - 1] == '"') || (val[0] == '\'' && val[|val| - 1] == '\'') {
        val := val[1..|val| - 1];
      }
    }
    return Assign(key, val);
  }

  method LoadFile(env: Env, text: string, file: nat) returns (r: Result<Env, LoadError>)
    ensures r == LoadLines(env, Split(text, '\n'), file)
  {
    hide ParseLine, Split;
    var lines := Split(text, '\n');
    var now := env;
    for i := 0 to |lines|
      invariant LoadLines(env, lines[..i], file) == Ok(now)
    {
      assert lines[..i + 1][..i] == lines[..i];
      LaterLinesDoNotMatter(env, lines, i + 1, file);
      var p := ReadLine(lines[i]);
      match p {
        case Nothing =>
        case Bad(fault) =>
          return Err(BadLine(file, i + 1, fault));
        case Assign(key, value) =>
          now := now[key := value];
      }
    }
    assert lines[..|lines|] == lines;
    return Ok(now);
  }

  // The first bad line decides.
  lemma {:induction false} LaterLinesDoNotMatter(env: Env, lines: seq<string>, n: nat, file: nat)
    requires n <= |lines|
    ensures LoadLines(env, lines[..n], file).Err? ==> LoadLines(env, lines, file) == LoadLines(env, lines[..n], file)
    decreases |lines| - n
  {
    hide ParseLine;
    if n < |lines| {
      assert lines[..n + 1][..n] == lines[..n];
      LaterLinesDoNotMatter(env, lines, n + 1, file);
    } else {
      assert lines[..n] == lines;
    }
  }

  method LoadEnvFiles(sources: seq<Source>) returns (r: Result<Env, LoadError>)
    ensures r == Load(sources)
  {
    hide LoadLines, Split;
    var env: Env := map[];
    for i := 0 to |sources|
      invariant Load(sources[..i]) == Ok(env)
    {
      assert sources[..i + 1][..i] == sources[..i];
      LaterFilesDoNotMatter(sources, i + 1);
      assert sources[..|sources|] == sources;
      match sources[i] {
        case Missing =>
        case Unreadable =>
          return Err(CannotRead(i));
        case Data(text) =>
          var loaded := LoadFile(env, text, i);
          if loaded.Err? {
            return loaded;
          }
          env := loaded.value;
      }
    }
    assert sources[..|sources|] == sources;
    return Ok(env);
  }

  lemma {:induction false} LaterFilesDoNotMatter(sources: seq<Source>, n: nat)
    requires n <= |sources|
    ensures Load(sources[..n]).Err? ==> Load(sources) == Load(sources[..n])
    decreases |sources| - n
  {
    hide LoadLines;
    if n < |sources| {
      assert sources[..n + 1][..n] == sources[..n];
      LaterFilesDoNotMatter(sources, n + 1);
    } else {
      assert sources[..n] == sources;
    }
  }

  // The error names the first bad line, counted from one.
  lemma {:induction false} FirstBadLine(env: Env, lines: seq<string>, file: nat, n: nat)
    requires n < |lines| && ParseLine(lines[n]).Bad?
    requires forall i :: 0 <= i < n ==> !ParseLine(lines[i]).Bad?
    ensures LoadLines(env, lines, file) == Err(BadLine(file, n + 1, ParseLine(lines[n]).fault))
  {
    hide ParseLine;
    GoodLines(env, lines[..n], file);
    assert lines[..n + 1][..n] == lines[..n];
    LaterLinesDoNotMatter(env, lines, n + 1, file);
  }

  lemma {:induction false} GoodLines(env: Env, lines: seq<string>, file: nat)
    requires forall i :: 0 <= i < |lines| ==> !ParseLine(lines[i]).Bad?
    ensures LoadLines(env, lines, file).Ok?
  {
    hide ParseLine;
    if lines != [] {
      GoodLines(env, lines[..|lines| - 1], file);
    }
  }

  // And the first file that fails, by its line or as a whole.
  lemma {:induction false} FirstBadFile(sources: seq<Source>, n: nat)
    requires n < |sources| && Load(sources[..n]).Ok?
    ensures sources[n].Unreadable? ==> Load(sources) == Err(CannotRead(n))
    ensures sources[n].Data? ==>
              var r := LoadLines(Load(sources[..n]).value, Split(sources[n].text, '\n'), n);
              r.Err? ==> Load(sources) == r
  {
    hide LoadLines, Split;
    assert sources[..n + 1][..n] == sources[..n];
    LaterFilesDoNotMatter(sources, n + 1);
  }

  // ---------------------------------------------------------------------
  // What the syntax can express
  // ---------------------------------------------------------------------

  predicate KeyOk(key: string) { key != "" && Trimmed(key) && Free(key, {'=', '\n'}) }

  // Every key that is ever read is such a key, and the "empty key" error the code
  // provides for is never the one reported.
  lemma KeysRead(raw: string)
    requires '\n' !in raw
    ensures var p := ParseLine(raw);
            && (p.Assign? ==> KeyOk(p.key))
            && p != Bad(EmptyKey)
  {
    hide TrimSpace;
    var line := TrimSpace(raw);
    TrimSpaceTrims(raw);
    TrimSpaceFree(raw, {'\n'});
    if line != "" && !("#" <= line) {
      var bare := StripExport(line);
      if "export " <= line || "export\t" <= line {
        TrimSpaceTrims(line[7..]);
        TrimSpaceFree(line[7..], {'\n'});
      }
      assert Trimmed(bare) && Free(bare, {'\n'});
      hide StripExport;
      AssignmentKey(bare);
    }
  }

  lemma AssignmentKey(line: string)
    requires Trimmed(line) && Free(line, {'\n'})
    ensures var p := Assignment(line);
            && (p.Assign? ==> KeyOk(p.key))
            && p != Bad(EmptyKey)
  {
    var eq := IndexByte(line, '=');
    if eq > 0 {
      var front := line[..eq];
      assert front[0] == line[0];
      assert Free(front, {'=', '\n'});
      hide TrimSpace, IndexByte, Unquoted;
      TrimSpaceTrims(front);
      TrimSpaceFree(front, {'=', '\n'});
      TrimKeepsFirst(front);
    }
  }

  lemma TrimRightKeeps(s: string)
    requires s != "" && !IsSpace(s[0])
    ensures TrimRight(s, Spaces) != ""
  {
    if TrimRight(s, Spaces) == "" { assert false; }
  }

  lemma TrimKeepsFirst(s: string)
    requires s != "" && !IsSpace(s[0])
    ensures TrimSpace(s) != ""
  {
    assert TrimLeft(s, Spaces) == s;
    TrimRightKeeps(s);
  }

  // ---------------------------------------------------------------------
  // Round trip
  // ---------------------------------------------------------------------

  datatype Line =
    | Comment(text: string)
    | Gap(space: string)
    | Entry(exported: bool, key: string, style: Style, value: string)

  datatype Style = Double | Single | Bare

  function Written(style: Style, value: string): string {
    match style
    case Double => "\"" + value + "\""
    case Single => "'" + value + "'"
    case Bare => value
  }

  function Render(l: Line): string {
    match l
    case Comment(text) => "#" + text
    case Gap(space) => space
    case Entry(exported, key, style, value) => (if exported then "export " else "") + Body(key, Written(style, value))
  }

  // Without the export prefix a key must not itself look like one, or like a comment.
  predicate PlainKey(key: string) { !("#" <= key) && !("export " <= key) && !("export\t" <= key) }

  // Without quotes a value must have no edge spaces, and no quotes of its own around it.
  predicate Writable(l: Line) {
    match l
    case Comment(text) => '\n' !in text
    case Gap(space) => Blank(space) && '\n' !in space
    case Entry(exported, key, style, value) =>
      && KeyOk(key) && '\n' !in value
      && (!exported ==> PlainKey(key))
      && (style.Bare? ==> Trimmed(value) && !Wrapped(value))
  }

  function Meaning(l: Line): Parsed {
    match l
    case Entry(_, key, _, value) => Assign(key, value)
    case _ => Nothing
  }

  lemma WrittenValue(style: Style, value: string)
    requires style.Bare? ==> Trimmed(value) && !Wrapped(value)
    ensures Trimmed(Written(style, value)) && Unquoted(Written(style, value)) == value
  {
    var text := Written(style, value);
    if !style.Bare? {
      assert text[1..|text| - 1] == value;
    }
  }

  // A key and the text given for it.
  function Body(key: string, text: string): string { key + ("=" + text) }

  lemma BodySplits(name: string, text: string)
    requires name != "" && Free(name, {'='})
    ensures Assignment(Body(name, text)) == if TrimSpace(name) == "" then Bad(EmptyKey)
                                            else Assign(TrimSpace(name), Unquoted(TrimSpace(text)))
  {
    hide TrimSpace, Unquoted, IndexAny;
    var line := name + ("=" + text);
    IndexAnyAfter(name, "=" + text, {'='});
    assert line[..|name|] == name && line[|name| + 1..] == text;
  }

  lemma BodyAssigns(key: string, text: string)
    requires KeyOk(key)
    ensures Assignment(Body(key, text)) == Assign(key, Unquoted(TrimSpace(text)))
  {
    hide Unquoted, TrimSpace, Assignment;
    assert Free(key, {'='});
    TrimSpaceTrims(key);
    BodySplits(key, text);
  }

  lemma BodyEnds(lead: string, key: string, text: string)
    requires key != "" && !IsSpace(key[0]) && (lead == "" || lead == "export ")
    requires text != "" ==> !IsSpace(text[|text| - 1])
    ensures Trimmed(lead + Body(key, text)) && Trimmed(Body(key, text))
  {
    hide Free;
    var body := Body(key, text);
    assert body[0] == key[0] && body[|body| - 1] == if text == "" then '=' else text[|text| - 1];
    hide Body;
    assert (lead + body)[|lead + body| - 1] == body[|body| - 1];
    assert lead == "" ==> lead + body == body;
  }

  lemma EntryEnds(l: Line)
    requires l.Entry? && Writable(l)
    ensures var body := Body(l.key, Written(l.style, l.value));
            Trimmed(Render(l)) && Trimmed(body)
  {
    WrittenValue(l.style, l.value);
    hide KeyOk, Body, Written, Wrapped;
    BodyEnds(if l.exported then "export " else "", l.key, Written(l.style, l.value));
  }

  lemma ExportStripped(body: string)
    requires Trimmed(body)
    ensures StripExport("export " + body) == body
  {
    hide TrimSpace;
    assert ("export " + body)[7..] == body;
    TrimSpaceTrims(body);
  }

  lemma PlainNotStripped(key: string, text: string)
    requires PlainKey(key)
    ensures StripExport(Body(key, text)) == Body(key, text)
  {
    hide TrimSpace;
    KeyPrefix(key, "=" + text, "export ");
    KeyPrefix(key, "=" + text, "export\t");
  }

  lemma LeadStripped(exported: bool, key: string, text: string)
    requires KeyOk(key) && (!exported ==> PlainKey(key)) && Trimmed(Body(key, text))
    ensures var line := (if exported then "export " else "") + Body(key, text);
            line != "" && line[0] != '#' && StripExport(line) == Body(key, text)
  {
    var body := Body(key, text);
    if exported {
      hide TrimSpace, Body, KeyOk, Trimmed, PlainKey;
      ExportStripped(body);
    } else {
      PlainNotStripped(key, text);
      hide StripExport, Trimmed, Free;
      assert "" + body == body;
      assert body[0] == key[0];
    }
  }

  // A key followed by "=" starts with a prefix free of "=" only if it did itself.
  lemma KeyPrefix(key: string, rest: string, prefix: string)
    requires !(prefix <= key) && rest != "" && rest[0] == '=' && Free(prefix, {'='})
    ensures !(prefix <= key + rest)
  {
    if |prefix| > |key| {
      assert (key + rest)[|key|] == '=';
      assert prefix[|key|] != '=';
    } else {
      assert (key + rest)[..|prefix|] == key[..|prefix|];
    }
  }

  lemma LineParses(l: Line)
    requires Writable(l)
    ensures ParseLine(Render(l)) == Meaning(l)
  {
    match l
    case Comment(text) =>
      CommentSkipped(text);
    case Gap(space) =>
      assert space + "" + "" == space;
      TrimSpaceIs(space, "", "");
    case Entry(_, _, _, _) =>
      EntryParses(l);
  }

  lemma EntryParses(l: Line)
    requires l.Entry? && Writable(l)
    ensures ParseLine(Render(l)) == Assign(l.key, l.value)
  {
    EntryEnds(l);
    LeadStripped(l.exported, l.key, Written(l.style, l.value));
    WrittenValue(l.style, l.value);
    hide TrimSpace, Render, Assignment, StripExport, Trimmed, Body, Written, Unquoted;
    TrimSpaceTrims(Render(l));
    BodyAssigns(l.key, Written(l.style, l.value));
    TrimSpaceTrims(Written(l.style, l.value));
  }

  lemma TrimSpaceShorter(s: string)
    ensures |TrimSpace(s)| <= |s| && (|TrimSpace(s)| == |s| ==> TrimSpace(s) == s)
  {
  }

  // White space at the end of a line is white space at the end of what follows "=".
  lemma LineTrims(lead: string, key: string, text: string) returns (kept: string)
    requires KeyOk(key) && (lead == "" || lead == "export ")
    ensures TrimSpace(lead + Body(key, text)) == lead + Body(key, kept) && kept <= text
    ensures Trimmed(Body(key, kept))
  {
    var front := lead + (key + "=");
    assert front[0] == if lead == "" then key[0] else 'e';
    hide TrimSpace, Free;
    kept := EndTrims(front, text);
    Associative(lead, key + "=", text);
    Associative(key, "=", text);
    Associative(lead, key + "=", kept);
    Associative(key, "=", kept);
    BodyEnds(lead, key, kept);
  }

  lemma UnquotedShorter(s: string)
    ensures |Unquoted(s)| <= |s| && (|Unquoted(s)| == |s| <==> !Wrapped(s))
    ensures !Wrapped(s) ==> Unquoted(s) == s
  {
  }

  // Trimming and taking the quotes off only shorten, so an unchanged length is no change.
  lemma UnchangedExactly(value: string, kept: string)
    requires kept <= value
    ensures Unquoted(TrimSpace(kept)) == value <==> kept == value && TrimSpace(value) == value && !Wrapped(value)
  {
    hide TrimSpace, Unquoted, Wrapped;
    TrimSpaceShorter(kept);
    UnquotedShorter(TrimSpace(kept));
    if |kept| == |value| {
      assert kept == value;
    }
  }

  // A value written without quotes comes back if and only if it has no edge spaces and
  // no quotes of its own around it.
  lemma BareReturnsExactly(exported: bool, key: string, value: string)
    requires KeyOk(key) && (!exported ==> PlainKey(key))
    ensures ParseLine(Render(Entry(exported, key, Bare, value))) == Assign(key, value)
            <==> Trimmed(value) && !Wrapped(value)
  {
    var lead := if exported then "export " else "";
    hide KeyOk, PlainKey;
    assert Render(Entry(exported, key, Bare, value)) == lead + Body(key, value);
    var kept := LineTrims(lead, key, value);
    BareLineParses(exported, key, value, kept);
    hide ParseLine, Render, Body, TrimSpace, Trimmed, Unquoted, Wrapped;
    UnchangedExactly(value, kept);
    TrimSpaceTrims(value);
    if Trimmed(value) {
      TrimmedKept(lead, key, value, kept);
    }
  }

  lemma BareLineParses(exported: bool, key: string, value: string, kept: string)
    requires KeyOk(key) && (!exported ==> PlainKey(key)) && Trimmed(Body(key, kept))
    requires var lead := if exported then "export " else "";
             TrimSpace(lead + Body(key, value)) == lead + Body(key, kept)
    ensures ParseLine(Render(Entry(exported, key, Bare, value))) == Assign(key, Unquoted(TrimSpace(kept)))
  {
    hide TrimSpace, Body, Assignment, StripExport, Unquoted, KeyOk, Trimmed, PlainKey;
    LeadStripped(exported, key, kept);
    BodyAssigns(key, kept);
  }

  lemma TailInjective(lead: string, a: string, b: string)
    requires lead + a == lead + b
    ensures a == b
  {
    assert (lead + a)[|lead|..] == a;
    assert (lead + b)[|lead|..] == b;
  }

  lemma BodyInjective(key: string, a: string, b: string)
    requires Body(key, a) == Body(key, b)
    ensures a == b
  {
    TailInjective(key, "=" + a, "=" + b);
    TailInjective("=", a, b);
  }

  lemma TrimmedKept(lead: string, key: string, value: string, kept: string)
    requires KeyOk(key) && (lead == "" || lead == "export ") && Trimmed(value)
    requires TrimSpace(lead + Body(key, value)) == lead + Body(key, kept)
    ensures kept == value
  {
    BodyEnds(lead, key, value);
    hide TrimSpace, KeyOk, Body, Trimmed;
    TrimSpaceTrims(lead + Body(key, value));
    TailInjective(lead, Body(key, kept), Body(key, value));
    BodyInjective(key, kept, value);
  }

  // What stands after the equals sign, as far as trimming the line leaves it.
  function Given(afterEq: string, text: string): string { if text == "" then "" else afterEq + text }

  lemma BlankFree(s: string)
    requires Blank(s)
    ensures Free(s, {'='})
  {
    forall i | 0 <= i < |s| ensures s[i] !in {'='} { assert s[i] in s; }
  }

  lemma GivenTrims(afterEq: string, text: string)
    requires Blank(afterEq) && Trimmed(text)
    ensures TrimSpace(Given(afterEq, text)) == text
    ensures var g := Given(afterEq, text); g != "" ==> !IsSpace(g[|g| - 1])
  {
    hide TrimSpace;
    if text == "" {
      TrimSpaceTrims("");
    } else {
      assert afterEq + text + "" == Given(afterEq, text);
      TrimSpaceIs(afterEq, text, "");
    }
  }

  lemma SpacedName(key: string, beforeEq: string)
    requires KeyOk(key) && Blank(beforeEq)
    ensures Free(key + beforeEq, {'='}) && TrimSpace(key + beforeEq) == key
    ensures key + beforeEq != "" && (key + beforeEq)[0] == key[0] && !IsSpace(key[0])
  {
    BlankFree(beforeEq);
    FreeConcat(key, beforeEq, {'='});
    assert "" + key + beforeEq == key + beforeEq;
    TrimSpaceIs("", key, beforeEq);
  }

  lemma SpacedAssigns(key: string, beforeEq: string, afterEq: string, text: string)
    requires KeyOk(key) && Blank(beforeEq) && Blank(afterEq) && Trimmed(text)
    ensures var line := Body(key + beforeEq, Given(afterEq, text));
            Trimmed(line) && Assignment(line) == Assign(key, Unquoted(text)) && line != "" && line[0] == key[0]
  {
    hide TrimSpace, Unquoted, IndexAny, Given, Blank, KeyOk, Assignment, Free, Trimmed, Body;
    GivenTrims(afterEq, text);
    SpacedName(key, beforeEq);
    KeyNotEmpty(key);
    var name, value := key + beforeEq, Given(afterEq, text);
    BodySplits(name, value);
    BodyEnds("", name, value);
    BodyStarts(name, value);
  }

  lemma KeyNotEmpty(key: string)
    requires KeyOk(key)
    ensures key != ""
  {
  }

  lemma BodyStarts(name: string, value: string)
    requires name != ""
    ensures Body(name, value) != "" && Body(name, value)[0] == name[0]
  {
  }

  // White space before the line, after "export", around the name, around the value and at
  // the end makes no difference, whichever white space follows "export".
  lemma SpaceDoesNotMatter(before: string, mark: string, gap: string, key: string, beforeEq: string,
                           afterEq: string, text: string, after: string)
    requires Blank(before) && Blank(gap) && Blank(beforeEq) && Blank(afterEq) && Blank(after)
    requires mark in {"", "export ", "export\t"} && KeyOk(key) && Trimmed(text)
    requires mark == "" ==> gap == "" && PlainKey(key + beforeEq)
    ensures ParseLine(before + (mark + gap + Body(key + beforeEq, afterEq + text)) + after)
         == Assign(key, Unquoted(text))
  {
    hide Body, Given, KeyOk, Assignment, Unquoted, TrimSpace, PlainKey, StripExport, Trimmed, Blank;
    SpacedAssigns(key, beforeEq, afterEq, text);
    SpacedName(key, beforeEq);
    var line := Body(key + beforeEq, Given(afterEq, text));
    var tail := if text == "" then afterEq + after else after;
    BlankConcat(afterEq, after);
    TailMoves(before, mark + gap, key + beforeEq, afterEq, text, after);
    if mark == "" { SpacedPlain(key + beforeEq, Given(afterEq, text)); }
    MarkedTrims(before, mark, gap, line, tail);
    MarkStripped(mark, gap, line);
  }

  lemma BlankConcat(a: string, b: string)
    requires Blank(a) && Blank(b)
    ensures Blank(a + b)
  {
  }

  lemma MarkStripped(mark: string, gap: string, line: string)
    requires Blank(gap) && Trimmed(line) && mark in {"", "export ", "export\t"} && (mark == "" ==> gap == "")
    requires mark == "" ==> StripExport(line) == line
    ensures StripExport(mark + gap + line) == line
  {
    hide TrimSpace, Blank, Trimmed;
    if mark == "" {
      assert "" + "" + line == line;
    } else {
      assert mark + gap + line == mark + (gap + line + "");
      assert (mark + gap + line)[7..] == gap + line + "";
      NothingBlank();
      TrimSpaceIs(gap, line, "");
    }
  }

  lemma NothingBlank()
    ensures Blank("")
  {
  }

  lemma TailMoves(before: string, lead: string, name: string, afterEq: string, text: string, after: string)
    ensures before + (lead + Body(name, afterEq + text)) + after
         == before + (lead + Body(name, Given(afterEq, text))) + (if text == "" then afterEq + after else after)
  {
    if text == "" {
      assert afterEq + text == afterEq;
      assert lead + Body(name, afterEq) == (lead + Body(name, "")) + afterEq;
    }
  }

  lemma MarkedTrims(before: string, mark: string, gap: string, line: string, tail: string)
    requires Blank(before) && Blank(tail) && mark in {"", "export ", "export\t"} && (mark == "" ==> gap == "")
    requires line != "" && Trimmed(line)
    ensures TrimSpace(before + (mark + gap + line) + tail) == mark + gap + line
    ensures (mark + gap + line)[0] == if mark == "" then line[0] else 'e'
    ensures mark != "" ==> mark <= mark + gap + line
  {
    hide TrimSpace;
    var all := mark + gap + line;
    assert all[|all| - 1] == line[|line| - 1];
    assert all[0] == if mark == "" then line[0] else mark[0];
    TrimSpaceIs(before, all, tail);
  }

  lemma SpacedPlain(name: string, value: string)
    requires PlainKey(name) && name != ""
    ensures StripExport(Body(name, value)) == Body(name, value) && Body(name, value)[0] != '#'
  {
    PlainNotStripped(name, value);
    assert Body(name, value)[0] == name[0];
  }

  // A line with no equals sign, or none after a name, is the one error there is.
  lemma LineRefused(before: string, mark: string, line: string, after: string)
    requires Blank(before) && Blank(after) && mark in {"", "export ", "export\t"}
    requires line != "" && Trimmed(line) && (mark == "" ==> PlainKey(line))
    requires '=' !in line || line[0] == '='
    ensures ParseLine(before + (mark + line) + after) == Bad(ExpectedKeyValue)
  {
    NothingBlank();
    assert mark + "" + line == mark + line;
    NoName(line);
    if mark == "" { assert StripExport(line) == line; }
    hide TrimSpace, Blank, Trimmed, Assignment;
    MarkedTrims(before, mark, "", line, after);
    MarkStripped(mark, "", line);
  }

  lemma NoName(line: string)
    requires line != "" && ('=' !in line || line[0] == '=')
    ensures Assignment(line) == Bad(ExpectedKeyValue)
  {
    hide TrimSpace;
    if '=' !in line {
      IndexAnyNone(line, {'='});
    }
  }

  lemma CommentSkipped(text: string)
    ensures ParseLine("#" + text) == Nothing
  {
    var raw := "#" + text;
    assert TrimLeft(raw, Spaces) == raw;
    TrimKeepsFirst(raw);
    var line := TrimSpace(raw);
    assert line[0] == '#';
  }

  function Overriding(env: Env, lines: seq<Line>): Env {
    if lines == [] then env
    else
      var before, last := Overriding(env, lines[..|lines| - 1]), lines[|lines| - 1];
      match last
      case Entry(_, key, _, value) => before[key := value]
      case _ => before
  }

  function OverridingAll(files: seq<seq<Line>>): Env {
    if files == [] then map[] else Overriding(OverridingAll(files[..|files| - 1]), files[|files| - 1])
  }

  function Rendered(lines: seq<Line>): (r: seq<string>)
    ensures |r| == |lines| && forall i :: 0 <= i < |r| ==> r[i] == Render(lines[i])
  {
    seq(|lines|, i requires 0 <= i < |lines| => Render(lines[i]))
  }

  // A file ends its last line, or has none.
  function FileText(lines: seq<Line>): string { Join(Rendered(lines) + [""], '\n') }

  function Sources(files: seq<seq<Line>>): (r: seq<Source>)
    ensures |r| == |files| && forall i :: 0 <= i < |r| ==> r[i] == Data(FileText(files[i]))
  {
    seq(|files|, i requires 0 <= i < |files| => Data(FileText(files[i])))
  }

  lemma {:induction false} LinesLoad(env: Env, lines: seq<Line>, file: nat)
    requires forall i :: 0 <= i < |lines| ==> Writable(lines[i])
    ensures LoadLines(env, Rendered(lines), file) == Ok(Overriding(env, lines))
  {
    hide ParseLine, Writable, Render;
    if lines != [] {
      var n := |lines| - 1;
      LinesLoad(env, lines[..n], file);
      assert Rendered(lines)[..n] == Rendered(lines[..n]);
      LineParses(lines[n]);
    }
  }

  lemma WrittenFree(style: Style, value: string)
    requires '\n' !in value
    ensures Free(Written(style, value), {'\n'})
  {
    assert Free(value, {'\n'});
    FreeConcat("\"", value, {'\n'});
    FreeConcat("\"" + value, "\"", {'\n'});
    FreeConcat("'", value, {'\n'});
    FreeConcat("'" + value, "'", {'\n'});
  }

  lemma LineHasNoNewline(l: Line)
    requires Writable(l)
    ensures '\n' !in Render(l)
  {
    if l.Entry? {
      assert Free(l.key, {'\n'});
      var lead, text := if l.exported then "export " else "", Written(l.style, l.value);
      WrittenFree(l.style, l.value);
      hide Written;
      FreeConcat("=", text, {'\n'});
      FreeConcat(l.key, "=" + text, {'\n'});
      FreeConcat(lead, Body(l.key, text), {'\n'});
      assert Free(Render(l), {'\n'});
    }
  }

  lemma FileLoads(env: Env, lines: seq<Line>, file: nat)
    requires forall i :: 0 <= i < |lines| ==> Writable(lines[i])
    ensures LoadLines(env, Split(FileText(lines), '\n'), file) == Ok(Overriding(env, lines))
  {
    hide Split, Join, Render, Writable, ParseLine, Overriding;
    var texts := Rendered(lines) + [""];
    forall i | 0 <= i < |texts| ensures '\n' !in texts[i] {
      if i < |lines| { LineHasNoNewline(lines[i]); }
    }
    SplitJoin(texts, '\n');
    LinesLoad(env, lines, file);
    assert texts[..|lines|] == Rendered(lines);
    EmptyLine();
  }

  lemma EmptyLine()
    ensures ParseLine("") == Nothing
  {
    TrimSpaceTrims("");
  }

  // In quotes of either kind values may hold anything on one line, quotes, equals signs
  // and edge spaces included: what loads is the map of the values as they were written,
  // the last of each key winning.
  lemma {:induction false} EnvRoundTrip(files: seq<seq<Line>>)
    requires forall f, i :: 0 <= f < |files| && 0 <= i < |files[f]| ==> Writable(files[f][i])
    ensures Load(Sources(files)) == Ok(OverridingAll(files))
  {
    hide Writable, FileText, Overriding, LoadLines;
    if files != [] {
      var n := |files| - 1;
      EnvRoundTrip(files[..n]);
      assert Sources(files)[..n] == Sources(files[..n]);
      FileLoads(OverridingAll(files[..n]), files[n], n);
    }
  }

  const Exported: Line := Entry(true, "A", Single, "x y")
  const Plain: Line := Entry(false, "B", Bare, "z")

  // A file of two lines.
  lemma FileShown()
    ensures Load([Data("export A='x y'\nB=z\n")]) == Ok(map["A" := "x y", "B" := "z"])
  {
    var lines := [Exported, Plain];
    LinesWritable();
    TextShown();
    hide Writable, FileText, LoadLines, Split;
    FileLoads(map[], lines, 0);
    assert [Data(FileText(lines))][..0] == [] && Load([]) == Ok(map[]);
    MapShown();
  }

  lemma LinesWritable()
    ensures Writable(Exported) && Writable(Plain)
  {
    assert "B"[0] != 'e' && "B"[0] != '#';
  }

  lemma TextShown()
    ensures FileText([Exported, Plain]) == "export A='x y'\nB=z\n"
  {
    assert Render(Exported) == "export A='x y'" && Render(Plain) == "B=z";
    hide Render, Join;
    var texts := ["export A='x y'", "B=z"];
    assert Rendered([Exported, Plain]) == texts;
    hide Rendered;
    TwoJoined(texts[0], texts[1]);
    assert "export A='x y'" + "\n" + ("B=z" + "\n") == "export A='x y'\nB=z\n";
  }

  lemma MapShown()
    ensures Overriding(map[], [Exported, Plain]) == map["A" := "x y", "B" := "z"]
  {
    var lines := [Exported, Plain];
    assert lines[..1] == [Exported] && [Exported][..0] == [];
    assert Overriding(map[], []) == map[];
    assert Overriding(map[], [Exported]) == map["A" := "x y"];
  }
}
