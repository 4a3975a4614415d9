/**
 Reducing a referrer to the site it names, however the address is written.
 */
module Referrers {
  import opened Text
  import opened Wrappers
  import opened Items

  function AfterScheme(raw: string): string {
    var i := IndexOf(raw, "://");
    if i >= 0 then raw[i + 3..] else if "//" <= raw then raw[2..] else raw
  }

  const AuthorityEnd: set<char> := {'/', '?', '#'}

  // What ends or splits an authority, and the bracket of an IPv6 host.
  const HostEnd: set<char> := {'/', '?', '#', '@', ':', '['}

  function Authority(v: string): string {
    var i := IndexAny(v, AuthorityEnd);
    if i >= 0 then v[..i] else v
  }

  function AfterUserinfo(v: string): string {
    var i := LastIndexByte(v, '@');
    if i >= 0 then v[i + 1..] else v
  }

  // A bracketed IPv6 host keeps its colons.
  function WithoutPort(v: string): string {
    if "[" <= v then
      var i := IndexByte(v, ']');
      if i >= 0 then v[..i + 1] else v
    else
      var i := LastIndexByte(v, ':');
      if i >= 0 then v[..i] else v
  }

  function TrimDot(v: string): string {
    if v != "" && v[|v| - 1] == '.' then v[..|v| - 1] else v
  }

  function TrimWww(v: string): string { if "www." <= v then v[4..] else v }

  predicate IsHostStart(b: char) {
    b == '[' || b as int >= 0x80 || 'a' <= b <= 'z' || '0' <= b <= '9'
  }

  // The host, as it was written.
  function Host(raw: string): string { WithoutPort(AfterUserinfo(Authority(AfterScheme(raw)))) }

  function Site(raw: string): string {
    var site := TrimWww(ToLower(TrimDot(Host(raw))));
    if site == "" || !IsHostStart(site[0]) then "" else Clamp(site)
  }

  method AuthorityOf(raw: string) returns (value: string)
    ensures value == Authority(AfterScheme(raw))
  {
    hide IndexOf, IndexAny;
    value := raw;
    var i := IndexOf(value, "://");
    if i >= 0 {
      value := value[i + 3..];
    } else if "//" <= value {
      value := value[2..];
    }
    assert value == AfterScheme(raw);
    hide AfterScheme;
    i := IndexAny(value, AuthorityEnd);
    if i >= 0 {
      value := value[..i];
    }
  }

  method HostOf(raw: string) returns (value: string)
    ensures value == Host(raw)
  {
    hide Authority, AfterScheme, IndexAny, LastIndexByte;
    value := AuthorityOf(raw);
    var i := LastIndexByte(value, '@');
    if i >= 0 {
      value := value[i + 1..];
    }
    assert value == AfterUserinfo(Authority(AfterScheme(raw)));
    hide AfterUserinfo;
    if "[" <= value {
      i := IndexByte(value, ']');
      if i >= 0 {
        value := value[..i + 1];
      }
    } else {
      i := LastIndexByte(value, ':');
      if i >= 0 {
        value := value[..i];
      }
    }
  }

  method ReferrerSite(raw: string) returns (r: string)
    ensures r == Site(raw)
  {
    hide Clamp, ToLower, Host;
    var value := HostOf(raw);
    if value != "" && value[|value| - 1] == '.' {
      value := value[..|value| - 1];
    }
    value := ToLower(value);
    if "www." <= value {
      value := value[4..];
    }
    if value == "" || !IsHostStart(value[0]) {
      return "";
    }
    r := ClampItem(value);
  }

  // What nginx logs for no referrer names no site, and neither does a path alone.
  lemma NoneNamed(path: string)
    requires path == "" || (path[0] == '/' && !("//" <= path) && IndexOf(path, "://") < 0)
    ensures Site(path) == "" && Site("-") == ""
  {
    hide IndexAny, LastIndexByte, IndexOf;
    assert IndexOf("-", "://") == -1 by { DashHasNoScheme(); }
    assert AfterScheme("-") == "-" && AfterScheme(path) == path;
    IndexAnyNone("-", AuthorityEnd);
    assert Authority("-") == "-" && LastIndexByte("-", '@') == -1 && LastIndexByte("-", ':') == -1;
    assert Host("-") == "-";
    assert Authority(path) == "";
    assert Host(path) == "";
  }

  lemma DashHasNoScheme()
    ensures IndexOf("-", "://") == -1
  {
    assert "-"[1..] == "";
  }

  // ---------------------------------------------------------------------
  // Every way of writing a host is one row
  // ---------------------------------------------------------------------

  // A host in the form rows use: lower case, no leading "www.", no final dot.
  predicate CanonicalHost(h: string) {
    && h != "" && |h| <= MaxItemBytes && Printable(h)
    && Free(h, HostEnd)
    && ToLower(h) == h
    && ('a' <= h[0] <= 'z' || '0' <= h[0] <= '9')
    && h[|h| - 1] != '.'
    && !("www." <= h)
  }

  // What cannot stand between the brackets.
  const AddressEnd: set<char> := {'/', '?', '#', '@', ']'}

  // An IP literal of section 3.2.2 of RFC 3986, in lower case.
  predicate CanonicalLiteral(h: string, address: string) {
    h == "[" + ToLower(address) + "]" && |h| <= MaxItemBytes && Printable(h) && Free(address, AddressEnd)
  }

  // A host in any letter case, with "www." and a final dot or without, or a literal.
  datatype HostName = Named(www: string, name: string, dot: bool) | Bracketed(address: string)

  datatype Lead = Scheme(name: string) | TwoSlashes | Bare

  // The parts of section 3.2 of RFC 3986 around a host, as someone may write them.
  datatype Written = Written(
    lead: Lead,
    userinfo: Option<string>,
    host: HostName,
    port: Option<string>,
    tail: string             // path, query or fragment
  )

  function LeadText(l: Lead): string {
    match l
    case Scheme(name) => name + "://"
    case TwoSlashes => "//"
    case Bare => ""
  }

  function UserText(w: Written): string { if w.userinfo.Some? then w.userinfo.value + "@" else "" }

  function HostText(host: HostName): string {
    match host
    case Named(www, name, dot) => www + name + (if dot then "." else "")
    case Bracketed(address) => "[" + address + "]"
  }

  function PortText(w: Written): string { if w.port.Some? then ":" + w.port.value else "" }

  function AuthorityText(w: Written): string { UserText(w) + (HostText(w.host) + PortText(w)) }

  function Render(w: Written): string { LeadText(w.lead) + (AuthorityText(w) + w.tail) }

  predicate Names(host: HostName, h: string) {
    match host
    case Named(www, name, _) => CanonicalHost(h) && ToLower(name) == h && (www == "" || ToLower(www) == "www.")
    case Bracketed(address) => CanonicalLiteral(h, address)
  }

  predicate Writes(w: Written, h: string) {
    && Names(w.host, h)
    && (w.lead.Scheme? ==> ':' !in w.lead.name)
    && (!w.lead.Scheme? ==> IndexOf(Render(w), "://") == -1)
    && (w.userinfo.Some? ==> Free(w.userinfo.value, AuthorityEnd))
    && (w.port.Some? ==> Free(w.port.value, HostEnd))
    && (w.tail != "" ==> w.tail[0] in AuthorityEnd)
  }

  lemma SchemeFound(name: string, rest: string)
    requires ':' !in name
    ensures IndexOf(name + "://" + rest, "://") == |name|
  {
    var s := name + "://" + rest;
    assert s[|name|..] == "://" + rest;
    IndexOfIsFirst(s, "://", |name|);
    var i := IndexOf(s, "://");
    assert s[i..][0] == ':' && s[i] == ':';
    assert forall j :: 0 <= j < |name| ==> s[j] == name[j];
  }

  lemma LowerKeeps(c: char)
    ensures c in HostEnd || c == '.' ==> Lower(c) == c
    ensures Lower(c) == '.' ==> c == '.'
  {
  }

  lemma LowerFree(s: string)
    requires Free(ToLower(s), HostEnd)
    ensures Free(s, HostEnd)
  {
    forall i | 0 <= i < |s| ensures s[i] !in HostEnd {
      LowerKeeps(s[i]);
      assert ToLower(s)[i] == Lower(s[i]);
    }
  }

  lemma NamedFree(host: HostName, h: string)
    requires host.Named? && Names(host, h)
    ensures Free(HostText(host), HostEnd)
  {
    LowerFree(host.name);
    assert Free(host.www, HostEnd) by {
      if host.www != "" { LowerFree(host.www); }
    }
    FreeConcat(host.www, host.name, HostEnd);
    FreeConcat(host.www + host.name, if host.dot then "." else "", HostEnd);
  }

  lemma FewerStops(s: string)
    requires Free(s, HostEnd)
    ensures Free(s, AuthorityEnd) && '@' !in s && ':' !in s
    ensures s != "" ==> s[0] != '['
  {
  }

  lemma AddressStops(address: string)
    requires Free(address, AddressEnd)
    ensures Free("[" + address + "]", AuthorityEnd) && '@' !in "[" + address + "]" && ']' !in address
  {
    var text := "[" + address + "]";
    forall i | 0 <= i < |text| ensures text[i] !in AuthorityEnd && text[i] != '@' {
      if 0 < i <= |address| { assert text[i] == address[i - 1]; }
    }
  }

  lemma HostTextSafe(host: HostName, h: string)
    requires Names(host, h)
    ensures HostText(host) != "" && Free(HostText(host), AuthorityEnd) && '@' !in HostText(host)
  {
    if host.Named? {
      NamedFree(host, h);
      FewerStops(HostText(host));
      assert |host.name| == |h|;
    } else {
      AddressStops(host.address);
    }
  }

  lemma HostPortFree(w: Written, h: string)
    requires Writes(w, h)
    ensures '@' !in HostText(w.host) + PortText(w)
    ensures Free(AuthorityText(w), AuthorityEnd) && AuthorityText(w) != ""
  {
    HostTextSafe(w.host, h);
    hide Names;
    if w.port.Some? { FewerStops(w.port.value); }
    hide HostText;
    assert '@' !in PortText(w) && Free(PortText(w), AuthorityEnd);
    FreeConcat(HostText(w.host), PortText(w), AuthorityEnd);
    if w.userinfo.Some? { FreeConcat(w.userinfo.value, "@", AuthorityEnd); }
    FreeConcat(UserText(w), HostText(w.host) + PortText(w), AuthorityEnd);
  }

  lemma AfterLead(w: Written, h: string)
    requires Writes(w, h)
    ensures AfterScheme(Render(w)) == AuthorityText(w) + w.tail
  {
    HostPortFree(w, h);
    hide AuthorityText, IndexOf, Names, Free;
    var rest := AuthorityText(w) + w.tail;
    match w.lead {
      case Scheme(name) =>
        SchemeFound(name, rest);
        assert Render(w) == name + "://" + rest;
        assert Render(w)[|name| + 3..] == rest;
      case TwoSlashes =>
        assert Render(w)[2..] == rest;
      case Bare =>
        assert Render(w) == rest;
        assert rest[0] == AuthorityText(w)[0];
    }
  }

  lemma AuthorityFound(w: Written, h: string)
    requires Writes(w, h)
    ensures Authority(AfterScheme(Render(w))) == AuthorityText(w)
  {
    AfterLead(w, h);
    HostPortFree(w, h);
    hide AuthorityText, AfterScheme, Names, IndexAny;
    var rest := AuthorityText(w) + w.tail;
    if w.tail == "" {
      assert rest == AuthorityText(w);
      IndexAnyNone(rest, AuthorityEnd);
    } else {
      IndexAnyAfter(AuthorityText(w), w.tail, AuthorityEnd);
    }
  }

  lemma HostPortFound(w: Written, h: string)
    requires Writes(w, h)
    ensures AfterUserinfo(AuthorityText(w)) == HostText(w.host) + PortText(w)
  {
    HostPortFree(w, h);
    hide HostText, PortText, LastIndexByte, Names;
    var hostPort := HostText(w.host) + PortText(w);
    if w.userinfo.Some? {
      assert AuthorityText(w) == w.userinfo.value + ['@'] + hostPort;
      LastIndexAfter(w.userinfo.value, '@', hostPort);
    } else {
      assert AuthorityText(w) == hostPort;
    }
  }

  lemma HostFound(w: Written, h: string)
    requires Writes(w, h)
    ensures WithoutPort(HostText(w.host) + PortText(w)) == HostText(w.host)
  {
    if w.host.Named? {
      NamedFree(w.host, h);
      hide HostText, Names, WithoutPort;
      NamedFound(HostText(w.host), w.port);
    } else {
      AddressStops(w.host.address);
      hide WithoutPort, Free;
      LiteralFound(w.host.address, PortText(w));
    }
  }

  lemma NamedFound(text: string, port: Option<string>)
    requires Free(text, HostEnd) && (port.Some? ==> Free(port.value, HostEnd))
    ensures WithoutPort(text + (if port.Some? then ":" + port.value else "")) == text
  {
    FewerStops(text);
    if port.Some? { FewerStops(port.value); }
    hide LastIndexByte, Free;
    if port.Some? {
      var hostPort := text + (":" + port.value);
      assert hostPort == text + [':'] + port.value;
      LastIndexAfter(text, ':', port.value);
      assert hostPort[0] == if text == "" then ':' else text[0];
    } else {
      assert text + "" == text;
    }
  }

  // A literal keeps its colons and ends at its bracket, whatever follows.
  lemma LiteralFound(address: string, rest: string)
    requires ']' !in address
    ensures WithoutPort("[" + address + "]" + rest) == "[" + address + "]"
  {
    var front, back := "[" + address, "]" + rest;
    var all := front + back;
    assert all == "[" + address + "]" + rest;
    assert Free(front, {']'}) by {
      forall i | 0 <= i < |front| ensures front[i] !in {']'} { if i > 0 { assert front[i] == address[i - 1]; } }
    }
    IndexAnyAfter(front, back, {']'});
    assert all[..|front| + 1] == "[" + address + "]";
  }

  lemma LowerConcat(a: string, b: string)
    ensures ToLower(a + b) == ToLower(a) + ToLower(b)
  {
  }

  lemma HostReduced(host: HostName, h: string)
    requires Names(host, h)
    ensures TrimWww(ToLower(TrimDot(HostText(host)))) == h
  {
    if host.Named? {
      NamedReduced(host.www, host.name, host.dot, h);
    } else {
      LiteralReduced(host.address);
    }
  }

  lemma NamedReduced(www: string, name: string, dot: bool, h: string)
    requires CanonicalHost(h) && ToLower(name) == h && (www == "" || ToLower(www) == "www.")
    ensures TrimWww(ToLower(TrimDot(www + name + (if dot then "." else "")))) == h
  {
    LowerKeeps(name[|name| - 1]);
    assert name[|name| - 1] != '.' by {
      assert ToLower(name)[|h| - 1] == Lower(name[|name| - 1]);
    }
    hide ToLower, TrimWww, TrimDot, CanonicalHost;
    DotTrimmed(www, name, dot);
    LowerConcat(www, name);
    WwwTrimmed(www, name, h);
  }

  lemma LiteralReduced(address: string)
    ensures TrimWww(ToLower(TrimDot("[" + address + "]"))) == "[" + ToLower(address) + "]"
  {
    var text := "[" + address + "]";
    assert text[|text| - 1] == ']' && TrimDot(text) == text;
    LowerConcat("[" + address, "]");
    LowerConcat("[", address);
    assert ToLower("[") == "[" && ToLower("]") == "]";
    hide ToLower;
    assert ("[" + ToLower(address) + "]")[0] == '[';
  }

  lemma DotTrimmed(www: string, name: string, dot: bool)
    requires name != "" && name[|name| - 1] != '.'
    ensures TrimDot(www + name + (if dot then "." else "")) == www + name
  {
    var plain := www + name;
    assert plain[|plain| - 1] == name[|name| - 1];
    assert plain + "" == plain;
  }

  lemma WwwTrimmed(www: string, name: string, h: string)
    requires ToLower(www + name) == ToLower(www) + ToLower(name)
    requires ToLower(name) == h && !("www." <= h) && (www == "" || ToLower(www) == "www.")
    ensures TrimWww(ToLower(www + name)) == h
  {
    var low := ToLower(www);
    hide ToLower;
    assert low + h == ToLower(www + name);
    if www == "" {
      assert "" + name == name;
    } else {
      assert (low + h)[4..] == h;
    }
  }

  lemma CanonicalStarts(host: HostName, h: string)
    requires Names(host, h)
    ensures h != "" && IsHostStart(h[0]) && |h| <= MaxItemBytes && Printable(h)
  {
    hide ToLower, Free;
  }

  // Scheme or not, credentials, "www.", letter case, a final dot, a port, a page:
  // none of it changes the row of a host or of a bracketed literal.
  lemma SameSite(w: Written, h: string)
    requires Writes(w, h)
    ensures Site(Render(w)) == h
  {
    hide Authority, AfterScheme, AfterUserinfo, WithoutPort, TrimWww, TrimDot, Render, HostText, PortText,
         AuthorityText, Clamp, Valid, ToLower, Free, Names;
    AuthorityFound(w, h);
    HostPortFound(w, h);
    HostFound(w, h);
    HostReduced(w.host, h);
    CanonicalStarts(w.host, h);
    AsciiValid(h);
    ClampFixes(h);
  }

  // ---------------------------------------------------------------------
  // Reducing a site again
  // ---------------------------------------------------------------------

  const HostStops: set<char> := {'/', '?', '#', '@'}

  lemma FreePart(s: string, i: nat, j: nat, cs: set<char>)
    requires Free(s, cs) && i <= j <= |s|
    ensures Free(s[i..j], cs)
  {
  }

  lemma UserinfoGone(v: string)
    requires Free(v, AuthorityEnd)
    ensures Free(AfterUserinfo(v), HostStops)
  {
    hide LastIndexByte;
    var i := LastIndexByte(v, '@');
    var r := AfterUserinfo(v);
    forall j | 0 <= j < |r| ensures r[j] !in HostStops {
      if i >= 0 { assert r[j] == v[i + 1 + j]; }
      assert r[j] != '@' && r[j] !in AuthorityEnd;
    }
  }

  lemma HostFree(raw: string)
    ensures Free(Host(raw), HostStops)
  {
    hide AfterScheme, AfterUserinfo, IndexByte, LastIndexByte;
    var v := Authority(AfterScheme(raw));
    assert Free(v, AuthorityEnd);
    UserinfoGone(v);
    hide Authority;
    var hostPort := AfterUserinfo(v);
    assert WithoutPort(hostPort) <= hostPort;
    FreePart(hostPort, 0, |WithoutPort(hostPort)|, HostStops);
    assert hostPort[0..|WithoutPort(hostPort)|] == WithoutPort(hostPort);
  }

  lemma LoweredFree(s: string)
    requires Free(s, HostStops)
    ensures Free(ToLower(s), HostStops) && ToLower(ToLower(s)) == ToLower(s)
  {
    forall i | 0 <= i < |s| ensures ToLower(s)[i] !in HostStops && Lower(Lower(s[i])) == Lower(s[i]) {
      assert s[i] !in HostStops;
    }
  }

  // What every row looks like.
  ghost predicate SiteRow(y: string) {
    Free(y, HostStops) && ToLower(y) == y && Presentable(y) && (y != "" ==> IsHostStart(y[0]))
  }

  lemma LowerPart(s: string, i: nat, j: nat)
    requires ToLower(s) == s && i <= j <= |s|
    ensures ToLower(s[i..j]) == s[i..j]
  {
    forall k | i <= k < j ensures Lower(s[k]) == s[k] { assert ToLower(s)[k] == s[k]; }
  }

  lemma SiteIsRow(raw: string)
    ensures SiteRow(Site(raw))
  {
    hide Host, ToLower, Clamp, Free, Presentable;
    HostFree(raw);
    var dotless := TrimDot(Host(raw));
    FreePart(Host(raw), 0, |dotless|, HostStops);
    assert Host(raw)[0..|dotless|] == dotless;
    LoweredFree(dotless);
    var low := ToLower(dotless);
    var site, y := TrimWww(low), Site(raw);
    var from := |low| - |site|;
    assert low[from..] == site;
    ClampIsSafe(site);
    ClampIsSafe("");
    EmptyRow();
    if y != "" {
      assert y == low[from..from + |y|];
      FreePart(low, from, from + |y|, HostStops);
      LowerPart(low, from, from + |y|);
    }
  }

  lemma EmptyRow()
    ensures SiteRow("") && Site("") == ""
  {
    assert Valid("");
  }

  // A row with nothing left to strip.
  predicate Settled(y: string) {
    y != "" ==>
      && y[|y| - 1] != '.' && !("www." <= y)
      && if y[0] == '[' then ']' !in y[..|y| - 1] else ':' !in y
  }

  lemma SchemeHasSlash(y: string)
    ensures IndexOf(y, "://") >= 0 ==> '/' in y
  {
    var i := IndexOf(y, "://");
    if i >= 0 {
      assert "://" <= y[i..];
      assert y[i + 1] == y[i..][1] == "://"[1];
    }
  }

  lemma NoScheme(y: string)
    requires Free(y, HostStops)
    ensures Host(y) == WithoutPort(y)
  {
    hide WithoutPort, LastIndexByte;
    assert '/' !in y;
    SchemeHasSlash(y);
    IndexAnyNone(y, AuthorityEnd);
    assert '@' !in y;
  }

  lemma PortGone(y: string)
    requires y != ""
    ensures WithoutPort(y) <= y
    ensures WithoutPort(y) == y <==> if y[0] == '[' then ']' !in y[..|y| - 1] else ':' !in y
  {
    hide IndexAny, LastIndexByte;
    if y[0] == '[' {
      var i := IndexByte(y, ']');
      if 0 <= i < |y| - 1 { assert y[..|y| - 1][i] == ']'; }
    }
  }

  lemma RowAgain(y: string)
    requires SiteRow(y) && y != ""
    ensures Site(y) == y <==> Settled(y)
  {
    hide WithoutPort, Host, Free, Clamp, ToLower, Presentable;
    NoScheme(y);
    PortGone(y);
    ClampFixes(y);
    var bare := TrimDot(Host(y));
    assert bare <= y && bare == y[0..|bare|];
    LowerPart(y, 0, |bare|);
    ClampIsSafe(TrimWww(bare));
    if Site(y) == y {
      assert |TrimWww(bare)| >= |y|;
      assert bare == y;
    }
  }

  // Reducing a row again leaves it alone if and only if it has no final dot, no
  // leading "www.", and no port or text after a bracket left to strip.
  lemma SiteAgainExactly(raw: string)
    ensures Site(Site(raw)) == Site(raw) <==> Settled(Site(raw))
  {
    hide Site, Settled;
    SiteIsRow(raw);
    if Site(raw) == "" {
      EmptyRow();
      assert Settled("") by { EmptySettled(); }
    } else {
      RowAgain(Site(raw));
    }
  }

  lemma EmptySettled()
    ensures Settled("")
  {
  }

  predicate PlainHost(h: string) {
    && h != "" && |h| <= MaxItemBytes && Printable(h) && ToLower(h) == h
    && Free(h, HostStops) && ':' !in h && 'a' <= h[0] <= 'z' && h[|h| - 1] != '.'
  }

  lemma WwwText(h: string)
    requires PlainHost(h)
    ensures ToLower("www." + h) == "www." + h && Free("www." + h, HostStops) && ':' !in "www." + h
  {
    LowerConcat("www.", h);
    assert ToLower("www.") == "www.";
    FreeConcat("www.", h, HostStops);
    hide ToLower, Free, Printable;
  }

  lemma WwwEnds(h: string)
    requires h != "" && h[|h| - 1] != '.'
    ensures var text := "www." + h; text[0] == 'w' && TrimDot(text) == text && TrimWww(text) == h
  {
    var text := "www." + h;
    assert text[|text| - 1] == h[|h| - 1] && text[4..] == h;
  }

  // Only one "www." goes at a time.
  lemma OneWwwGone(h: string)
    requires PlainHost(h)
    ensures Site("www." + h) == h
  {
    var text := "www." + h;
    WwwText(h);
    WwwEnds(h);
    AsciiValid(h);
    hide ToLower, Free, Printable, Host, Valid, WithoutPort, TrimWww, TrimDot, ControlFree, Clamp;
    NoScheme(text);
    PortGone(text);
    ClampFixes(h);
  }

  lemma DoubledWwwShown()
    ensures Site("www.www.a") == "www.a" && Site("www.a") == "a"
  {
    hide Site;
    assert "www." + "a" == "www.a" && "www." + "www.a" == "www.www.a";
    assert ToLower("a") == "a" && PlainHost("a");
    WwwText("a");
    hide ToLower, Free;
    assert PlainHost("www.a");
    OneWwwGone("a");
    OneWwwGone("www.a");
  }
}
