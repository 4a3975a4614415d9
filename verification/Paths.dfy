/**
 Reducing a request target to the page it names: the query goes, segments that
 identify one record become ":id", one trailing slash goes, and the rest is
 clamped.
 */
module Paths {
  import opened Text
  import opened Wrappers
  import opened Items
  import opened Numbers

  const IdPlaceholder: string := ":id"

  // ---------------------------------------------------------------------
  // Identifier segments
  // ---------------------------------------------------------------------

  predicate IsHexDigit(c: char) { IsDigit(c) || 'a' <= c <= 'f' || 'A' <= c <= 'F' }

  predicate AllHex(s: string) { s != "" && forall i :: 0 <= i < |s| ==> IsHexDigit(s[i]) }

  predicate DashAt(i: int) { i == 8 || i == 13 || i == 18 || i == 23 }

  predicate DashedUUID(s: string) {
    |s| == 36 && forall i :: 0 <= i < 36 ==> if DashAt(i) then s[i] == '-' else IsHexDigit(s[i])
  }

  // A number, a dashed UUID, or a long run of hex.
  predicate Identifier(segment: string) {
    (segment != "" && AllDigits(segment)) || DashedUUID(segment) || (|segment| >= 16 && AllHex(segment))
  }

  method IsAllDigits(s: string) returns (b: bool)
    ensures b <==> s != "" && AllDigits(s)
  {
    for i := 0 to |s|
      invariant forall j :: 0 <= j < i ==> IsDigit(s[j])
    {
      if s[i] < '0' || s[i] > '9' {
        return false;
      }
    }
    return s != "";
  }

  method IsAllHex(s: string) returns (b: bool)
    ensures b <==> AllHex(s)
  {
    for i := 0 to |s|
      invariant forall j :: 0 <= j < i ==> IsHexDigit(s[j])
    {
      if !IsHexDigit(s[i]) {
        return false;
      }
    }
    return s != "";
  }

  method IsDashedUUID(s: string) returns (b: bool)
    ensures b <==> DashedUUID(s)
  {
    if |s| != 36 {
      return false;
    }
    for i := 0 to |s|
      invariant forall j :: 0 <= j < i ==> if DashAt(j) then s[j] == '-' else IsHexDigit(s[j])
    {
      if i == 8 || i == 13 || i == 18 || i == 23 {
        if s[i] != '-' {
          return false;
        }
      } else if !IsHexDigit(s[i]) {
        return false;
      }
    }
    return true;
  }

  method IsIdentifierSegment(segment: string) returns (b: bool)
    ensures b <==> Identifier(segment)
  {
    if segment == "" {
      return false;
    }
    b := IsAllDigits(segment);
    if !b {
      b := IsDashedUUID(segment);
    }
    if !b && |segment| >= 16 {
      b := IsAllHex(segment);
    }
  }

  // Five groups of hex digits.
  ghost predicate Groups(s: string, g: seq<string>) {
    && |g| == 5 && |g[0]| == 8 && |g[1]| == |g[2]| == |g[3]| == 4 && |g[4]| == 12
    && (forall i :: 0 <= i < 5 ==> AllHex(g[i]))
    && s == g[0] + "-" + g[1] + "-" + g[2] + "-" + g[3] + "-" + g[4]
  }

  // A dashed UUID is five groups of 8, 4, 4, 4 and 12 hex digits with dashes between.
  lemma DashedExactly(s: string)
    ensures DashedUUID(s) <==> exists g :: Groups(s, g)
  {
    if DashedUUID(s) {
      var g := [s[..8], s[9..13], s[14..18], s[19..23], s[24..]];
      assert s == g[0] + "-" + g[1] + "-" + g[2] + "-" + g[3] + "-" + g[4];
      assert Groups(s, g);
    }
    if g :| Groups(s, g) {
      GroupsDashed(s, g);
    }
  }

  lemma GroupsDashed(s: string, g: seq<string>)
    requires Groups(s, g)
    ensures DashedUUID(s)
  {
    forall i | 0 <= i < 36 ensures if DashAt(i) then s[i] == '-' else IsHexDigit(s[i]) {
      if i < 8 { assert s[i] == g[0][i]; }
      else if 8 < i < 13 { assert s[i] == g[1][i - 9]; }
      else if 13 < i < 18 { assert s[i] == g[2][i - 14]; }
      else if 18 < i < 23 { assert s[i] == g[3][i - 19]; }
      else if 23 < i { assert s[i] == g[4][i - 24]; }
    }
  }

  const TenDigits: set<char> := {'0', '1', '2', '3', '4', '5', '6', '7', '8', '9'}

  // The three shapes in terms of their characters; a slug is none of them.
  lemma IdentifierExactly(s: string)
    ensures Identifier(s) <==>
            || (s != "" && forall c :: c in s ==> c in TenDigits)
            || (exists g :: Groups(s, g))
            || (|s| >= 16 && forall c :: c in s ==> c in TenDigits + {'a', 'b', 'c', 'd', 'e', 'f', 'A', 'B', 'C', 'D', 'E', 'F'})
  {
    DashedExactly(s);
    forall c ensures IsDigit(c) <==> c in TenDigits {}
    forall c ensures IsHexDigit(c) <==> c in TenDigits + {'a', 'b', 'c', 'd', 'e', 'f', 'A', 'B', 'C', 'D', 'E', 'F'} {}
    hide DashedUUID, Groups, IsDigit, IsHexDigit;
  }

  lemma IdentifierBytes(segment: string)
    requires Identifier(segment)
    ensures segment != "" && IsHexDigit(segment[0])
    ensures forall c :: c in segment ==> IsHexDigit(c) || c == '-'
  {
  }

  // ---------------------------------------------------------------------
  // The reduction
  // ---------------------------------------------------------------------

  function CutQuery(target: string): string {
    var i := IndexAny(target, {'?', '#'});
    if i >= 0 then target[..i] else target
  }

  // The path of a target, which may be given as a whole URL; None names no page.
  function Rooted(target: string): (r: Option<string>)
    ensures r.Some? ==> r.value != "" && r.value[0] == '/'
  {
    if "/" <= target then Some(target)
    else
      var i := IndexOf(target, "://");
      if i < 0 then None
      else
        var rest := target[i + 3..];
        var j := IndexByte(rest, '/');
        if j < 0 then None else Some(rest[j..])
  }

  function Collapse(segments: seq<string>): (r: seq<string>)
    ensures |r| == |segments|
    ensures forall i :: 0 <= i < |r| ==> r[i] == if Identifier(segments[i]) then IdPlaceholder else segments[i]
  {
    seq(|segments|, i requires 0 <= i < |segments| => if Identifier(segments[i]) then IdPlaceholder else segments[i])
  }

  function Collapsed(path: string): string { Join(Collapse(Split(path, '/')), '/') }

  function TrimSlash(path: string): string {
    if |path| > 1 && path[|path| - 1] == '/' then path[..|path| - 1] else path
  }

  function Normalized(target: string): string {
    match Rooted(CutQuery(target))
    case None => ""
    case Some(path) => Clamp(TrimSlash(Collapsed(path)))
  }

  method CollapseSegments(segments: seq<string>) returns (r: seq<string>)
    ensures r == Collapse(segments)
  {
    r := segments;
    for i := 0 to |segments|
      invariant |r| == |segments|
      invariant forall j :: 0 <= j < i ==> r[j] == Collapse(segments)[j]
      invariant forall j :: i <= j < |r| ==> r[j] == segments[j]
    {
      var isId := IsIdentifierSegment(segments[i]);
      if isId {
        r := r[i := IdPlaceholder];
      }
    }
  }

  method NormalizePath(target: string) returns (r: string)
    ensures r == Normalized(target)
  {
    hide Clamp, Split, Join, Collapse, IndexAny, IndexOf, IndexByte;
    var path := target;
    var q := IndexAny(path, {'?', '#'});
    if q >= 0 {
      path := path[..q];
    }
    if !("/" <= path) {
      var i := IndexOf(path, "://");
      if i < 0 {
        return "";
      }
      var rest := path[i + 3..];
      var j := IndexByte(rest, '/');
      if j < 0 {
        return "";
      }
      path := rest[j..];
    }
    assert Rooted(CutQuery(target)) == Some(path);
    hide Rooted, CutQuery;
    var segments := CollapseSegments(Split(path, '/'));
    path := Join(segments, '/');
    if |path| > 1 && path[|path| - 1] == '/' {
      path := path[..|path| - 1];
    }
    r := ClampItem(path);
  }

  // ---------------------------------------------------------------------
  // What a row looks like
  // ---------------------------------------------------------------------

  predicate NoQuery(s: string) { Free(s, {'?', '#'}) }

  lemma {:induction false} JoinBytes(parts: seq<string>, c: char)
    requires |parts| >= 1 && c != '/' && forall i :: 0 <= i < |parts| ==> c !in parts[i]
    ensures c !in Join(parts, '/')
  {
    if |parts| > 1 {
      JoinBytes(parts[1..], c);
    }
  }

  lemma {:induction false} SplitBytes(s: string, c: char)
    requires c !in s
    ensures forall i :: 0 <= i < |Split(s, '/')| ==> c !in Split(s, '/')[i]
    decreases |s|
  {
    var i := IndexByte(s, '/');
    if i >= 0 {
      SplitBytes(s[i + 1..], c);
    }
  }

  lemma CollapsedBytes(path: string, c: char)
    requires c !in path && c != '/' && c !in IdPlaceholder
    ensures c !in Collapsed(path)
  {
    SplitBytes(path, c);
    JoinBytes(Collapse(Split(path, '/')), c);
  }

  lemma RootedSplit(path: string)
    requires path != "" && path[0] == '/'
    ensures Split(path, '/') == [""] + Split(path[1..], '/')
  {
    assert path == "" + ['/'] + path[1..];
    SplitFirst("", path[1..], '/');
  }

  lemma CollapsedRooted(path: string)
    requires path != "" && path[0] == '/'
    ensures Collapsed(path) != "" && Collapsed(path)[0] == '/'
  {
    RootedSplit(path);
    assert Collapse(Split(path, '/'))[0] == "";
  }

  lemma RootedNoQuery(target: string)
    ensures var r := Rooted(CutQuery(target)); r.Some? ==> NoQuery(r.value)
  {
    assert NoQuery(CutQuery(target));
  }

  // Every row is a rooted path without query or fragment, and acceptable as an item.
  lemma RowShape(target: string)
    ensures var row := Normalized(target);
            row != "" ==> row[0] == '/' && NoQuery(row) && Presentable(row)
  {
    var p := Rooted(CutQuery(target));
    if p.Some? {
      RootedNoQuery(target);
      CollapsedRooted(p.value);
      CollapsedBytes(p.value, '?');
      CollapsedBytes(p.value, '#');
      ClampIsSafe(TrimSlash(Collapsed(p.value)));
    }
  }

  // ---------------------------------------------------------------------
  // A target may name the whole URL
  // ---------------------------------------------------------------------

  // What stands before the first "://".
  ghost predicate Leads(name: string) { forall i :: 0 <= i < |name| ==> !("://" <= (name + "://")[i..]) }

  lemma WholeFirst(name: string, rest: string)
    requires Leads(name)
    ensures IndexOf(name + "://" + rest, "://") == |name|
  {
    var lead, all := name + "://", name + "://" + rest;
    assert all[|name|..] == "://" + rest;
    IndexOfIsFirst(all, "://", |name|);
    forall i | 0 <= i < |name| ensures !("://" <= all[i..]) {
      assert all[i..][..3] == lead[i..][..3];
    }
  }

  lemma AuthorityEnds(authority: string, path: string)
    requires '/' !in authority && (path == "" || path[0] == '/')
    ensures IndexByte(authority + path, '/') == if path == "" then -1 else |authority|
  {
    if path == "" {
      assert authority + path == authority;
    } else {
      IndexAnyAfter(authority, path, {'/'});
    }
  }

  lemma WholePath(name: string, authority: string, path: string)
    requires Leads(name) && !("/" <= name) && '/' !in authority && (path == "" || path[0] == '/')
    ensures Rooted(name + "://" + authority + path) == if path == "" then None else Some(path)
  {
    hide IndexOf, IndexAny;
    var rest := authority + path;
    var all := name + "://" + rest;
    Associative(name + "://", authority, path);
    assert all[0] == (name + ":")[0];
    WholeFirst(name, rest);
    assert all[|name| + 3..] == rest;
    AuthorityEnds(authority, path);
    assert path != "" ==> rest[|authority|..] == path;
  }

  // A target that names the whole URL has the row of its path alone, whatever the host;
  // and none if it has no path, even if its query has slashes.
  lemma WholeTarget(name: string, authority: string, path: string)
    requires Leads(name) && NoQuery(name) && !("/" <= name) && Free(authority, {'/', '?', '#'})
    requires path == "" || path[0] in {'/', '?', '#'}
    ensures Normalized(name + "://" + authority + path) == if "/" <= path then Normalized(path) else ""
  {
    hide Rooted, Collapsed, Clamp;
    var lead := name + "://" + authority;
    FreeConcat(name, "://", {'?', '#'});
    FreeConcat(name + "://", authority, {'?', '#'});
    CutQueryAfter(lead, path);
    var cut := CutQuery(path);
    CutStart(path);
    WholePath(name, authority, cut);
    RootedItself(cut);
  }

  lemma CutStart(path: string)
    requires path == "" || path[0] in {'/', '?', '#'}
    ensures CutQuery(path) == "" || CutQuery(path)[0] == '/'
    ensures CutQuery(path) == "" <==> !("/" <= path)
  {
  }

  lemma RootedItself(path: string)
    ensures "/" <= path ==> Rooted(path) == Some(path)
  {
  }

  // Any other target that does not start with a slash has none: one with no "://" before
  // its query.
  lemma NoTarget(target: string)
    requires !("/" <= target) && forall i :: 0 <= i <= |CutQuery(target)| ==> !("://" <= CutQuery(target)[i..])
    ensures Normalized(target) == ""
  {
    var cut := CutQuery(target);
    assert !("/" <= cut);
    assert IndexOf(cut, "://") < 0;
  }

  predicate NoIdentifier(path: string) {
    forall i :: 0 <= i < |Split(path, '/')| ==> !Identifier(Split(path, '/')[i])
  }

  lemma IdPlain()
    ensures !Identifier(IdPlaceholder) && '/' !in IdPlaceholder
  {
    assert !IsDigit(IdPlaceholder[0]);
  }

  // After collapsing no segment identifies a record any more.
  lemma CollapsedHasNone(path: string)
    ensures NoIdentifier(Collapsed(path))
    ensures NoIdentifier(path) ==> Collapsed(path) == path
  {
    hide Split, Join, Identifier;
    IdPlain();
    var segments := Collapse(Split(path, '/'));
    forall i | 0 <= i < |segments| ensures '/' !in segments[i] { assert '/' !in Split(path, '/')[i]; }
    SplitJoin(segments, '/');
    JoinSplit(path, '/');
    if NoIdentifier(path) {
      assert segments == Split(path, '/');
    }
  }

  lemma JoinFree(segments: seq<string>)
    requires segments != [] && forall i :: 0 <= i < |segments| ==> Free(segments[i], {'/', '?', '#'})
    ensures NoQuery(Join(segments, '/')) && forall i :: 0 <= i < |segments| ==> '/' !in segments[i]
  {
    forall i | 0 <= i < |segments| ensures '/' !in segments[i] && '?' !in segments[i] && '#' !in segments[i] {
      assert Free(segments[i], {'/', '?', '#'});
    }
    hide Free;
    JoinBytes(segments, '?');
    JoinBytes(segments, '#');
    NeitherIn(Join(segments, '/'));
  }

  lemma NeitherIn(s: string)
    requires '?' !in s && '#' !in s
    ensures NoQuery(s)
  {
  }

  lemma {:induction false} JoinLast(parts: seq<string>, last: string)
    requires parts != []
    ensures Join(parts + [last], '/') == Join(parts, '/') + "/" + last
  {
    if |parts| == 1 {
      assert parts + [last] == [parts[0], last] && [parts[0], last][1..] == [last];
    } else {
      JoinLast(parts[1..], last);
      assert (parts + [last])[1..] == parts[1..] + [last];
    }
  }

  lemma CollapsedSegments(segments: seq<string>)
    requires segments != [] && forall i :: 0 <= i < |segments| ==> '/' !in segments[i]
    ensures Collapsed("/" + Join(segments, '/')) == "/" + Join(Collapse(segments), '/')
  {
    hide Split, Identifier, Join, Collapse;
    var path := "/" + Join(segments, '/');
    assert path[0] == '/' && path[1..] == Join(segments, '/');
    RootedSplit(path);
    SplitJoin(segments, '/');
    CollapseRooted(segments);
    JoinRooted(Collapse(segments));
  }

  lemma CollapseRooted(segments: seq<string>)
    requires segments != []
    ensures Collapse([""] + segments) == [""] + Collapse(segments) && Collapse(segments) != []
  {
    EmptyPlain();
    hide Identifier;
  }

  lemma JoinRooted(parts: seq<string>)
    requires parts != []
    ensures Join([""] + parts, '/') == "/" + Join(parts, '/')
  {
    assert ([""] + parts)[1..] == parts;
  }

  lemma EmptyPlain()
    ensures !Identifier("")
  {
  }

  lemma TrimmedSegments(segments: seq<string>)
    requires segments != [] && forall i :: 0 <= i < |segments| ==> '/' !in segments[i]
    ensures var last, placed := segments[|segments| - 1], Collapse(segments);
            TrimSlash("/" + Join(placed, '/')) ==
            if last == "" && |segments| > 1 then "/" + Join(Collapse(segments[..|segments| - 1]), '/')
            else "/" + Join(placed, '/')
  {
    hide Identifier, Join;
    var n := |segments| - 1;
    var front, last := segments[..n], segments[n];
    var placed := Collapse(segments);
    IdPlain();
    EmptyPlain();
    var own := placed[n];
    assert placed == Collapse(front) + [own];
    if n == 0 {
      assert placed == [own];
      LoneSegment(own);
    } else {
      JoinLast(Collapse(front), own);
      EndSegment(Join(Collapse(front), '/'), own);
    }
  }

  lemma LoneSegment(own: string)
    requires '/' !in own
    ensures TrimSlash("/" + Join([own], '/')) == "/" + Join([own], '/')
  {
    var path := "/" + own;
    assert own != "" ==> path[|path| - 1] == own[|own| - 1];
  }

  lemma EndSegment(front: string, own: string)
    requires '/' !in own
    ensures TrimSlash("/" + (front + "/" + own)) == if own == "" then "/" + front else "/" + (front + "/" + own)
  {
    var path := "/" + (front + "/" + own);
    if own == "" {
      assert path[|path| - 1] == '/' && path[..|path| - 1] == "/" + front;
    } else {
      assert path[|path| - 1] == own[|own| - 1];
    }
  }

  // The row of every rooted target, whatever its query: its segments, with ":id" for each
  // that names a record, and without a last empty one; as much of that as an item may be.
  lemma RowOfSegments(segments: seq<string>, placed: seq<string>, query: string)
    requires segments != [] && forall i :: 0 <= i < |segments| ==> Free(segments[i], {'/', '?', '#'})
    requires |placed| == |segments|
    requires forall i :: 0 <= i < |placed| ==> placed[i] == if Identifier(segments[i]) then ":id" else segments[i]
    requires query == "" || query[0] in {'?', '#'}
    ensures var n := |segments| - 1;
            Normalized("/" + Join(segments, '/') + query)
            == Clamp("/" + Join(if n > 0 && segments[n] == "" then placed[..n] else placed, '/'))
  {
    hide Join, Collapsed, Clamp, TrimSlash;
    var path, n := "/" + Join(segments, '/'), |segments| - 1;
    assert placed == Collapse(segments);
    assert Collapse(segments)[..n] == Collapse(segments[..n]);
    hide Collapse, Identifier;
    JoinFree(segments);
    FreeConcat("/", Join(segments, '/'), {'?', '#'});
    CutQueryAfter(path, query);
    assert path + "" == path;
    QueryCut(query);
    RootedItself(path);
    CollapsedSegments(segments);
    TrimmedSegments(segments);
  }

  // Whatever its number, an order's page is one row.
  lemma OrdersShown(number: string)
    requires number != "" && AllDigits(number)
    ensures Normalized("/orders/" + number) == "/orders/:id"
  {
    hide Identifier, Clamp, Normalized, AllDigits, Join;
    var segments, placed := ["orders", number], ["orders", ":id"];
    NumberNamed(number);
    WordPlain();
    RowOfSegments(segments, placed, "");
    JoinTwo("orders", number);
    JoinTwo("orders", ":id");
    assert "/" + ("orders" + "/" + number) + "" == "/orders/" + number;
    assert "/" + ("orders" + "/" + ":id") == "/orders/:id";
    AsciiValid("/orders/:id");
    ClampFixes("/orders/:id");
  }

  lemma JoinTwo(a: string, b: string)
    ensures Join([a, b], '/') == a + "/" + b
  {
    assert [a, b][1..] == [b];
  }

  lemma NumberNamed(number: string)
    requires number != "" && AllDigits(number)
    ensures Identifier(number) && Free(number, {'/', '?', '#'})
  {
  }

  lemma WordPlain()
    ensures !Identifier("orders") && Free("orders", {'/', '?', '#'})
  {
    assert !IsHexDigit("orders"[0]) && !IsDigit("orders"[0]);
  }

  lemma QueryCut(query: string)
    requires query == "" || query[0] in {'?', '#'}
    ensures CutQuery(query) == ""
  {
  }

  // ---------------------------------------------------------------------
  // Which record was asked for makes no difference
  // ---------------------------------------------------------------------

  predicate Boundary(post: string) { post == "" || post[0] in {'/', '?', '#'} }

  lemma CutQueryAfter(pre: string, post: string)
    requires NoQuery(pre)
    ensures CutQuery(pre + post) == pre + CutQuery(post)
  {
    var i := IndexAny(post, {'?', '#'});
    if i < 0 {
      assert NoQuery(post);
      IndexAnyNone(pre + post, {'?', '#'});
    } else {
      var front := pre + post[..i];
      assert pre + post == front + post[i..];
      assert NoQuery(front);
      IndexAnyAfter(front, post[i..], {'?', '#'});
    }
  }

  lemma CollapseConcat(a: seq<string>, b: seq<string>)
    ensures Collapse(a + b) == Collapse(a) + Collapse(b)
  {
  }

  function SegmentsAfter(rest: string): seq<string> {
    if rest == "" then [] else Split(rest[1..], '/')
  }

  lemma SplitAround(pre: string, id: string, rest: string)
    requires '/' !in id && (rest == "" || rest[0] == '/')
    ensures Split(pre + "/" + id + rest, '/') == Split(pre, '/') + ([id] + SegmentsAfter(rest))
  {
    hide Split;
    var tail := id + rest;
    assert pre + "/" + id + rest == pre + ['/'] + tail;
    SplitConcat(pre, tail, '/');
    if rest == "" {
      assert tail == id;
      SplitNone(id, '/');
    } else {
      assert tail == id + ['/'] + rest[1..];
      SplitFirst(id, rest[1..], '/');
    }
  }

  lemma IdentifierAfter(pre: string, id: string, rest: string)
    requires Identifier(id) && (rest == "" || rest[0] == '/')
    ensures Collapse(Split(pre + "/" + id + rest, '/'))
         == Collapse(Split(pre, '/')) + ([IdPlaceholder] + Collapse(SegmentsAfter(rest)))
  {
    IdentifierBytes(id);
    hide Split, SegmentsAfter;
    SplitAround(pre, id, rest);
    CollapseConcat(Split(pre, '/'), [id] + SegmentsAfter(rest));
    CollapseConcat([id], SegmentsAfter(rest));
    assert Collapse([id]) == [IdPlaceholder];
  }

  // Replacing an identifier segment by any other leaves the row as it was.
  lemma SameRowForEveryRecord(pre: string, id: string, other: string, post: string)
    requires NoQuery(pre) && (pre == "" || pre[0] == '/') && Boundary(post)
    requires Identifier(id) && Identifier(other)
    ensures Normalized(pre + "/" + id + post) == Normalized(pre + "/" + other + post)
  {
    var rest := CutQuery(post);
    IdentifierBytes(id);
    IdentifierBytes(other);
    RecordPath(pre, id, post);
    RecordPath(pre, other, post);
    assert rest == "" || rest[0] == '/';
    IdentifierAfter(pre, id, rest);
    IdentifierAfter(pre, other, rest);
  }

  lemma RecordPath(pre: string, id: string, post: string)
    requires NoQuery(pre) && (pre == "" || pre[0] == '/') && NoQuery(id)
    ensures Rooted(CutQuery(pre + "/" + id + post)) == Some(pre + "/" + id + CutQuery(post))
  {
    CutQueryAfter(pre + "/" + id, post);
  }

  // ---------------------------------------------------------------------
  // When a row is its own row
  // ---------------------------------------------------------------------

  predicate EndsInSlash(path: string) { |path| > 1 && path[|path| - 1] == '/' }

  predicate DiffersAt(a: string, b: string, p: nat) { p < |a| && p < |b| && a[p] != b[p] }

  lemma JoinCons(first: string, rest: seq<string>, sep: char)
    requires rest != []
    ensures Join([first] + rest, sep) == first + [sep] + Join(rest, sep)
  {
    assert ([first] + rest)[1..] == rest;
  }

  lemma JoinStarts(segments: seq<string>)
    requires segments != [] && segments[0] != ""
    ensures Join(segments, '/') != "" && Join(segments, '/')[0] == segments[0][0]
  {
  }

  lemma DiffersAfter(lead: string, a: string, b: string, q: nat)
    requires DiffersAt(a, b, q)
    ensures DiffersAt(lead + a, lead + b, |lead| + q)
  {
    assert (lead + a)[|lead| + q] == a[q] && (lead + b)[|lead| + q] == b[q];
  }

  lemma FirstDiffers(segments: seq<string>)
    requires segments != [] && Identifier(segments[0])
    ensures DiffersAt(Join(segments, '/'), Join(Collapse(segments), '/'), 0)
  {
    IdentifierBytes(segments[0]);
    assert Collapse(segments)[0] == IdPlaceholder;
    hide Identifier, Join, Collapse;
    JoinStarts(segments);
    JoinStarts(Collapse(segments));
  }

  lemma CollapseCons(first: string, rest: seq<string>)
    requires !Identifier(first)
    ensures Collapse([first] + rest) == [first] + Collapse(rest)
  {
    hide Identifier;
  }

  // Collapsing changes a path in place wherever it changes it at all.
  lemma {:induction false} CollapseDiffers(segments: seq<string>, i: nat) returns (p: nat)
    requires i < |segments| && Identifier(segments[i])
    ensures DiffersAt(Join(segments, '/'), Join(Collapse(segments), '/'), p)
  {
    hide Identifier, Join, DiffersAt;
    var first, rest := segments[0], segments[1..];
    if Identifier(first) {
      FirstDiffers(segments);
      p := 0;
    } else {
      assert rest[i - 1] == segments[i];
      var q := CollapseDiffers(rest, i - 1);
      assert segments == [first] + rest;
      CollapseCons(first, rest);
      hide Collapse;
      JoinCons(first, rest, '/');
      JoinCons(first, Collapse(rest), '/');
      DiffersAfter(first + ['/'], Join(rest, '/'), Join(Collapse(rest), '/'), q);
      p := |first| + 1 + q;
    }
  }

  lemma RowOfRow(row: string)
    requires row != "" && row[0] == '/' && NoQuery(row)
    ensures Normalized(row) == Clamp(TrimSlash(Collapsed(row)))
  {
    IndexAnyNone(row, {'?', '#'});
  }

  lemma PrefixDiffers(row: string, path: string, r: string, p: nat)
    requires DiffersAt(row, path, p) && r <= TrimSlash(path)
    ensures r != row
  {
  }

  lemma IdentifierMoves(row: string)
    requires row != "" && row[0] == '/' && NoQuery(row) && !NoIdentifier(row)
    ensures Normalized(row) != row
  {
    var i :| 0 <= i < |Split(row, '/')| && Identifier(Split(row, '/')[i]);
    IdentifierAtMoves(row, i);
  }

  lemma IdentifierAtMoves(row: string, i: nat)
    requires row != "" && row[0] == '/' && NoQuery(row)
    requires i < |Split(row, '/')| && Identifier(Split(row, '/')[i])
    ensures Normalized(row) != row
  {
    hide Identifier, NoQuery, Split, Join, Collapse, Clamp, Normalized, TrimSlash, DiffersAt;
    RowOfRow(row);
    ClampIsSafe(TrimSlash(Collapsed(row)));
    JoinSplit(row, '/');
    var p := CollapseDiffers(Split(row, '/'), i);
    PrefixDiffers(row, Collapsed(row), Clamp(TrimSlash(Collapsed(row))), p);
  }

  // A row is a fixed point exactly when no segment of it is an identifier and it
  // does not end in a slash.
  lemma FixedPointExactly(target: string)
    ensures var row := Normalized(target);
            Normalized(row) == row <==> NoIdentifier(row) && !EndsInSlash(row)
  {
    var row := Normalized(target);
    RowShape(target);
    if row == "" {
      SplitNone("", '/');
    } else if !NoIdentifier(row) {
      IdentifierMoves(row);
    } else {
      RowOfRow(row);
      CollapsedHasNone(row);
      ClampFixes(row);
      ClampIsSafe(TrimSlash(row));
    }
  }

  // In terms of the target: unless clamping shortened it, the row is a fixed point
  // exactly when the collapsed path does not end in doubled slashes.
  lemma FixedPointUnclamped(target: string)
    requires var p := Rooted(CutQuery(target));
             p.Some? && Presentable(TrimSlash(Collapsed(p.value)))
    ensures var path := Collapsed(Rooted(CutQuery(target)).value);
            Normalized(Normalized(target)) == Normalized(target) <==> !EndsInSlash(TrimSlash(path))
  {
    var path := Collapsed(Rooted(CutQuery(target)).value);
    ClampFixes(TrimSlash(path));
    FixedPointExactly(target);
    CollapsedHasNone(Rooted(CutQuery(target)).value);
    TrimmedHasNone(path);
  }

  lemma TrimmedHasNone(path: string)
    requires NoIdentifier(path)
    ensures NoIdentifier(TrimSlash(path))
  {
    hide NoIdentifier;
    if EndsInSlash(path) {
      var front := path[..|path| - 1];
      assert path == front + ['/'] + "";
      NoIdentifierConcat(front, "");
    }
  }

  lemma NoIdentifierConcat(front: string, back: string)
    ensures NoIdentifier(front + ['/'] + back) <==> NoIdentifier(front) && NoIdentifier(back)
  {
    SplitConcat(front, back, '/');
    hide Split, Identifier;
    var a, b := Split(front, '/'), Split(back, '/');
    var all := Split(front + ['/'] + back, '/');
    assert all == a + b;
    if NoIdentifier(front + ['/'] + back) {
      forall i | 0 <= i < |a| ensures !Identifier(a[i]) { assert all[i] == a[i]; }
      forall i | 0 <= i < |b| ensures !Identifier(b[i]) { assert all[|a| + i] == b[i]; }
    }
  }

  lemma OneSegment(segment: string)
    requires '/' !in segment
    ensures NoIdentifier(segment) <==> !Identifier(segment)
  {
    SplitNone(segment, '/');
    hide Identifier;
    assert Split(segment, '/')[0] == segment;
  }

  function LastSegment(row: string): string { row[LastIndexByte(row, '/') + 1..] }

  // Cutting a path short leaves every segment but the last as it was.
  lemma OnlyLastCut(row: string, path: string)
    requires row <= path && NoIdentifier(path)
    ensures NoIdentifier(row) <==> !Identifier(LastSegment(row))
  {
    hide NoIdentifier, Identifier;
    var p, last := LastIndexByte(row, '/'), LastSegment(row);
    assert '/' !in last;
    OneSegment(last);
    if p < 0 {
      assert last == row;
    } else {
      var front, rest := row[..p], path[p + 1..];
      assert path[p] == row[p] == '/' && path[..p] == front;
      assert path == front + ['/'] + rest && row == front + ['/'] + last;
      NoIdentifierConcat(front, rest);
      NoIdentifierConcat(front, last);
    }
  }

  // For every target: a row that clamping left alone is a fixed point exactly when the
  // path did not end in doubled slashes, and one that it cut exactly when the segment
  // cut is not left an identifier and the row does not end in a slash.
  lemma FixedPointByTarget(target: string)
    requires Rooted(CutQuery(target)).Some?
    ensures var whole, row := TrimSlash(Collapsed(Rooted(CutQuery(target)).value)), Normalized(target);
            Normalized(row) == row <==>
              if row == whole then !EndsInSlash(whole)
              else !Identifier(LastSegment(row)) && !EndsInSlash(row)
  {
    var path := Collapsed(Rooted(CutQuery(target)).value);
    var whole, row := TrimSlash(path), Normalized(target);
    CollapsedHasNone(Rooted(CutQuery(target)).value);
    TrimmedHasNone(path);
    FixedPointExactly(target);
    ClampIsSafe(whole);
    hide Normalized, NoIdentifier, Identifier, Clamp, TrimSlash, Collapsed, Rooted;
    OnlyLastCut(row, whole);
  }

  // One reduction drops one trailing slash.
  lemma OneSlashDropped(front: string)
    requires front != "" && front[0] == '/' && Free(front, {'?', '#'}) && NoIdentifier(front)
    requires Printable(front) && |front| <= MaxItemBytes
    ensures Normalized(front + "/") == front
    ensures NoIdentifier(front + "/")
  {
    hide Clamp, Identifier, NoIdentifier, Collapsed, Rooted, CutQuery;
    var path := front + "/";
    assert path == front + ['/'] + "";
    ShortSegments();
    NoIdentifierConcat(front, "");
    CollapsedHasNone(path);
    FreeConcat(front, "/", {'?', '#'});
    NothingCut(path);
    PlainRow(front);
    assert path[..|front|] == front;
  }

  // "/a//" becomes "/a/", which becomes "/a".
  lemma DoubledSlashShown()
    ensures Normalized("/a//") == "/a/" && Normalized("/a/") == "/a"
  {
    hide Identifier, NoIdentifier, Normalized;
    ShortSegments();
    assert "" + ['/'] + "a" == "/a" && "/a" + "/" == "/a/" && "/a/" + "/" == "/a//";
    NoIdentifierConcat("", "a");
    OneSlashDropped("/a");
    OneSlashDropped("/a/");
  }

  lemma ShortSegments()
    ensures NoIdentifier("") && NoIdentifier("a")
  {
    assert !Identifier("") && !Identifier("a") by { assert !IsDigit("a"[0]); }
    OneSegment("");
    OneSegment("a");
  }

  lemma NothingCut(target: string)
    requires Free(target, {'?', '#'}) && target != "" && target[0] == '/'
    ensures Rooted(CutQuery(target)) == Some(target)
  {
    IndexAnyNone(target, {'?', '#'});
  }

  lemma PlainRow(row: string)
    requires Printable(row) && |row| <= MaxItemBytes
    ensures Clamp(row) == row
  {
    AsciiValid(row);
    ClampFixes(row);
  }

  // A segment of 255 ones and an x is a page; clamped, it is the number of a record.
  lemma ClampedIdentifierShown()
    ensures var ones := Repeated('1', 255);
            && Normalized("/" + (ones + "x")) == "/" + ones
            && Normalized("/" + ones) == "/" + IdPlaceholder
  {
    hide Clamp, Identifier, NoIdentifier, Collapsed, CutQuery, Repeated;
    var ones := Repeated('1', 255);
    var long, row := "/" + (ones + "x"), "/" + ones;
    LongSegment(ones);
    assert "" + ['/'] + (ones + "x") == long;
    NoIdentifierConcat("", ones + "x");
    CollapsedHasNone(long);
    NothingCut(long);
    NothingCut(row);
    ClampsTo(long, row);
    NumberCollapses(ones);
    PlainRow("/" + IdPlaceholder);
  }

  lemma LongSegment(ones: string)
    requires |ones| == 255 && forall i :: 0 <= i < 255 ==> ones[i] == '1'
    ensures NoIdentifier("") && NoIdentifier(ones + "x") && Identifier(ones) && '/' !in ones
  {
    var s := ones + "x";
    assert s[255] == 'x';
    assert !IsHexDigit(s[255]);
    assert !AllDigits(s) && !AllHex(s);
    assert '/' !in s;
    OneSegment(s);
    ShortSegments();
  }

  lemma ClampsTo(long: string, row: string)
    requires |long| == MaxItemBytes + 1 && Printable(long) && row == long[..MaxItemBytes]
    ensures Clamp(long) == row
  {
    AsciiValid(long);
    AsciiValid(row);
    assert RuneStart(long[MaxItemBytes]);
  }

  lemma NumberCollapses(number: string)
    requires Identifier(number) && '/' !in number
    ensures Collapsed("/" + number) == "/" + IdPlaceholder
  {
    var path := "" + ['/'] + number;
    assert path == "/" + number;
    SplitFirst("", number, '/');
    SplitNone(number, '/');
    hide Split, Identifier;
    assert !Identifier("") by { ShortestSegment(); }
    var segments := Collapse(Split(path, '/'));
    assert segments == ["", IdPlaceholder];
    assert segments[1..] == [IdPlaceholder];
    assert Join(segments, '/') == "" + ['/'] + IdPlaceholder;
  }

  lemma ShortestSegment()
    ensures !Identifier("")
  {
  }
}
