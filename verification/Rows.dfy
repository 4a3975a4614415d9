/**
 Which rows of the three ranked lists one request belongs in.
 */
module Rows {
  import opened Text
  import opened Wrappers
  import opened Items
  import opened Paths
  import opened Referrers
  import Numbers

  datatype Entry = Entry(
    statusClass: string,
    status: nat,
    requestTime: Option<real>,
    upstreamTime: Option<real>,
    remoteAddr: string,
    target: string,
    referrer: string
  )

  datatype RankedRows = RankedRows(page: string, failing: string, referrer: string)

  const AssetExtensions: set<string> := {
    "js", "mjs", "cjs", "css", "map",
    "png", "jpg", "jpeg", "gif", "svg",
    "webp", "avif", "ico", "bmp",
    "woff", "woff2", "ttf", "otf", "eot",
    "mp4", "webm", "mp3", "ogg", "wav",
    "m4a", "mov"
  }

  const AssetPrefixes: seq<string> := [
    "/_next/", "/_nuxt/", "/_astro/", "/static/", "/assets/", "/build/", "/dist/"
  ]

  predicate HasAssetExtension(path: string) {
    var name := path[LastIndexByte(path, '/') + 1..];
    var dot := LastIndexByte(name, '.');
    dot >= 0 && ToLower(name[dot + 1..]) in AssetExtensions
  }

  predicate IsAssetPath(path: string) {
    (exists i :: 0 <= i < |AssetPrefixes| && AssetPrefixes[i] <= path) || HasAssetExtension(path)
  }

  const RoutineStatuses: set<nat> := {401, 403, 499}

  function FailingRow(status: nat, path: string, asset: bool): string {
    if status < 400 || path == "" || status in RoutineStatuses then ""
    else if status == 404 && !asset then ""
    else Clamp(Numbers.Itoa(status) + " " + path)
  }

  function RowsFor(siteHost: string, e: Entry): RankedRows {
    var path := Normalized(e.target);
    var asset := path != "" && IsAssetPath(path);
    var failing := FailingRow(e.status, path, asset);
    if path == "" || asset then RankedRows("", failing, "")
    else
      var site := Site(e.referrer);
      RankedRows(path, failing, if site != "" && site != siteHost then site else "")
  }

  // A path whose last segment is a file name: what stands before it, the name up to its
  // last dot, and the extension after that.
  ghost predicate NamesFile(path: string, dir: string, stem: string, extension: string) {
    && path == dir + (stem + "." + extension)
    && (dir == "" || dir[|dir| - 1] == '/') && '/' !in stem && Free(extension, {'/', '.'})
  }

  lemma LastPart(dir: string, name: string)
    requires (dir == "" || dir[|dir| - 1] == '/') && '/' !in name
    ensures LastIndexByte(dir + name, '/') == |dir| - 1 && (dir + name)[|dir|..] == name
  {
    hide LastIndexByte;
    var path := dir + name;
    forall i | |dir| <= i < |path| ensures path[i] != '/' { assert path[i] == name[i - |dir|]; }
    if dir != "" { assert path[|dir| - 1] == '/'; }
  }

  lemma FileName(path: string, dir: string, stem: string, extension: string)
    requires NamesFile(path, dir, stem, extension)
    ensures HasAssetExtension(path) <==> ToLower(extension) in AssetExtensions
  {
    hide LastIndexByte, ToLower;
    var name := stem + "." + extension;
    assert '/' !in extension;
    LastPart(dir, name);
    LastIndexAfter(stem, '.', extension);
    assert name[|stem| + 1..] == extension;
  }

  lemma CutLast(s: string, c: char) returns (front: string, back: string)
    ensures s == front + back && Free(back, {c}) && back == s[LastIndexByte(s, c) + 1..]
    ensures front == "" || front[|front| - 1] == c
  {
    hide LastIndexByte;
    var n := LastIndexByte(s, c) + 1;
    front, back := s[..n], s[n..];
  }

  lemma CutAround(s: string, c: char) returns (front: string, back: string)
    requires LastIndexByte(s, c) >= 0
    ensures s == front + [c] + back && Free(back, {c}) && back == s[LastIndexByte(s, c) + 1..]
  {
    hide LastIndexByte;
    var n := LastIndexByte(s, c);
    front, back := s[..n], s[n + 1..];
  }

  lemma FileParts(path: string) returns (dir: string, stem: string, extension: string)
    requires HasAssetExtension(path)
    ensures NamesFile(path, dir, stem, extension)
  {
    hide ToLower, LastIndexByte, NamesFile;
    var name;
    dir, name := CutLast(path, '/');
    stem, extension := CutAround(name, '.');
    Pieces(dir, name, stem, extension);
  }

  lemma Pieces(dir: string, name: string, stem: string, extension: string)
    requires name == stem + ['.'] + extension && Free(name, {'/'}) && Free(extension, {'.'})
    requires dir == "" || dir[|dir| - 1] == '/'
    ensures NamesFile(dir + name, dir, stem, extension)
  {
    assert forall i :: 0 <= i < |stem| ==> stem[i] == name[i];
    assert forall i :: 0 <= i < |extension| ==> extension[i] == name[|stem| + 1 + i];
  }

  // Files are known by the directories frameworks serve from, or by an extension in any
  // letter case; nothing else is a file.
  lemma AssetExactly(path: string)
    ensures IsAssetPath(path) <==>
            || (exists i :: 0 <= i < |AssetPrefixes| && AssetPrefixes[i] <= path)
            || (exists dir, stem, extension ::
                  NamesFile(path, dir, stem, extension) && ToLower(extension) in AssetExtensions)
  {
    hide ToLower, HasAssetExtension, NamesFile;
    if HasAssetExtension(path) {
      var dir, stem, extension := FileParts(path);
      FileName(path, dir, stem, extension);
    }
    if dir, stem, extension :| NamesFile(path, dir, stem, extension) && ToLower(extension) in AssetExtensions {
      FileName(path, dir, stem, extension);
    }
  }

  // The configured site host is reduced like a referrer, so however it is written,
  // and however a referrer names it, the site never refers to itself.
  lemma OwnSiteNeverRefers(configured: string, w: Written, v: Written, h: string, e: Entry)
    requires Writes(w, h) && Writes(v, h) && e.referrer == Render(v)
    ensures TrimSpace(configured) == Render(w) ==> RowsFor(Site(TrimSpace(configured)), e).referrer == ""
  {
    SameSite(w, h);
    SameSite(v, h);
  }

  // Any other site is credited, on a page that is not a file.
  lemma OtherSitesRefer(siteHost: string, v: Written, h: string, e: Entry)
    requires Writes(v, h) && e.referrer == Render(v) && h != siteHost
    ensures var path := Normalized(e.target);
            RowsFor(siteHost, e).referrer == if path == "" || IsAssetPath(path) then "" else h
  {
    SameSite(v, h);
  }

  lemma {:induction false} AsciiLeads(lead: string, s: string)
    requires forall i :: 0 <= i < |lead| ==> 0x20 <= lead[i] as int <= 0x7E
    requires Valid(s) && ControlFree(s)
    ensures Valid(lead + s) && ControlFree(lead + s)
  {
    if lead == "" {
      assert lead + s == s;
    } else {
      AsciiLeads(lead[1..], s);
      assert (lead + s)[0] == lead[0] && (lead + s)[1..] == lead[1..] + s;
      assert RuneLength(lead + s) == 1;
    }
  }

  // A request is in the page list under its path if that names a page, and in the list
  // of failures if and only if it failed, not in a routine way, and was not a page that
  // does not exist.
  lemma WhatIsListed(siteHost: string, e: Entry)
    ensures var path, rows := Normalized(e.target), RowsFor(siteHost, e);
            var asset := path != "" && IsAssetPath(path);
            && rows.page == (if asset then "" else path)
            && (rows.failing != "" <==>
                  path != "" && e.status >= 400 && e.status !in {401, 403, 499} && (e.status == 404 ==> asset))
            && (rows.failing != "" ==> rows.failing <= Numbers.Itoa(e.status) + " " + path)
            && rows.referrer == (if rows.page != "" && Site(e.referrer) != siteHost then Site(e.referrer) else "")
  {
    hide Site, IsAssetPath, FailingRow, Normalized;
    var path := Normalized(e.target);
    RowShape(e.target);
    FailuresListed(e.status, path, path != "" && IsAssetPath(path));
  }

  lemma FailuresListed(status: nat, path: string, asset: bool)
    requires path != "" ==> Presentable(path)
    ensures var row := FailingRow(status, path, asset);
            && (row != "" <==> path != "" && status >= 400 && status !in {401, 403, 499} && (status == 404 ==> asset))
            && (row != "" ==> row <= Numbers.Itoa(status) + " " + path)
  {
    hide Clamp, Presentable;
    if path != "" {
      ShownCut(Numbers.Itoa(status), path);
    }
  }

  lemma ShownCut(status: string, path: string)
    requires Presentable(path) && forall i :: 0 <= i < |status| ==> Numbers.IsDigit(status[i])
    ensures Clamp(status + " " + path) != "" && Clamp(status + " " + path) <= status + " " + path
  {
    AsciiLeads(status + " ", path);
    hide Clamp;
    ClampIsLongest(status + " " + path);
    ClampIsSafe(status + " " + path);
  }

  // One page failing two ways is two rows.
  lemma StatusesSeparate(a: nat, b: nat, path: string, asset: bool)
    requires 100 <= a <= 999 && 100 <= b <= 999 && a != b
    requires FailingRow(a, path, asset) != "" && FailingRow(b, path, asset) != ""
    ensures FailingRow(a, path, asset) != FailingRow(b, path, asset)
  {
    Numbers.ThreeDigits(a);
    Numbers.ThreeDigits(b);
    Numbers.ItoaInjective(a, b);
    StatusLeads(Numbers.Itoa(a), path);
    StatusLeads(Numbers.Itoa(b), path);
  }

  // A clamped row that survives keeps the status it leads with.
  lemma StatusLeads(status: string, path: string)
    requires |status| == 3
    ensures var row := Clamp(status + " " + path); row != "" ==> |row| >= 3 && row[..3] == status
  {
    var row := status + " " + path;
    assert row[..3] == status;
    assert row[3] == ' ' && RuneStart(row[3]);
  }
}
