/**
 Holding a row's name inside the product's ceiling without cutting a character
 in two. Validity is that of section 4 of RFC 3629.
 */
module Items {

  const MaxItemBytes: nat := 256

  // ---------------------------------------------------------------------
  // UTF-8
  // ---------------------------------------------------------------------

  predicate In(c: char, lo: int, hi: int) { lo <= c as int <= hi }

  predicate IsTail(c: char) { In(c, 0x80, 0xBF) }

  predicate RuneStart(c: char) { !IsTail(c) }

  // The length of the well-formed character a byte string starts with, or 0.
  function RuneLength(s: string): (n: nat)
    ensures n <= 4 && n <= |s|
    ensures n > 0 ==> RuneStart(s[0])
    ensures forall i :: 0 < i < n ==> IsTail(s[i])
  {
    if s == "" then 0
    else if In(s[0], 0x00, 0x7F) then 1
    else if |s| >= 2 && In(s[0], 0xC2, 0xDF) && IsTail(s[1]) then 2
    else if |s| >= 3 && IsTail(s[2]) && (
        || (In(s[0], 0xE0, 0xE0) && In(s[1], 0xA0, 0xBF))
        || (In(s[0], 0xE1, 0xEC) && IsTail(s[1]))
        || (In(s[0], 0xED, 0xED) && In(s[1], 0x80, 0x9F))
        || (In(s[0], 0xEE, 0xEF) && IsTail(s[1]))) then 3
    else if |s| >= 4 && IsTail(s[2]) && IsTail(s[3]) && (
        || (In(s[0], 0xF0, 0xF0) && In(s[1], 0x90, 0xBF))
        || (In(s[0], 0xF1, 0xF3) && IsTail(s[1]))
        || (In(s[0], 0xF4, 0xF4) && In(s[1], 0x80, 0x8F))) then 4
    else 0
  }

  predicate Valid(s: string)
    decreases |s|
  {
    s == "" || (RuneLength(s) > 0 && Valid(s[RuneLength(s)..]))
  }

  lemma RuneOfPrefix(s: string, c: nat)
    requires c <= |s| && RuneLength(s) > 0
    ensures RuneLength(s[..c]) == if c < RuneLength(s) then 0 else RuneLength(s)
  {
  }

  // A valid string can be cut exactly where a character starts.
  lemma {:induction false} CutPoints(s: string, c: nat)
    requires Valid(s) && c <= |s|
    ensures Valid(s[..c]) <==> c == |s| || RuneStart(s[c])
    decreases |s|
  {
    if c > 0 {
      var n := RuneLength(s);
      RuneOfPrefix(s, c);
      if c >= n {
        CutPoints(s[n..], c - n);
        assert s[..c][n..] == s[n..][..c - n];
      }
    }
  }

  // And there is such a place within any four neighbouring bytes.
  lemma {:induction false} StartNearby(s: string, c: nat) returns (d: nat)
    requires Valid(s) && 3 <= c < |s|
    ensures c - 3 <= d <= c && RuneStart(s[d])
    decreases |s|
  {
    var n := RuneLength(s);
    if c >= n + 3 {
      var e := StartNearby(s[n..], c - n);
      d := e + n;
    } else if c >= n {
      d := n;
      assert s[n] == s[n..][0];
    } else {
      d := 0;
    }
  }

  // ---------------------------------------------------------------------
  // The clamp
  // ---------------------------------------------------------------------

  predicate IsControl(c: char) { c as int < 0x20 || c as int == 0x7F }

  predicate ControlFree(s: string) { forall i :: 0 <= i < |s| ==> !IsControl(s[i]) }

  // Stepping back from c to the start of a character.
  function CutAt(s: string, c: nat): (d: nat)
    requires c < |s|
    ensures d <= c && (d > 0 ==> RuneStart(s[d]))
    ensures forall i :: d < i <= c ==> IsTail(s[i])
  {
    if c > 0 && !RuneStart(s[c]) then CutAt(s, c - 1) else c
  }

  function Shorten(item: string): string {
    if |item| > MaxItemBytes then item[..CutAt(item, MaxItemBytes)] else item
  }

  function Clamp(item: string): string {
    if ControlFree(item) && Valid(Shorten(item)) then Shorten(item) else ""
  }

  method ClampItem(item: string) returns (r: string)
    ensures r == Clamp(item)
  {
    if item == "" {
      return "";
    }
    for i := 0 to |item|
      invariant forall j :: 0 <= j < i ==> !IsControl(item[j])
    {
      if item[i] as int < 0x20 || item[i] as int == 0x7F {
        return "";
      }
    }
    r := item;
    if |r| > MaxItemBytes {
      var cut := MaxItemBytes;
      while cut > 0 && !RuneStart(item[cut])
        invariant 0 <= cut <= MaxItemBytes && CutAt(item, cut) == CutAt(item, MaxItemBytes)
      {
        cut := cut - 1;
      }
      r := r[..cut];
    }
    if !Valid(r) {
      return "";
    }
  }

  predicate Printable(s: string) { forall i :: 0 <= i < |s| ==> 0x21 <= s[i] as int <= 0x7E }

  lemma {:induction false} AsciiValid(s: string)
    requires Printable(s)
    ensures Valid(s) && ControlFree(s)
  {
    if s != "" {
      AsciiValid(s[1..]);
      assert RuneLength(s) == 1;
    }
  }

  ghost predicate Presentable(r: string) { |r| <= MaxItemBytes && ControlFree(r) && Valid(r) }

  // Whatever bytes come in, what goes out is a prefix of them that the product accepts.
  lemma ClampIsSafe(item: string)
    ensures Presentable(Clamp(item)) && Clamp(item) <= item
  {
  }

  // Nothing more is lost than must be: of well-formed text the longest acceptable
  // prefix survives, which is all of it or at least 253 bytes.
  lemma ClampIsLongest(item: string)
    requires ControlFree(item) && Valid(item)
    ensures forall q :: q <= item && Presentable(q) ==> q <= Clamp(item)
    ensures |item| <= MaxItemBytes ==> Clamp(item) == item
    ensures |item| > MaxItemBytes ==> |Clamp(item)| >= MaxItemBytes - 3
  {
    if |item| > MaxItemBytes {
      var cut := CutAt(item, MaxItemBytes);
      CutPoints(item, cut);
      forall q | q <= item && Presentable(q) ensures |q| <= cut {
        CutPoints(item, |q|);
        assert q == item[..|q|];
      }
      var d := StartNearby(item, MaxItemBytes);
    }
  }

  // An item is kept as it is exactly when it is already acceptable.
  lemma ClampFixes(item: string)
    ensures Clamp(item) == item <==> Presentable(item)
    ensures Clamp(Clamp(item)) == Clamp(item)
  {
    ClampIsSafe(item);
  }
}
