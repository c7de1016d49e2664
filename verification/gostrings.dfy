/**
 * The few functions of Go's `strings` and `unicode` packages that the
 * introspection code relies on, restated over `seq<char>`.
 */
module GoStrings {

  /** Go's `unicode.IsSpace`: the Unicode white-space characters. */
  predicate IsSpace(c: char) {
    if c < '\U{0080}' then ('\t' <= c <= '\r') || c == ' '
    else
      || c == '\U{0085}' || c == '\U{00A0}' || c == '\U{1680}'
      || ('\U{2000}' <= c <= '\U{200A}')
      || c == '\U{2028}' || c == '\U{2029}' || c == '\U{202F}' || c == '\U{205F}' || c == '\U{3000}'
  }

  /** No character of `s` is white space. */
  predicate NoSpace(s: string) {
    forall k :: 0 <= k < |s| ==> !IsSpace(s[k])
  }

  /**
   * What a trim drops: white space (`strings.TrimSpace`) or the two
   * characters of a cutset string such as `"<>"` (`strings.Trim(s, "<>")`).
   */
  datatype Cutset = WhiteSpace | Pair(first: char, second: char)

  predicate InCut(c: char, cut: Cutset) {
    match cut
    case WhiteSpace => IsSpace(c)
    case Pair(a, b) => c == a || c == b
  }

  /** Every character of `s` is in the cutset. */
  predicate AllIn(s: string, cut: Cutset) {
    forall k :: 0 <= k < |s| ==> InCut(s[k], cut)
  }

  /** `strings.HasPrefix(s, p)`. */
  predicate HasPrefix(s: string, p: string) {
    |p| <= |s| && s[..|p|] == p
  }

  /** `strings.HasSuffix(s, p)`. */
  predicate HasSuffix(s: string, p: string) {
    |p| <= |s| && s[|s| - |p|..] == p
  }

  /** `strings.TrimLeft(s, cut)`: drops every leading character of the cutset `cut`. */
  function TrimLeft(s: string, cut: Cutset): (r: string)
    ensures |r| <= |s| && r == s[|s| - |r|..]
    ensures AllIn(s[..|s| - |r|], cut)
    ensures r == [] || !InCut(r[0], cut)
    decreases |s|
  {
    if s != [] && InCut(s[0], cut) then
      var r := TrimLeft(s[1..], cut);
      assert s[..|s| - |r|] == [s[0]] + s[1..][..|s| - 1 - |r|];
      r
    else s
  }

  /** `strings.TrimRight(s, cut)`: drops every trailing character of the cutset `cut`. */
  function TrimRight(s: string, cut: Cutset): (r: string)
    ensures |r| <= |s| && r == s[..|r|]
    ensures AllIn(s[|r|..], cut)
    ensures r == [] || !InCut(r[|r| - 1], cut)
    decreases |s|
  {
    if s != [] && InCut(s[|s| - 1], cut) then
      var r := TrimRight(s[..|s| - 1], cut);
      assert s[..|s| - 1][..|r|] == s[..|r|];
      assert s[|r|..] == s[..|s| - 1][|r|..] + [s[|s| - 1]];
      r
    else s
  }

  /**
   * `r` is the slice of `s` starting at `i`, and every character of `s`
   * before or after that slice is in the cutset.
   */
  predicate KeptFrom(s: string, r: string, i: int, cut: Cutset) {
    0 <= i && i + |r| <= |s| && r == s[i..i + |r|] && AllIn(s[..i], cut) && AllIn(s[i + |r|..], cut)
  }

  /**
   * `strings.Trim(s, cut)`: drops ALL leading and trailing characters of the
   * cutset `cut`, not just one of each.
   */
  function Trim(s: string, cut: Cutset): (r: string)
    ensures |r| <= |s|
    ensures r == [] || (!InCut(r[0], cut) && !InCut(r[|r| - 1], cut))
  {
    TrimRight(TrimLeft(s, cut), cut)
  }

  /**
   * What `Trim` keeps is a slice of `s`, and everything it drops before and
   * after that slice is in the cutset.
   */
  lemma {:induction false} TrimKeepsSlice(s: string, cut: Cutset)
    ensures exists i :: KeptFrom(s, Trim(s, cut), i, cut)
  {
    var l := TrimLeft(s, cut);
    var r := TrimRight(l, cut);
    assert Trim(s, cut) == r;
    KeptSlice(s, l, r, cut);
  }

  /**
   * Dropping a run of cutset characters from the front of `s` (giving `l`)
   * and then from the back of `l` (giving `r`) keeps a slice of `s`.
   */
  lemma {:induction false} KeptSlice(s: string, l: string, r: string, cut: Cutset)
    requires |l| <= |s| && l == s[|s| - |l|..] && AllIn(s[..|s| - |l|], cut)
    requires |r| <= |l| && r == l[..|r|] && AllIn(l[|r|..], cut)
    ensures exists i :: KeptFrom(s, r, i, cut)
  {
    var i := |s| - |l|;
    assert r == s[i..i + |r|];
    assert s[i + |r|..] == l[|r|..];
    assert KeptFrom(s, r, i, cut);
  }

  /** `name` neither starts nor ends with a character of `cut`. */
  predicate Bare(name: string, cut: Cutset) {
    name == [] || (!InCut(name[0], cut) && !InCut(name[|name| - 1], cut))
  }

  /** `TrimLeft` drops a leading run of cutset characters and stops at the first other one. */
  lemma {:induction false} TrimLeftRun(d: string, t: string, cut: Cutset)
    requires AllIn(d, cut) && (t == [] || !InCut(t[0], cut))
    ensures TrimLeft(d + t, cut) == t
    decreases |d|
  {
    if d == [] {
      assert d + t == t;
    } else {
      assert (d + t)[0] == d[0] && (d + t)[1..] == d[1..] + t;
      assert AllIn(d[1..], cut) by {
        forall k | 0 <= k < |d[1..]| ensures InCut(d[1..][k], cut) {
          assert d[1..][k] == d[k + 1];
        }
      }
      TrimLeftRun(d[1..], t, cut);
    }
  }

  /** `TrimRight` drops a trailing run of cutset characters and stops at the last other one. */
  lemma {:induction false} TrimRightRun(t: string, d: string, cut: Cutset)
    requires AllIn(d, cut) && (t == [] || !InCut(t[|t| - 1], cut))
    ensures TrimRight(t + d, cut) == t
    decreases |d|
  {
    if d == [] {
      assert t + d == t;
    } else {
      var n := |t + d|;
      assert (t + d)[n - 1] == d[|d| - 1] && (t + d)[..n - 1] == t + d[..|d| - 1];
      var e := d[..|d| - 1];
      assert AllIn(e, cut) by {
        forall k | 0 <= k < |e| ensures InCut(e[k], cut) {
          assert e[k] == d[k];
        }
      }
      TrimRightRun(t, e, cut);
    }
  }

  /** Trimming a bare name surrounded by cutset characters gives the name back. */
  lemma {:induction false} TrimSurrounded(lead: string, name: string, trail: string, cut: Cutset)
    requires AllIn(lead, cut) && AllIn(trail, cut) && Bare(name, cut)
    ensures Trim(lead + name + trail, cut) == name
  {
    if name == [] {
      assert AllIn(lead + trail, cut) by {
        forall k | 0 <= k < |lead + trail| ensures InCut((lead + trail)[k], cut) {
          if k >= |lead| { assert (lead + trail)[k] == trail[k - |lead|]; }
        }
      }
      assert lead + name + trail == (lead + trail) + [];
      TrimLeftRun(lead + trail, [], cut);
    } else {
      assert lead + name + trail == lead + (name + trail);
      assert (name + trail)[0] == name[0];
      TrimLeftRun(lead, name + trail, cut);
      TrimRightRun(name, trail, cut);
    }
  }

  /** A token that starts and ends with characters of the cutset loses at least both of them. */
  lemma {:induction false} TrimDropsEnds(s: string, cut: Cutset)
    requires |s| >= 2 && InCut(s[0], cut) && InCut(s[|s| - 1], cut)
    ensures |Trim(s, cut)| + 2 <= |s|
  {
    var l := TrimLeft(s, cut);
    assert |l| < |s|;
    if l != [] {
      assert l[|l| - 1] == s[|s| - 1];
    }
  }

  /** `strings.TrimSpace(s)`: `Trim` with white space as the cutset. */
  function TrimSpace(s: string): (r: string)
    ensures r == [] || (!IsSpace(r[0]) && !IsSpace(r[|r| - 1]))
  {
    Trim(s, WhiteSpace)
  }

  /** The length of the run of non-white-space characters that `s` starts with. */
  function TokenLength(s: string): (n: nat)
    ensures n <= |s| && NoSpace(s[..n])
    ensures n == |s| || IsSpace(s[n])
  {
    if s == [] || IsSpace(s[0]) then 0 else 1 + TokenLength(s[1..])
  }

  /**
   * `strings.Fields(s)`: the maximal runs of non-white-space characters of `s`,
   * in order.
   */
  function Fields(s: string): (r: seq<string>)
    ensures forall t :: t in r ==> t != [] && NoSpace(t)
    decreases |s|
  {
    if s == [] then []
    else if IsSpace(s[0]) then Fields(s[1..])
    else
      var n := TokenLength(s);
      [s[..n]] + Fields(s[n..])
  }

  /** Fields sees through white space around a token. */
  lemma {:induction false} FieldsSkipsSpace(s: string, t: string)
    requires AllIn(s, WhiteSpace)
    ensures Fields(s + t) == Fields(t)
    decreases |s|
  {
    if s == [] {
      assert s + t == t;
    } else {
      assert (s + t)[0] == s[0] && (s + t)[1..] == s[1..] + t;
      FieldsSkipsSpace(s[1..], t);
    }
  }

  /** A token followed by white space (or nothing) is the first field. */
  lemma {:induction false} FieldsToken(w: string, t: string)
    requires w != [] && NoSpace(w)
    requires t == [] || IsSpace(t[0])
    ensures Fields(w + t) == [w] + Fields(t)
  {
    TokenLengthOf(w, t);
    assert (w + t)[..|w|] == w;
    assert (w + t)[|w|..] == t;
  }

  lemma {:induction false} TokenLengthOf(w: string, t: string)
    requires NoSpace(w)
    requires t == [] || IsSpace(t[0])
    ensures TokenLength(w + t) == |w|
    decreases |w|
  {
    if w == [] {
      assert w + t == t;
    } else {
      assert (w + t)[1..] == w[1..] + t;
      assert NoSpace(w[1..]) by {
        forall k | 0 <= k < |w[1..]| ensures !IsSpace(w[1..][k]) {
          assert w[1..][k] == w[k + 1];
        }
      }
      TokenLengthOf(w[1..], t);
    }
  }
}
