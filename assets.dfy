/** `fix-assets.js`: after a Vite build, `dist/index.html` refers to its
    scripts and stylesheets by absolute `/assets/` paths, which do not
    resolve when Electron loads the page from a file. The script rewrites
    `src="/assets/` and `href="/assets/` to their `./assets/` forms, in two
    global passes, and writes the file back. */
module Assets {
  import opened Options

  const SRC_ABSOLUTE: string := "src=\"/assets/"
  const SRC_RELATIVE: string := "src=\"./assets/"
  const HREF_ABSOLUTE: string := "href=\"/assets/"
  const HREF_RELATIVE: string := "href=\"./assets/"

  /** `s.replace(/pat/g, rep)` for a pattern that matches only the literal
      `pat` and a replacement without `$` patterns: matches are found left
      to right, and the scan resumes after each match. */
  function ReplaceAll(s: string, pat: string, rep: string): (r: string)
    requires |pat| > 0
    ensures Free(s, pat) ==> r == s
    decreases |s|
  {
    if |s| == 0 then s
    else if pat <= s then rep + ReplaceAll(s[|pat|..], pat, rep)
    else [s[0]] + ReplaceAll(s[1..], pat, rep)
  }

  /** The two passes of `fixAssetPaths`, in source order. Neither absolute
      pattern survives: the second pass cannot bring back what the first
      removed. */
  function Rewrite(content: string): (r: string)
    ensures Free(r, SRC_ABSOLUTE) && Free(r, HREF_ABSOLUTE)
  {
    var scriptsFixed := ReplaceAll(content, SRC_ABSOLUTE, SRC_RELATIVE);
    SrcSeparated();
    ReplaceAllFree(content, SRC_ABSOLUTE, SRC_ABSOLUTE, SRC_RELATIVE);
    FreeIsCovered(scriptsFixed, SRC_ABSOLUTE, HREF_ABSOLUTE);
    SrcHrefSeparated();
    ReplaceAllFree(scriptsFixed, SRC_ABSOLUTE, HREF_ABSOLUTE, HREF_RELATIVE);
    HrefSeparated();
    ReplaceAllFree(scriptsFixed, HREF_ABSOLUTE, HREF_ABSOLUTE, HREF_RELATIVE);
    ReplaceAll(scriptsFixed, HREF_ABSOLUTE, HREF_RELATIVE)
  }

  /** `fixAssetPaths()`. `index` is the content of `dist/index.html`, or
      None when `fs.existsSync` reports it missing; the result is what is
      written back, None when nothing is written. Afterwards the file holds
      no absolute asset reference. */
  function FixAssetPaths(index: Option<string>): (written: Option<string>)
    ensures written.Some? <==> index.Some?
    ensures written.Some? ==> written.value == Rewrite(index.value)
    ensures written.Some? ==> Free(written.value, SRC_ABSOLUTE) && Free(written.value, HREF_ABSOLUTE)
  {
    match index
    case None => None
    case Some(content) => Some(Rewrite(content))
  }

  // ---------------------------------------------------------------------
  // Occurrences

  /** `pat` starts at no position of `s`. */
  predicate Free(s: string, pat: string)
    decreases |s|
  {
    |s| == 0 || (!(pat <= s) && Free(s[1..], pat))
  }

  /** Neither string is a prefix of the other, so no string starts with both. */
  predicate Compatible(a: string, b: string) {
    a <= b || b <= a
  }

  /** An occurrence of `pat` can never overlap an inserted `rep`: it cannot
      start inside `rep`, and it cannot start before `rep` and run into it. */
  predicate Separated(pat: string, rep: string) {
    (forall k :: 0 <= k < |rep| ==> !Compatible(pat, rep[k..])) &&
    (forall k :: 0 < k < |pat| ==> !Compatible(pat[k..], rep))
  }

  /** Every place where `p` starts in `t` is a place where `q` starts. */
  predicate Covered(t: string, p: string, q: string) {
    forall i :: 0 <= i < |t| && p <= t[i..] ==> q <= t[i..]
  }

  lemma NotPrefixOfLonger(p: string, a: string, x: string)
    requires !Compatible(p, a)
    ensures !(p <= a + x)
  {
    if |p| <= |a| {
      assert (a + x)[..|p|] == a[..|p|];
    } else {
      assert (a + x)[..|a|] == a;
    }
  }

  lemma PrefixDrop(p: string, w: string, y: string)
    requires |w| <= |p|
    ensures p <= w + y ==> p[|w|..] <= y
  {
    if p <= w + y {
      assert p[|w|..] == (w + y)[|w|..|p|];
      assert (w + y)[|w|..|p|] == y[..|p| - |w|];
    }
  }

  lemma {:induction false} FreeAt(s: string, pat: string, i: nat)
    requires |pat| > 0 && Free(s, pat) && i <= |s|
    ensures !(pat <= s[i..])
    decreases i
  {
    if i > 0 {
      assert s[1..][i - 1..] == s[i..];
      FreeAt(s[1..], pat, i - 1);
    }
  }

  lemma FreeIsCovered(s: string, p: string, q: string)
    requires |p| > 0 && Free(s, p)
    ensures Covered(s, p, q)
  {
    forall i | 0 <= i < |s|
      ensures !(p <= s[i..])
    {
      FreeAt(s, p, i);
    }
  }

  lemma {:induction false} FreeAppend(a: string, x: string, pat: string)
    requires Free(x, pat)
    requires forall k :: 0 <= k < |a| ==> !(pat <= a[k..] + x)
    ensures Free(a + x, pat)
    decreases |a|
  {
    if |a| > 0 {
      assert !(pat <= a[0..] + x);
      assert a[0..] + x == a + x;
      assert (a + x)[1..] == a[1..] + x;
      forall k | 0 <= k < |a| - 1
        ensures !(pat <= a[1..][k..] + x)
      {
        assert a[1..][k..] == a[k + 1..];
      }
      FreeAppend(a[1..], x, pat);
    } else {
      assert a + x == x;
    }
  }

  /** When `w + u` does not start with `p`, replacing in `u` does not make
      `w + u` start with `p` either: the new text would have to overlap a
      `rep`. */
  lemma {:induction false} PrefixStaysBlocked(w: string, u: string, p: string, q: string, r: string)
    requires |p| > 0 && |q| > 0 && |w| > 0 && Separated(p, r)
    requires !(p <= w + u)
    ensures !(p <= w + ReplaceAll(u, q, r))
    decreases |u|
  {
    var x := ReplaceAll(u, q, r);
    if |w| >= |p| {
      assert (w + u)[..|p|] == w[..|p|];
      assert (w + x)[..|p|] == w[..|p|];
    } else if |u| == 0 {
    } else if q <= u {
      var tail := ReplaceAll(u[|q|..], q, r);
      assert x == r + tail;
      assert !Compatible(p[|w|..], r);
      NotPrefixOfLonger(p[|w|..], r, tail);
      PrefixDrop(p, w, r + tail);
    } else {
      var w' := w + [u[0]];
      assert w' + u[1..] == w + u;
      PrefixStaysBlocked(w', u[1..], p, q, r);
      assert w' + ReplaceAll(u[1..], q, r) == w + x;
    }
  }

  /** Replacing every `q` by `r` leaves no `p`, when each `p` in the input
      sits where a `q` does and no `p` can overlap an `r`. */
  lemma {:induction false} ReplaceAllFree(t: string, p: string, q: string, r: string)
    requires |p| > 0 && |q| > 0 && Separated(p, r) && Covered(t, p, q)
    ensures Free(ReplaceAll(t, q, r), p)
    decreases |t|
  {
    if |t| == 0 {
    } else if q <= t {
      var rest := t[|q|..];
      forall i | 0 <= i < |rest| && p <= rest[i..]
        ensures q <= rest[i..]
      {
        assert rest[i..] == t[|q| + i..];
      }
      ReplaceAllFree(rest, p, q, r);
      var x := ReplaceAll(rest, q, r);
      forall k | 0 <= k < |r|
        ensures !(p <= r[k..] + x)
      {
        NotPrefixOfLonger(p, r[k..], x);
      }
      FreeAppend(r, x, p);
    } else {
      assert t[0..] == t;
      var rest := t[1..];
      forall i | 0 <= i < |rest| && p <= rest[i..]
        ensures q <= rest[i..]
      {
        assert rest[i..] == t[1 + i..];
      }
      ReplaceAllFree(rest, p, q, r);
      assert [t[0]] + rest == t;
      PrefixStaysBlocked([t[0]], rest, p, q, r);
      var x := ReplaceAll(rest, q, r);
      assert ([t[0]] + x)[1..] == x;
    }
  }

  // ---------------------------------------------------------------------
  // The two rewrites

  /** `a` from index `i` and `b` from index `j` differ at some character
      before either ends. */
  predicate ClashFrom(a: string, i: nat, b: string, j: nat)
    decreases |a| - i
  {
    i < |a| && j < |b| && (a[i] != b[j] || ClashFrom(a, i + 1, b, j + 1))
  }

  /** The first half of `Separated`, checked start position by start position. */
  predicate NoStartFrom(pat: string, rep: string, k: nat)
    decreases |rep| - k
  {
    k >= |rep| || (ClashFrom(pat, 0, rep, k) && NoStartFrom(pat, rep, k + 1))
  }

  /** The second half of `Separated`, checked suffix by suffix. */
  predicate NoRunFrom(pat: string, rep: string, k: nat)
    decreases |pat| - k
  {
    k >= |pat| || (ClashFrom(pat, k, rep, 0) && NoRunFrom(pat, rep, k + 1))
  }

  lemma {:induction false} ClashIncompatible(a: string, i: nat, b: string, j: nat)
    requires ClashFrom(a, i, b, j)
    ensures !Compatible(a[i..], b[j..])
    decreases |a| - i
  {
    if a[i] == b[j] {
      ClashIncompatible(a, i + 1, b, j + 1);
      assert a[i..] == [a[i]] + a[i + 1..];
      assert b[j..] == [b[j]] + b[j + 1..];
    }
  }

  lemma {:induction false} ScanSeparated(pat: string, rep: string)
    requires NoStartFrom(pat, rep, 0) && NoRunFrom(pat, rep, 1)
    ensures Separated(pat, rep)
  {
    forall k | 0 <= k < |rep|
      ensures !Compatible(pat, rep[k..])
    {
      NoStartFromAt(pat, rep, 0, k);
      ClashIncompatible(pat, 0, rep, k);
      assert pat[0..] == pat;
    }
    forall k | 0 < k < |pat|
      ensures !Compatible(pat[k..], rep)
    {
      NoRunFromAt(pat, rep, 1, k);
      ClashIncompatible(pat, k, rep, 0);
      assert rep[0..] == rep;
    }
  }

  lemma {:induction false} NoStartFromAt(pat: string, rep: string, k: nat, m: nat)
    requires NoStartFrom(pat, rep, k) && k <= m < |rep|
    ensures ClashFrom(pat, 0, rep, m)
    decreases m - k
  {
    if k < m {
      NoStartFromAt(pat, rep, k + 1, m);
    }
  }

  lemma {:induction false} NoRunFromAt(pat: string, rep: string, k: nat, m: nat)
    requires NoRunFrom(pat, rep, k) && k <= m < |pat|
    ensures ClashFrom(pat, m, rep, 0)
    decreases m - k
  {
    if k < m {
      NoRunFromAt(pat, rep, k + 1, m);
    }
  }

  lemma SrcSeparated()
    ensures Separated(SRC_ABSOLUTE, SRC_RELATIVE)
  {
    assert NoStartFrom(SRC_ABSOLUTE, SRC_RELATIVE, 11);
    assert NoStartFrom(SRC_ABSOLUTE, SRC_RELATIVE, 8);
    assert NoStartFrom(SRC_ABSOLUTE, SRC_RELATIVE, 5);
    assert NoStartFrom(SRC_ABSOLUTE, SRC_RELATIVE, 2);
    assert ClashFrom(SRC_ABSOLUTE, 3, SRC_RELATIVE, 3);
    assert NoStartFrom(SRC_ABSOLUTE, SRC_RELATIVE, 0);
    assert NoRunFrom(SRC_ABSOLUTE, SRC_RELATIVE, 10);
    assert NoRunFrom(SRC_ABSOLUTE, SRC_RELATIVE, 7);
    assert NoRunFrom(SRC_ABSOLUTE, SRC_RELATIVE, 4);
    assert NoRunFrom(SRC_ABSOLUTE, SRC_RELATIVE, 1);
    ScanSeparated(SRC_ABSOLUTE, SRC_RELATIVE);
  }

  lemma SrcHrefSeparated()
    ensures Separated(SRC_ABSOLUTE, HREF_RELATIVE)
  {
    assert NoStartFrom(SRC_ABSOLUTE, HREF_RELATIVE, 12);
    assert NoStartFrom(SRC_ABSOLUTE, HREF_RELATIVE, 9);
    assert NoStartFrom(SRC_ABSOLUTE, HREF_RELATIVE, 6);
    assert NoStartFrom(SRC_ABSOLUTE, HREF_RELATIVE, 3);
    assert NoStartFrom(SRC_ABSOLUTE, HREF_RELATIVE, 0);
    assert NoRunFrom(SRC_ABSOLUTE, HREF_RELATIVE, 10);
    assert NoRunFrom(SRC_ABSOLUTE, HREF_RELATIVE, 7);
    assert NoRunFrom(SRC_ABSOLUTE, HREF_RELATIVE, 4);
    assert NoRunFrom(SRC_ABSOLUTE, HREF_RELATIVE, 1);
    ScanSeparated(SRC_ABSOLUTE, HREF_RELATIVE);
  }

  lemma HrefSeparated()
    ensures Separated(HREF_ABSOLUTE, HREF_RELATIVE)
  {
    assert NoStartFrom(HREF_ABSOLUTE, HREF_RELATIVE, 12);
    assert NoStartFrom(HREF_ABSOLUTE, HREF_RELATIVE, 9);
    assert NoStartFrom(HREF_ABSOLUTE, HREF_RELATIVE, 6);
    assert NoStartFrom(HREF_ABSOLUTE, HREF_RELATIVE, 3);
    assert ClashFrom(HREF_ABSOLUTE, 3, HREF_RELATIVE, 3);
    assert NoStartFrom(HREF_ABSOLUTE, HREF_RELATIVE, 0);
    assert NoRunFrom(HREF_ABSOLUTE, HREF_RELATIVE, 11);
    assert NoRunFrom(HREF_ABSOLUTE, HREF_RELATIVE, 8);
    assert NoRunFrom(HREF_ABSOLUTE, HREF_RELATIVE, 5);
    assert NoRunFrom(HREF_ABSOLUTE, HREF_RELATIVE, 1);
    ScanSeparated(HREF_ABSOLUTE, HREF_RELATIVE);
  }

  /** A page that already uses relative asset paths is written back unchanged. */
  lemma RewriteKeepsRelativePages(content: string)
    requires Free(content, SRC_ABSOLUTE) && Free(content, HREF_ABSOLUTE)
    ensures Rewrite(content) == content
  {
  }

  /** Running the script a second time changes nothing. */
  lemma RewriteIdempotent(content: string)
    ensures Rewrite(Rewrite(content)) == Rewrite(content)
  {
    RewriteKeepsRelativePages(Rewrite(content));
  }

  // ---------------------------------------------------------------------
  // A reference reading of ReplaceAll: cut at the matches, glue back

  /** The pieces of `s` between the matches the left-to-right scan takes. */
  function Split(s: string, pat: string): (pieces: seq<string>)
    requires |pat| > 0
    ensures |pieces| >= 1
    decreases |s|
  {
    if |s| == 0 then [""]
    else if pat <= s then [""] + Split(s[|pat|..], pat)
    else
      var rest := Split(s[1..], pat);
      [[s[0]] + rest[0]] + rest[1..]
  }

  function Join(pieces: seq<string>, sep: string): string
    requires |pieces| >= 1
    decreases |pieces|
  {
    if |pieces| == 1 then pieces[0] else pieces[0] + sep + Join(pieces[1..], sep)
  }

  lemma JoinCons(c: char, pieces: seq<string>, sep: string)
    requires |pieces| >= 1
    ensures Join([[c] + pieces[0]] + pieces[1..], sep) == [c] + Join(pieces, sep)
  {
    var glued := [[c] + pieces[0]] + pieces[1..];
    if |pieces| > 1 {
      assert glued[1..] == pieces[1..];
    }
  }

  lemma {:induction false} HeadPrefixOfJoin(pieces: seq<string>, sep: string)
    requires |pieces| >= 1
    ensures pieces[0] <= Join(pieces, sep)
  {
    if |pieces| > 1 {
      assert (pieces[0] + sep + Join(pieces[1..], sep))[..|pieces[0]|] == pieces[0];
    }
  }

  /** Joining the pieces back with the pattern gives `s`. */
  lemma {:induction false} SplitJoinsBack(s: string, pat: string)
    requires |pat| > 0
    ensures Join(Split(s, pat), pat) == s
    decreases |s|
  {
    var pieces := Split(s, pat);
    if |s| == 0 {
    } else if pat <= s {
      var rest := s[|pat|..];
      SplitJoinsBack(rest, pat);
      assert pieces[0] == "" && pieces[1..] == Split(rest, pat);
      assert Join(pieces, pat) == "" + pat + Join(Split(rest, pat), pat);
      assert "" + pat + rest == s;
    } else {
      var rest := Split(s[1..], pat);
      SplitJoinsBack(s[1..], pat);
      assert pieces == [[s[0]] + rest[0]] + rest[1..];
      JoinCons(s[0], rest, pat);
      assert [s[0]] + s[1..] == s;
    }
  }

  /** Joining the pieces with `rep` instead is what `ReplaceAll` computes. */
  lemma {:induction false} SplitJoinReplaces(s: string, pat: string, rep: string)
    requires |pat| > 0
    ensures Join(Split(s, pat), rep) == ReplaceAll(s, pat, rep)
    decreases |s|
  {
    var pieces := Split(s, pat);
    if |s| == 0 {
    } else if pat <= s {
      var rest := s[|pat|..];
      SplitJoinReplaces(rest, pat, rep);
      assert pieces[0] == "" && pieces[1..] == Split(rest, pat);
      assert Join(pieces, rep) == "" + rep + Join(Split(rest, pat), rep);
      assert "" + rep == rep;
    } else {
      var rest := Split(s[1..], pat);
      SplitJoinReplaces(s[1..], pat, rep);
      assert pieces == [[s[0]] + rest[0]] + rest[1..];
      JoinCons(s[0], rest, rep);
    }
  }

  /** None of the pieces holds the pattern. */
  lemma {:induction false} SplitPiecesFree(s: string, pat: string)
    requires |pat| > 0
    ensures forall i :: 0 <= i < |Split(s, pat)| ==> Free(Split(s, pat)[i], pat)
    decreases |s|
  {
    var pieces := Split(s, pat);
    if |s| == 0 {
    } else if pat <= s {
      var rest := Split(s[|pat|..], pat);
      SplitPiecesFree(s[|pat|..], pat);
      forall i | 0 <= i < |pieces|
        ensures Free(pieces[i], pat)
      {
        if i > 0 {
          assert pieces[i] == rest[i - 1];
        }
      }
    } else {
      var rest := Split(s[1..], pat);
      SplitPiecesFree(s[1..], pat);
      SplitJoinsBack(s[1..], pat);
      HeadPrefixOfJoin(rest, pat);
      var head := [s[0]] + rest[0];
      assert head == s[..|head|];
      assert head[1..] == rest[0];
      assert !(pat <= head) by {
        if |pat| <= |head| {
          assert head[..|pat|] == s[..|pat|];
        }
      }
      forall i | 0 <= i < |pieces|
        ensures Free(pieces[i], pat)
      {
        if i > 0 {
          assert pieces[i] == rest[i];
        }
      }
    }
  }
}
