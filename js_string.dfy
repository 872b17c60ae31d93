/**
 * The JavaScript string operations the workout parser relies on:
 * String.prototype.trim, substring(1), startsWith, indexOf and split with
 * a non-empty string separator. Strings are sequences of code points.
 */
module JsString {
  import opened Wrappers

  /** The white space above U+00A0 in ECMAScript's WhiteSpace and LineTerminator. */
  const HighWhitespace: set<char> := {
    '\U{A0}', '\U{1680}',
    '\U{2000}', '\U{2001}', '\U{2002}', '\U{2003}', '\U{2004}', '\U{2005}',
    '\U{2006}', '\U{2007}', '\U{2008}', '\U{2009}', '\U{200A}',
    '\U{2028}', '\U{2029}', '\U{202F}', '\U{205F}', '\U{3000}', '\U{FEFF}' }

  /**
   * The code points ECMAScript calls WhiteSpace or LineTerminator; `trim`
   * removes exactly these. Below U+00A0 they are the space and U+0009 to
   * U+000D (tab, line feed, vertical tab, form feed, carriage return).
   */
  predicate IsWhitespace(c: char) {
    if c < '\U{A0}' then c == ' ' || ('\t' <= c <= '\r') else c in HighWhitespace
  }

  predicate AllWhitespace(s: string) {
    forall k :: 0 <= k < |s| ==> IsWhitespace(s[k])
  }

  /** Neither the first nor the last code point of `s` is white space. */
  predicate Trimmed(s: string) {
    s == [] || (!IsWhitespace(s[0]) && !IsWhitespace(s[|s| - 1]))
  }

  /** String.prototype.trimStart: `r` is a suffix of `s`, everything cut off is white space. */
  function TrimStart(s: string): (r: string)
    ensures |r| <= |s| && r == s[|s| - |r|..]
    ensures AllWhitespace(s[..|s| - |r|])
    ensures r == [] || !IsWhitespace(r[0])
  {
    if |s| > 0 && IsWhitespace(s[0]) then
      var r := TrimStart(s[1..]);
      TrimStartStep(s, r);
      r
    else s
  }

  /** What trimStart keeps of `s[1..]`, when `s[0]` is white space, is what it keeps of `s`. */
  lemma TrimStartStep(s: string, r: string)
    requires |s| > 0 && IsWhitespace(s[0])
    requires |r| <= |s| - 1 && r == s[1..][|s| - 1 - |r|..] && AllWhitespace(s[1..][..|s| - 1 - |r|])
    ensures r == s[|s| - |r|..] && AllWhitespace(s[..|s| - |r|])
  {
    var n := |s| - |r|;
    assert s[1..][n - 1..] == s[n..];
    forall k | 0 <= k < n ensures IsWhitespace(s[..n][k]) {
      if k > 0 {
        assert s[..n][k] == s[1..][..n - 1][k - 1];
      }
    }
  }

  /** String.prototype.trimEnd: `r` is a prefix of `s`, everything cut off is white space. */
  function TrimEnd(s: string): (r: string)
    ensures |r| <= |s| && r == s[..|r|]
    ensures AllWhitespace(s[|r|..])
    ensures r == [] || !IsWhitespace(r[|r| - 1])
  {
    if |s| > 0 && IsWhitespace(s[|s| - 1]) then
      var r := TrimEnd(s[..|s| - 1]);
      TrimEndStep(s, r);
      r
    else s
  }

  /** What trimEnd keeps of `s` without its last code point, when that is white space, is what it keeps of `s`. */
  lemma TrimEndStep(s: string, r: string)
    requires |s| > 0 && IsWhitespace(s[|s| - 1])
    requires |r| <= |s| - 1 && r == s[..|s| - 1][..|r|] && AllWhitespace(s[..|s| - 1][|r|..])
    ensures r == s[..|r|] && AllWhitespace(s[|r|..])
  {
    var n := |r|;
    assert s[..|s| - 1][..n] == s[..n];
    forall k | 0 <= k < |s| - n ensures IsWhitespace(s[n..][k]) {
      if k < |s| - 1 - n {
        assert s[n..][k] == s[..|s| - 1][n..][k];
      }
    }
  }

  /** String.prototype.trim. */
  function Trim(s: string): (r: string)
  {
    TrimEnd(TrimStart(s))
  }

  /**
   * `trim` deletes white space at both ends and nothing else: the result is a
   * slice of the input with no white space at either end, and what lies
   * outside the slice is white space.
   */
  lemma TrimSlice(s: string)
    ensures Trimmed(Trim(s))
    ensures exists i :: SliceAt(s, Trim(s), i)
  {
    var t := TrimStart(s);
    var r := TrimEnd(t);
    TrimEndKeepsStart(t);
    var i := |s| - |t|;
    SliceOfSlice(s, t, r, i);
  }

  /** `r` lies in `s` at `i`, and what is outside of it is white space. */
  predicate SliceAt(s: string, r: string, i: int) {
    0 <= i <= |s| - |r| && s[i..i + |r|] == r && AllWhitespace(s[..i]) && AllWhitespace(s[i + |r|..])
  }

  /** Cutting white space off the end keeps a first code point that is not white space. */
  lemma TrimEndKeepsStart(t: string)
    requires t == [] || !IsWhitespace(t[0])
    ensures Trimmed(TrimEnd(t))
  {
    var r := TrimEnd(t);
    if r != [] {
      assert r[0] == t[0];
    }
  }

  /** A prefix `r` of the suffix `t` of `s` from `i` is the slice of `s` at `i`. */
  lemma SliceOfSlice(s: string, t: string, r: string, i: int)
    requires 0 <= i <= |s| && t == s[i..] && |r| <= |t| && r == t[..|r|]
    requires AllWhitespace(s[..i]) && AllWhitespace(t[|r|..])
    ensures SliceAt(s, r, i)
  {
    assert s[i + |r|..] == t[|r|..];
  }

  /** A string with no white space at either end is its own trim. */
  lemma {:induction false} TrimIdentity(s: string)
    requires Trimmed(s)
    ensures Trim(s) == s
  {
  }

  lemma TrimIdempotent(s: string)
    ensures Trim(Trim(s)) == Trim(s)
  {
    TrimSlice(s);
    TrimIdentity(Trim(s));
  }

  /** Trailing white space after a trimmed string disappears under `trim`. */
  lemma TrimTrailing(s: string, tail: string)
    requires Trimmed(s) && AllWhitespace(tail)
    ensures Trim(s + tail) == s
  {
    if s == [] {
      assert s + tail == tail;
      TrimStartWhitespace(tail);
    } else {
      assert (s + tail)[0] == s[0];
      assert TrimStart(s + tail) == s + tail;
      TrimEndTrailing(s, tail);
    }
  }

  /** `trimStart` deletes a string made of white space entirely. */
  lemma TrimStartWhitespace(s: string)
    requires AllWhitespace(s)
    ensures TrimStart(s) == []
  {
  }

  /** `trimEnd` deletes white space after a string whose last code point is not white space. */
  lemma {:induction false} TrimEndTrailing(s: string, tail: string)
    requires s != [] && !IsWhitespace(s[|s| - 1]) && AllWhitespace(tail)
    ensures TrimEnd(s + tail) == s
    decreases |tail|
  {
    if tail == [] {
      assert s + tail == s;
    } else {
      var front := tail[..|tail| - 1];
      assert (s + tail)[..|s + tail| - 1] == s + front;
      assert (s + tail)[|s + tail| - 1] == tail[|tail| - 1];
      TrimEndTrailing(s, front);
    }
  }

  /** String.prototype.substring(1): everything after the first code point. */
  function Substring1(s: string): string {
    if |s| == 0 then "" else s[1..]
  }

  /** String.prototype.startsWith("#"). */
  predicate StartsWithHash(s: string) {
    |s| > 0 && s[0] == '#'
  }

  /** `sep` occurs in `s` at position `k`. */
  predicate OccursAt(s: string, sep: string, k: nat) {
    k + |sep| <= |s| && s[k..k + |sep|] == sep
  }

  predicate Contains(s: string, sep: string) {
    exists k: nat | k <= |s| :: OccursAt(s, sep, k)
  }

  /** String.prototype.indexOf: the first position at which `sep` occurs, if any. */
  function IndexOf(s: string, sep: string): (r: Option<nat>)
    requires |sep| > 0
    ensures r.Some? ==> OccursAt(s, sep, r.value)
    ensures r.Some? ==> forall k: nat :: k < r.value ==> !OccursAt(s, sep, k)
    ensures r.None? <==> !Contains(s, sep)
    decreases |s|
  {
    if |s| < |sep| then None
    else if s[..|sep|] == sep then Some(0)
    else
      var rest := IndexOf(s[1..], sep);
      assert forall k: nat :: OccursAt(s[1..], sep, k) <==> OccursAt(s, sep, k + 1) by {
        forall k: nat ensures OccursAt(s[1..], sep, k) <==> OccursAt(s, sep, k + 1) {
          if k + 1 + |sep| <= |s| {
            assert s[1..][k..k + |sep|] == s[k + 1..k + 1 + |sep|];
          }
        }
      }
      assert !OccursAt(s, sep, 0);
      match rest
      case None =>
        assert forall k: nat :: !OccursAt(s, sep, k) by {
          forall k: nat ensures !OccursAt(s, sep, k) {
            if k > 0 {
              assert !OccursAt(s[1..], sep, k - 1);
            }
          }
        }
        None
      case Some(k) =>
        assert forall j: nat :: j < k + 1 ==> !OccursAt(s, sep, j) by {
          forall j: nat | j < k + 1 ensures !OccursAt(s, sep, j) {
            if j > 0 {
              assert !OccursAt(s[1..], sep, j - 1);
            }
          }
        }
        Some(k + 1)
  }

  /** Array.prototype.join: the pieces with `sep` between neighbours. */
  function Join(pieces: seq<string>, sep: string): string
  {
    if |pieces| == 0 then ""
    else if |pieces| == 1 then pieces[0]
    else pieces[0] + sep + Join(pieces[1..], sep)
  }

  /**
   * String.prototype.split with a non-empty string separator: the text
   * between successive leftmost non-overlapping occurrences of `sep`.
   * Joining the pieces gives back the input and no piece contains `sep`;
   * SplitLeftmost adds that every cut is at the first occurrence of `sep`
   * in what remains, and SplitUnique that these facts fix the pieces.
   */
  function Split(s: string, sep: string): (pieces: seq<string>)
    requires |sep| > 0
    ensures |pieces| >= 1
    ensures Join(pieces, sep) == s
    ensures forall i :: 0 <= i < |pieces| ==> !Contains(pieces[i], sep)
    decreases |s|
  {
    match IndexOf(s, sep)
    case None => [s]
    case Some(k) =>
      var head := s[..k];
      var tail := Split(s[k + |sep|..], sep);
      assert !Contains(head, sep) by {
        forall j: nat ensures !OccursAt(head, sep, j) {
          if j + |sep| <= |head| {
            assert head[j..j + |sep|] == s[j..j + |sep|];
            assert j < k;
            assert !OccursAt(s, sep, j);
          }
        }
      }
      assert s == head + sep + Join(tail, sep) by {
        assert s == s[..k] + s[k..k + |sep|] + s[k + |sep|..];
      }
      [head] + tail
  }

  /**
   * Every piece but the last ends where `sep` first occurs in the text made
   * of that piece and all after it.
   */
  predicate LeftmostCuts(pieces: seq<string>, sep: string)
    requires |sep| > 0
  {
    forall i :: 0 <= i < |pieces| - 1 ==> IndexOf(Join(pieces[i..], sep), sep) == Some(|pieces[i]|)
  }

  /**
   * split cuts at leftmost occurrences: one piece exactly when `sep` does not
   * occur, otherwise the first piece ends at the first occurrence, and so on
   * for the rest.
   */
  lemma {:induction false} SplitLeftmost(s: string, sep: string)
    requires |sep| > 0
    ensures |Split(s, sep)| == 1 <==> IndexOf(s, sep).None?
    ensures LeftmostCuts(Split(s, sep), sep)
    decreases |s|
  {
    match IndexOf(s, sep)
    case None =>
    case Some(k) =>
      var rest := s[k + |sep|..];
      SplitLeftmost(rest, sep);
      assert Split(s, sep) == [s[..k]] + Split(rest, sep);
      assert s == s[..k] + sep + rest by {
        assert s == s[..k] + s[k..k + |sep|] + s[k + |sep|..];
      }
      LeftmostCons(s, sep, s[..k], Split(rest, sep));
  }

  /**
   * The facts stated about split determine it: pieces that join to `s`,
   * none holding `sep`, each cut at the first occurrence, are split's pieces.
   */
  lemma {:induction false} SplitUnique(s: string, sep: string, pieces: seq<string>)
    requires |sep| > 0 && |pieces| >= 1 && Join(pieces, sep) == s
    requires forall i :: 0 <= i < |pieces| ==> !Contains(pieces[i], sep)
    requires LeftmostCuts(pieces, sep)
    ensures pieces == Split(s, sep)
    decreases |pieces|
  {
    if |pieces| == 1 {
      SplitAbsent(s, sep);
    } else {
      var rest := Join(pieces[1..], sep);
      LeftmostTail(pieces, sep);
      CutAt(s, pieces[0], sep, rest);
      SplitAt(s, sep, |pieces[0]|);
      NoneContainTail(pieces, sep);
      SplitUnique(rest, sep, pieces[1..]);
      assert pieces == [pieces[0]] + pieces[1..];
    }
  }

  /** Leftmost cuts: the first cut is at the first occurrence, and the rest are leftmost too. */
  lemma LeftmostTail(pieces: seq<string>, sep: string)
    requires |sep| > 0 && |pieces| >= 2 && LeftmostCuts(pieces, sep)
    ensures IndexOf(Join(pieces, sep), sep) == Some(|pieces[0]|)
    ensures LeftmostCuts(pieces[1..], sep)
  {
    assert pieces[0..] == pieces;
    forall i | 0 <= i < |pieces[1..]| - 1
      ensures IndexOf(Join(pieces[1..][i..], sep), sep) == Some(|pieces[1..][i]|)
    {
      assert pieces[1..][i..] == pieces[i + 1..];
    }
  }

  lemma NoneContainTail(pieces: seq<string>, sep: string)
    requires |pieces| >= 1 && forall i :: 0 <= i < |pieces| ==> !Contains(pieces[i], sep)
    ensures forall i :: 0 <= i < |pieces[1..]| ==> !Contains(pieces[1..][i], sep)
  {
  }

  /** split at a first occurrence found at `k`. */
  lemma SplitAt(s: string, sep: string, k: nat)
    requires |sep| > 0 && IndexOf(s, sep) == Some(k)
    ensures Split(s, sep) == [s[..k]] + Split(s[k + |sep|..], sep)
  {
  }

  /** Cutting `head + sep + rest` at the end of `head`. */
  lemma CutAt(s: string, head: string, sep: string, rest: string)
    requires s == head + sep + rest
    ensures s[..|head|] == head && s[|head| + |sep|..] == rest
  {
  }

  /** Overlapping occurrences: "setsets" is cut at its first "sets" only. */
  lemma SplitOverlapping()
    ensures Split("setsets", "sets") == ["", "ets"]
  {
    assert IndexOf("setsets", "sets") == Some(0);
    assert IndexOf("ets", "sets") == None;
  }

  lemma LeftmostCons(s: string, sep: string, head: string, tail: seq<string>)
    requires |sep| > 0 && |tail| >= 1 && LeftmostCuts(tail, sep)
    requires s == head + sep + Join(tail, sep) && IndexOf(s, sep) == Some(|head|)
    ensures LeftmostCuts([head] + tail, sep)
  {
    var pieces := [head] + tail;
    forall i | 0 <= i < |pieces| - 1
      ensures IndexOf(Join(pieces[i..], sep), sep) == Some(|pieces[i]|)
    {
      if i == 0 {
        assert pieces[i..] == pieces;
      } else {
        assert pieces[i..] == tail[i - 1..];
      }
    }
  }

  /** A string in which `sep` does not occur is split into itself alone. */
  lemma SplitAbsent(s: string, sep: string)
    requires |sep| > 0 && !Contains(s, sep)
    ensures Split(s, sep) == [s]
  {
  }

  /**
   * Splitting at a separator whose first code point does not occur in `head`
   * cuts exactly after `head`.
   */
  lemma SplitAfter(head: string, sep: string, tail: string)
    requires |sep| > 0 && sep[0] !in head
    ensures Split(head + sep + tail, sep) == [head] + Split(tail, sep)
  {
    var s := head + sep + tail;
    assert OccursAt(s, sep, |head|) by {
      assert s[|head|..|head| + |sep|] == sep;
    }
    forall k: nat | k < |head| ensures !OccursAt(s, sep, k) {
      assert s[k] == head[k] && s[k] != sep[0];
      if k + |sep| <= |s| {
        assert s[k..k + |sep|][0] == s[k];
      }
    }
    assert IndexOf(s, sep) == Some(|head|);
    assert s[..|head|] == head;
    assert s[|head| + |sep|..] == tail;
  }

  /**
   * Split undoes Join when the first code point of the separator occurs in
   * none of the pieces.
   */
  lemma {:induction false} SplitJoin(pieces: seq<string>, sep: string)
    requires |pieces| >= 1 && |sep| > 0
    requires forall i :: 0 <= i < |pieces| ==> sep[0] !in pieces[i]
    ensures Split(Join(pieces, sep), sep) == pieces
    decreases |pieces|
  {
    if |pieces| == 1 {
      assert !Contains(pieces[0], sep) by {
        forall k: nat ensures !OccursAt(pieces[0], sep, k) {
          if k + |sep| <= |pieces[0]| {
            assert pieces[0][k..k + |sep|][0] == pieces[0][k];
          }
        }
      }
      SplitAbsent(pieces[0], sep);
    } else {
      SplitJoin(pieces[1..], sep);
      SplitAfter(pieces[0], sep, Join(pieces[1..], sep));
      assert [pieces[0]] + pieces[1..] == pieces;
    }
  }

  /** A code point in neither the separator nor any piece is not in the joined text. */
  lemma {:induction false} NotInJoin(pieces: seq<string>, sep: string, c: char)
    requires c !in sep && forall i :: 0 <= i < |pieces| ==> c !in pieces[i]
    ensures c !in Join(pieces, sep)
    decreases |pieces|
  {
    if |pieces| > 1 {
      NotInJoin(pieces[1..], sep, c);
    }
  }

  /** The joined text starts with the first piece and ends with the last one. */
  lemma {:induction false} JoinEnds(pieces: seq<string>, sep: string)
    requires |pieces| >= 1
    ensures var s := Join(pieces, sep);
      |s| >= |pieces[0]| && |s| >= |pieces[|pieces| - 1]|
      && s[..|pieces[0]|] == pieces[0] && s[|s| - |pieces[|pieces| - 1]|..] == pieces[|pieces| - 1]
    decreases |pieces|
  {
    if |pieces| > 1 {
      JoinEnds(pieces[1..], sep);
      var rest := Join(pieces[1..], sep);
      var s := pieces[0] + sep + rest;
      assert s[..|pieces[0]|] == pieces[0];
      assert s[|s| - |rest|..] == rest;
    }
  }

  /** `map((part) => part.trim())`. */
  function TrimAll(xs: seq<string>): (r: seq<string>)
    ensures |r| == |xs|
    ensures forall i :: 0 <= i < |xs| ==> r[i] == Trim(xs[i])
  {
    seq(|xs|, i requires 0 <= i < |xs| => Trim(xs[i]))
  }

  /** Trimming a list of already-trimmed strings changes none of them. */
  lemma TrimAllTrimmed(xs: seq<string>)
    requires forall i :: 0 <= i < |xs| ==> Trimmed(xs[i])
    ensures TrimAll(xs) == xs
  {
    forall i | 0 <= i < |xs| ensures TrimAll(xs)[i] == xs[i] {
      TrimIdentity(xs[i]);
    }
  }

  /** `filter((line) => line.startsWith("#"))`. */
  function FilterHash(xs: seq<string>): (r: seq<string>)
    ensures |r| <= |xs|
    ensures forall i :: 0 <= i < |r| ==> StartsWithHash(r[i])
    ensures (|r| == 0) <==> (forall i :: 0 <= i < |xs| ==> !StartsWithHash(xs[i]))
  {
    if |xs| == 0 then []
    else (if StartsWithHash(xs[0]) then [xs[0]] else []) + FilterHash(xs[1..])
  }
}
