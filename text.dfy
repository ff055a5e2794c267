/**
 * The parts of Python's `str` and `re` behaviour that the scripts rely on.
 * Character classes are restricted to ASCII: `\s`, `\w`, `str.isspace()`,
 * `str.lower()` and `str.capitalize()` are modelled on the ASCII range only.
 */
module Text {

  /** `str.isspace()` on ASCII: what `\s` matches, `strip()` removes and `split()` splits on. */
  predicate IsSpace(c: char) {
    c == ' ' || c == '\t' || c == '\n' || c == '\r' || c == '\U{B}' || c == '\U{C}'
    || ('\U{1C}' <= c <= '\U{1F}')
  }

  predicate IsLetter(c: char) { 'a' <= c <= 'z' || 'A' <= c <= 'Z' }

  predicate IsDigit(c: char) { '0' <= c <= '9' }

  /** The regex class `[a-zA-Z0-9]`. */
  predicate IsAlnum(c: char) { IsLetter(c) || IsDigit(c) }

  /** The regex class `[^a-zA-Z0-9]`. */
  predicate NotAlnum(c: char) { !IsAlnum(c) }

  /** The regex class `\w`. */
  predicate IsWordChar(c: char) { IsAlnum(c) || c == '_' }

  /** True when `p` holds of every character of `s`. */
  predicate All(s: string, p: char -> bool) { forall i :: 0 <= i < |s| ==> p(s[i]) }

  /** True when every character of `s` is whitespace (including when `s` is empty). */
  predicate IsBlank(s: string) { All(s, IsSpace) }

  lemma AllConcat(a: string, b: string, p: char -> bool)
    ensures All(a + b, p) <==> All(a, p) && All(b, p)
  {
    if All(a, p) && All(b, p) {
      forall i | 0 <= i < |a + b| ensures p((a + b)[i]) {
        if i >= |a| { assert (a + b)[i] == b[i - |a|]; }
      }
    }
    if All(a + b, p) {
      forall i | 0 <= i < |a| ensures p(a[i]) { assert (a + b)[i] == a[i]; }
      forall i | 0 <= i < |b| ensures p(b[i]) { assert (a + b)[|a| + i] == b[i]; }
    }
  }

  function LowerChar(c: char): char {
    if 'A' <= c <= 'Z' then (c as int + 32) as char else c
  }

  function UpperChar(c: char): char {
    if 'a' <= c <= 'z' then (c as int - 32) as char else c
  }

  /** `s.lower()` */
  function Lower(s: string): (r: string)
    ensures |r| == |s|
    ensures forall i :: 0 <= i < |s| ==> r[i] == LowerChar(s[i])
  {
    if s == [] then [] else [LowerChar(s[0])] + Lower(s[1..])
  }

  /** `s.capitalize()`: the first character in upper case, the others in lower case. */
  function Capitalize(s: string): (r: string)
    ensures |r| == |s|
    ensures s != [] ==> r[0] == UpperChar(s[0])
    ensures forall i :: 1 <= i < |s| ==> r[i] == LowerChar(s[i])
  {
    if s == [] then [] else [UpperChar(s[0])] + Lower(s[1..])
  }

  /** `s[:n]` */
  function Take(s: string, n: nat): (r: string)
    ensures |r| <= n && |r| <= |s| && r == s[..|r|]
    ensures |s| <= n ==> r == s
  {
    if |s| <= n then s else s[..n]
  }

  /** The first `n` characters keep a property every character has. */
  lemma {:induction false} AllTake(s: string, n: nat, p: char -> bool)
    requires All(s, p)
    ensures All(Take(s, n), p)
  {
    var r := Take(s, n);
    assert forall i :: 0 <= i < |r| ==> r[i] == s[i];
  }

  /** `s.replace(a, b)` for single characters. */
  function ReplaceChar(s: string, a: char, b: char): (r: string)
    ensures |r| == |s|
    ensures forall i :: 0 <= i < |s| ==> r[i] == if s[i] == a then b else s[i]
  {
    if s == [] then [] else [if s[0] == a then b else s[0]] + ReplaceChar(s[1..], a, b)
  }

  /** The characters of `s` that `drop` does not hold of, in order. */
  function Drop(s: string, drop: char -> bool): (r: string)
    ensures |r| <= |s|
    ensures forall i :: 0 <= i < |r| ==> !drop(r[i])
  {
    if s == [] then [] else if drop(s[0]) then Drop(s[1..], drop) else [s[0]] + Drop(s[1..], drop)
  }

  // ---------------------------------------------------------------------------
  // strip, lstrip, rstrip

  /** `s.lstrip(chars)`, the stripped characters being those `drop` holds of. */
  function LStrip(s: string, drop: char -> bool): (r: string)
    ensures |r| <= |s| && r == s[|s| - |r|..]
    ensures r != [] ==> !drop(r[0])
    ensures forall i :: 0 <= i < |s| - |r| ==> drop(s[i])
    ensures s != [] && drop(s[0]) ==> |r| < |s|
    decreases |s|
  {
    if s != [] && drop(s[0]) then LStrip(s[1..], drop) else s
  }

  /** `s.rstrip(chars)` */
  function RStrip(s: string, drop: char -> bool): (r: string)
    ensures |r| <= |s| && r == s[..|r|]
    ensures r != [] ==> !drop(r[|r| - 1])
    ensures forall i :: |r| <= i < |s| ==> drop(s[i])
    decreases |s|
  {
    if s != [] && drop(s[|s| - 1]) then RStrip(s[..|s| - 1], drop) else s
  }

  /** `s.strip(chars)`: a slice of `s` that neither begins nor ends with a stripped character. */
  function StripBy(s: string, drop: char -> bool): (r: string)
    ensures |r| <= |s|
    ensures r != [] ==> !drop(r[0]) && !drop(r[|r| - 1])
    ensures r == [] <==> forall i :: 0 <= i < |s| ==> drop(s[i])
    ensures s == [] || (!drop(s[0]) && !drop(s[|s| - 1])) ==> r == s
  {
    var l := LStrip(s, drop);
    var r := RStrip(l, drop);
    assert r != [] ==> r[0] == l[0];
    r
  }

  /** What holds of every character of `s` holds of every character of `s.strip(chars)`. */
  lemma StripByKeeps(s: string, drop: char -> bool, keep: char -> bool)
    requires All(s, keep)
    ensures All(StripBy(s, drop), keep)
  {
    LStripKeeps(s, drop, keep);
    RStripKeeps(LStrip(s, drop), drop, keep);
  }

  lemma LStripKeeps(s: string, drop: char -> bool, keep: char -> bool)
    requires All(s, keep)
    ensures All(LStrip(s, drop), keep)
  {
    var l := LStrip(s, drop);
    forall i | 0 <= i < |l| ensures keep(l[i]) {
      assert l[i] == s[|s| - |l| + i];
    }
  }

  lemma RStripKeeps(s: string, drop: char -> bool, keep: char -> bool)
    requires All(s, keep)
    ensures All(RStrip(s, drop), keep)
  {
    var r := RStrip(s, drop);
    forall i | 0 <= i < |r| ensures keep(r[i]) {
      assert r[i] == s[i];
    }
  }

  /** `s.strip()` */
  function Strip(s: string): (r: string)
    ensures |r| <= |s|
    ensures r != [] ==> !IsSpace(r[0]) && !IsSpace(r[|r| - 1])
    ensures r == [] <==> IsBlank(s)
  {
    var r := StripBy(s, IsSpace);
    StripSpaces(s);
    r
  }

  /**
   * `r` is a slice of `s`, and every character of `s` before it and after it
   * is one that `drop` holds of.
   */
  predicate SliceBetween(s: string, r: string, drop: char -> bool) {
    exists a: nat :: a + |r| <= |s| && r == s[a..a + |r|] && All(s[..a], drop) && All(s[a + |r|..], drop)
  }

  // Helper for Strip: the ends and the blank case of stripping whitespace,
  // stated for `IsSpace` itself.
  lemma {:induction false} StripSpaces(s: string)
    ensures StripBy(s, IsSpace) != [] ==> !IsSpace(StripBy(s, IsSpace)[0])
    ensures StripBy(s, IsSpace) != [] ==> !IsSpace(StripBy(s, IsSpace)[|StripBy(s, IsSpace)| - 1])
    ensures StripBy(s, IsSpace) == [] <==> IsBlank(s)
  {
    assert IsBlank(s) <==> forall i :: 0 <= i < |s| ==> IsSpace(s[i]);
  }

  /**
   * `s.strip()` removes whitespace at the two ends and nothing else: the result
   * is a slice of `s` with only whitespace before and after it.
   */
  lemma {:induction false} StripIsSlice(s: string)
    ensures SliceBetween(s, Strip(s), IsSpace)
  {
    StripBySliceBetween(s, IsSpace);
  }

  /** `s.strip(chars)` removes stripped characters at the two ends and nothing else. */
  lemma {:induction false} StripBySliceBetween(s: string, drop: char -> bool)
    ensures SliceBetween(s, StripBy(s, drop), drop)
  {
    var a, l, r := StripByEnds(s, drop);
    SliceBetweenIntro(s, r, drop, a);
    StripByUnfold(s, drop);
  }

  // Helper for StripBySliceBetween: the witness of `SliceBetween`.
  lemma {:induction false} SliceBetweenIntro(s: string, r: string, drop: char -> bool, a: nat)
    requires a + |r| <= |s| && r == s[a..a + |r|] && All(s[..a], drop) && All(s[a + |r|..], drop)
    ensures SliceBetween(s, r, drop)
  {
  }

  // Helper for StripBySliceBetween: `strip` is `rstrip` after `lstrip`.
  lemma {:induction false} StripByUnfold(s: string, drop: char -> bool)
    ensures StripBy(s, drop) == RStrip(LStrip(s, drop), drop)
  {
  }

  // Helper for StripBySliceBetween: where the result of `rstrip` after `lstrip`
  // sits in `s`, and what was removed on each side.
  lemma {:induction false} StripByEnds(s: string, drop: char -> bool) returns (a: nat, l: string, r: string)
    ensures l == LStrip(s, drop) && r == RStrip(l, drop)
    ensures a + |r| <= |s| && r == s[a..a + |r|]
    ensures All(s[..a], drop) && All(s[a + |r|..], drop)
  {
    l := LStrip(s, drop);
    r := RStrip(l, drop);
    a := |s| - |l|;
    LStripDropped(s, drop);
    RStripDropped(l, drop);
    PrefixOfSuffix(s, l, r, a);
  }

  // Helper for StripByEnds: a prefix `r` of the suffix `l == s[a..]`, located in `s`.
  lemma {:induction false} PrefixOfSuffix(s: string, l: string, r: string, a: nat)
    requires a + |l| == |s| && l == s[a..] && |r| <= |l| && r == l[..|r|]
    ensures a + |r| <= |s| && r == s[a..a + |r|] && l[|r|..] == s[a + |r|..]
  {
  }

  // Helper for StripByEnds: `lstrip` removes only stripped characters.
  lemma {:induction false} LStripDropped(s: string, drop: char -> bool)
    ensures All(s[..|s| - |LStrip(s, drop)|], drop)
  {
    var p := s[..|s| - |LStrip(s, drop)|];
    forall i | 0 <= i < |p| ensures drop(p[i]) {
      assert p[i] == s[i];
    }
  }

  // Helper for StripByEnds: `rstrip` removes only stripped characters.
  lemma {:induction false} RStripDropped(l: string, drop: char -> bool)
    ensures All(l[|RStrip(l, drop)|..], drop)
  {
    var k := |RStrip(l, drop)|;
    var q := l[k..];
    forall i | 0 <= i < |q| ensures drop(q[i]) {
      assert q[i] == l[k + i];
    }
  }

  // ---------------------------------------------------------------------------
  // searching and splitting

  /** `pat` occurs in `s` starting at index `i`. */
  predicate OccursAt(s: string, pat: string, i: int) {
    0 <= i && i + |pat| <= |s| && s[i..i + |pat|] == pat
  }

  /** `pat in s` */
  predicate Contains(s: string, pat: string) {
    exists i :: 0 <= i <= |s| && OccursAt(s, pat, i)
  }

  /** The first occurrence of `pat` in `s` at or after `from`, or -1. */
  function FindFrom(s: string, pat: string, from: nat): (r: int)
    ensures r == -1 || (from <= r && OccursAt(s, pat, r))
    ensures forall j :: from <= j && (r == -1 || j < r) ==> !OccursAt(s, pat, j)
    decreases |s| - from
  {
    if from + |pat| > |s| then -1
    else if s[from..from + |pat|] == pat then from
    else FindFrom(s, pat, from + 1)
  }

  /** `s.find(pat)` */
  function IndexOf(s: string, pat: string): (r: int)
    ensures r == -1 <==> !Contains(s, pat)
    ensures r != -1 ==> OccursAt(s, pat, r) && forall j :: 0 <= j < r ==> !OccursAt(s, pat, j)
  {
    FindFrom(s, pat, 0)
  }

  /** `s.split(pat, 1)[0]`: the text before the first `pat`, or all of `s` when there is none. */
  function Before(s: string, pat: string): (r: string)
    ensures |r| <= |s| && r == s[..|r|]
    ensures !Contains(s, pat) ==> r == s
    ensures Contains(s, pat) ==> OccursAt(s, pat, |r|)
  {
    var i := IndexOf(s, pat);
    if i < 0 then s else s[..i]
  }

  /** `s.split(pat, 1)[1]` when `pat` occurs in `s`: the text after the first `pat`. */
  function After(s: string, pat: string): string {
    var i := IndexOf(s, pat);
    if i < 0 then "" else s[i + |pat|..]
  }

  /** `s.split(pat, 1)` has two parts exactly when `pat` occurs, and then they surround its first occurrence. */
  lemma BeforeAfterSplit(s: string, pat: string)
    requires Contains(s, pat)
    ensures s == Before(s, pat) + pat + After(s, pat)
  {
    var i := IndexOf(s, pat);
    assert s[i..i + |pat|] == pat;
    assert s == s[..i] + s[i..i + |pat|] + s[i + |pat|..];
  }

  /** The first index of `c` in `s`, or -1. */
  function IndexOfChar(s: string, c: char): (r: int)
    ensures -1 <= r < |s|
    ensures r == -1 <==> c !in s
    ensures r != -1 ==> s[r] == c && forall j :: 0 <= j < r ==> s[j] != c
  {
    if s == [] then -1
    else if s[0] == c then 0
    else
      var k := IndexOfChar(s[1..], c);
      if k == -1 then -1 else k + 1
  }

  /** The last index of `c` in `s`, or -1. */
  function LastIndexOfChar(s: string, c: char): (r: int)
    ensures -1 <= r < |s|
    ensures r == -1 <==> c !in s
    ensures r != -1 ==> s[r] == c && forall j :: r < j < |s| ==> s[j] != c
  {
    if s == [] then -1
    else if s[|s| - 1] == c then |s| - 1
    else LastIndexOfChar(s[..|s| - 1], c)
  }

  /** `s.split(c)[-1]`: the text after the last `c`, or all of `s` when there is none. */
  function AfterLast(s: string, c: char): (r: string)
    ensures c !in r
    ensures c !in s ==> r == s
  {
    s[LastIndexOfChar(s, c) + 1..]
  }

  /** `s.split(sep)`: the pieces between separators; never an empty list. */
  function SplitOn(s: string, sep: char): (parts: seq<string>)
    ensures |parts| >= 1
    ensures forall k :: 0 <= k < |parts| ==> sep !in parts[k]
    decreases |s|
  {
    var i := IndexOfChar(s, sep);
    if i == -1 then [s] else [s[..i]] + SplitOn(s[i + 1..], sep)
  }

  /** `sep.join(parts)` */
  function JoinWith(parts: seq<string>, sep: string): string {
    if |parts| == 0 then ""
    else if |parts| == 1 then parts[0]
    else parts[0] + sep + JoinWith(parts[1..], sep)
  }

  lemma JoinWithCons(part: string, rest: seq<string>, sep: string)
    requires |rest| >= 1
    ensures JoinWith([part] + rest, sep) == part + sep + JoinWith(rest, sep)
  {
    assert ([part] + rest)[1..] == rest;
  }

  /** A split at the first separator: the piece before it, then the split of the rest. */
  lemma SplitOnFirst(s: string, sep: char, i: int)
    requires i == IndexOfChar(s, sep) && i != -1
    ensures SplitOn(s, sep) == [s[..i]] + SplitOn(s[i + 1..], sep)
    ensures s == s[..i] + [sep] + s[i + 1..]
  {
    AroundIndex(s, i);
  }

  lemma AroundIndex(s: string, i: nat)
    requires i < |s|
    ensures s == s[..i] + [s[i]] + s[i + 1..]
  {
    assert s[i..] == [s[i]] + s[i + 1..];
    assert s == s[..i] + s[i..];
  }

  /** Joining the pieces of a split with the separator gives back the string. */
  lemma {:induction false} SplitOnJoin(s: string, sep: char)
    ensures JoinWith(SplitOn(s, sep), [sep]) == s
    decreases |s|
  {
    var i := IndexOfChar(s, sep);
    if i == -1 {
      assert SplitOn(s, sep) == [s];
    } else {
      var head, tail := s[..i], s[i + 1..];
      SplitOnFirst(s, sep, i);
      JoinWithCons(head, SplitOn(tail, sep), [sep]);
      SplitOnJoin(tail, sep);
    }
  }

  /** The length of the leading run of non-whitespace characters of `t`. */
  function TokenEnd(t: string): (n: nat)
    ensures n <= |t|
    ensures forall j :: 0 <= j < n ==> !IsSpace(t[j])
    ensures n < |t| ==> IsSpace(t[n])
  {
    if t == [] || IsSpace(t[0]) then 0 else 1 + TokenEnd(t[1..])
  }

  /** A word of `str.split()`: non-empty, without whitespace. */
  predicate IsWord(w: string) {
    w != [] && forall j :: 0 <= j < |w| ==> !IsSpace(w[j])
  }

  /** `s.split()`: the maximal runs of non-whitespace characters. */
  function Words(s: string): (ws: seq<string>)
    ensures forall w :: w in ws ==> IsWord(w)
    decreases |s|
  {
    var t := LStrip(s, IsSpace);
    if t == [] then []
    else
      var n := TokenEnd(t);
      var w := t[..n];
      assert IsWord(w);
      [w] + Words(t[n..])
  }

  /** `s.replace(pat, "")`: occurrences removed left to right, as Python does. */
  function RemoveAll(s: string, pat: string): (r: string)
    requires pat != []
    ensures |r| <= |s|
    decreases |s|
  {
    if |s| < |pat| then s
    else if s[..|pat|] == pat then RemoveAll(s[|pat|..], pat)
    else [s[0]] + RemoveAll(s[1..], pat)
  }

  /**
   * `re.sub("[...]+", [rep], s)` where the class is `inRun`: every maximal run
   * of characters `inRun` holds of becomes the single character `rep`.
   */
  function CollapseRuns(s: string, inRun: char -> bool, rep: char): (r: string)
    ensures |r| <= |s|
    ensures r == [] <==> s == []
    ensures forall i :: 0 <= i < |r| ==> r[i] == rep || !inRun(r[i])
    ensures s != [] && !inRun(s[0]) ==> r[0] == s[0]
    ensures inRun(rep) ==> forall i :: 0 <= i < |r| - 1 ==> !(r[i] == rep && r[i + 1] == rep)
    decreases |s|
  {
    if s == [] then []
    else if inRun(s[0]) then [rep] + CollapseRuns(LStrip(s, inRun), inRun, rep)
    else [s[0]] + CollapseRuns(s[1..], inRun, rep)
  }

  // ---------------------------------------------------------------------------
  // containment through slicing

  /** An occurrence inside a slice is an occurrence in the whole string. */
  lemma ContainsSlice(s: string, a: nat, b: nat, pat: string)
    requires a <= b <= |s|
    requires Contains(s[a..b], pat)
    ensures Contains(s, pat)
  {
    var i :| 0 <= i <= |s[a..b]| && OccursAt(s[a..b], pat, i);
    forall k | 0 <= k < |pat| ensures s[a + i..a + i + |pat|][k] == pat[k] {
      assert s[a..b][i + k] == pat[k];
    }
    assert OccursAt(s, pat, a + i);
  }

  /** The text before the first occurrence of a non-empty pattern does not contain it. */
  lemma BeforeExcludes(s: string, pat: string)
    requires pat != []
    ensures !Contains(Before(s, pat), pat)
  {
    var r := Before(s, pat);
    if Contains(s, pat) {
      assert IndexOf(s, pat) == |r|;
      forall i | 0 <= i <= |r| ensures !OccursAt(r, pat, i) {
        if i + |pat| <= |r| {
          assert i < IndexOf(s, pat);
          assert !OccursAt(s, pat, i);
          assert r[i..i + |pat|] == s[i..i + |pat|];
        }
      }
    }
  }

  /**
   * An occurrence at `i` is the first one when no earlier position carries the
   * pattern's `k`-th character `k` places further on.
   */
  lemma IndexOfFirst(s: string, pat: string, i: nat, k: nat)
    requires OccursAt(s, pat, i) && k < |pat|
    requires forall j :: k <= j < i + k ==> s[j] != pat[k]
    ensures IndexOf(s, pat) == i
  {
    assert Contains(s, pat);
    var r := IndexOf(s, pat);
    assert s[r..r + |pat|][k] == s[r + k];
  }

  /** The characters `s.strip(chars)` keeps form one slice of `s`, so it contains nothing new. */
  lemma {:induction false} StripByContains(s: string, drop: char -> bool, pat: string)
    requires Contains(StripBy(s, drop), pat)
    ensures Contains(s, pat)
  {
    var a := StripBySlice(s, drop);
    ContainsSlice(s, a, a + |StripBy(s, drop)|, pat);
  }

  // Helper for StripByContains: the stripped text is a slice of the text.
  lemma {:induction false} StripBySlice(s: string, drop: char -> bool) returns (a: nat)
    ensures a + |StripBy(s, drop)| <= |s| && StripBy(s, drop) == s[a..a + |StripBy(s, drop)|]
  {
    var l := LStrip(s, drop);
    var r := RStrip(l, drop);
    a := |s| - |l|;
    assert r == l[..|r|] && l == s[a..];
  }

  /** A one-character pattern occurs exactly when the character does. */
  lemma ContainsChar(s: string, c: char)
    ensures Contains(s, [c]) <==> c in s
  {
    if c in s {
      var i :| 0 <= i < |s| && s[i] == c;
      assert OccursAt(s, [c], i);
    }
    if Contains(s, [c]) {
      var i :| 0 <= i <= |s| && OccursAt(s, [c], i);
      assert s[i] == c;
    }
  }

  // ---------------------------------------------------------------------------
  // facts about the rewrites used by the sanitisers

  /** A string with no character of the class is left alone by `CollapseRuns`. */
  lemma {:induction false} CollapseRunsNone(s: string, inRun: char -> bool, rep: char)
    requires forall i :: 0 <= i < |s| ==> !inRun(s[i])
    ensures CollapseRuns(s, inRun, rep) == s
    decreases |s|
  {
    if s != [] {
      CollapseRunsNone(s[1..], inRun, rep);
    }
  }

  /** `Drop` leaves a string none of whose characters it drops unchanged. */
  lemma {:induction false} DropNone(s: string, drop: char -> bool)
    requires forall i :: 0 <= i < |s| ==> !drop(s[i])
    ensures Drop(s, drop) == s
    decreases |s|
  {
    if s != [] {
      DropNone(s[1..], drop);
    }
  }

  /** Dropping the stripped characters after a strip is the same as dropping them outright. */
  lemma {:induction false} DropLStrip(s: string, drop: char -> bool)
    ensures Drop(LStrip(s, drop), drop) == Drop(s, drop)
    decreases |s|
  {
    if s != [] && drop(s[0]) {
      DropLStrip(s[1..], drop);
    }
  }

  /** `Drop` distributes over concatenation. */
  lemma {:induction false} DropAppend(a: string, b: string, drop: char -> bool)
    ensures Drop(a + b, drop) == Drop(a, drop) + Drop(b, drop)
    decreases |a|
  {
    if a != [] {
      assert (a + b)[1..] == a[1..] + b;
      DropAppend(a[1..], b, drop);
    } else {
      assert a + b == b;
    }
  }

  /** The kept characters of a prefix are a prefix of the kept characters. */
  lemma {:induction false} DropPrefix(s: string, k: nat, drop: char -> bool)
    requires k <= |s|
    ensures Drop(s[..k], drop) <= Drop(s, drop)
  {
    assert s == s[..k] + s[k..];
    DropAppend(s[..k], s[k..], drop);
  }

  /** Dropping the stripped characters after an rstrip is the same as dropping them outright. */
  lemma {:induction false} DropRStrip(s: string, drop: char -> bool)
    ensures Drop(RStrip(s, drop), drop) == Drop(s, drop)
    decreases |s|
  {
    if s != [] && drop(s[|s| - 1]) {
      var init := s[..|s| - 1];
      DropRStrip(init, drop);
      assert s == init + [s[|s| - 1]];
      DropAppend(init, [s[|s| - 1]], drop);
      assert Drop([s[|s| - 1]], drop) == [] by {
        assert [s[|s| - 1]][1..] == [];
      }
    }
  }

  /** A text whose runs are already single `rep` characters is left unchanged by the collapse. */
  lemma {:induction false} CollapseRunsSingle(s: string, inRun: char -> bool, rep: char)
    requires forall i :: 0 <= i < |s| && inRun(s[i]) ==> s[i] == rep
    requires forall i :: 0 <= i < |s| - 1 ==> !(inRun(s[i]) && inRun(s[i + 1]))
    ensures CollapseRuns(s, inRun, rep) == s
    decreases |s|
  {
    if s != [] {
      var t := s[1..];
      CollapseRunsSingle(t, inRun, rep);
      if inRun(s[0]) {
        assert LStrip(t, inRun) == t;
        assert LStrip(s, inRun) == t;
      }
    }
  }

  /** Dropping the stripped characters after a strip is the same as dropping them outright. */
  lemma DropStripBy(s: string, drop: char -> bool)
    ensures Drop(StripBy(s, drop), drop) == Drop(s, drop)
  {
    DropLStrip(s, drop);
    DropRStrip(LStrip(s, drop), drop);
  }

  /** Dropping with a wider class after a narrower one is dropping with the wider class alone. */
  lemma {:induction false} DropWider(s: string, narrow: char -> bool, wide: char -> bool)
    requires forall c :: narrow(c) ==> wide(c)
    ensures Drop(Drop(s, narrow), wide) == Drop(s, wide)
    decreases |s|
  {
    if s != [] {
      DropWider(s[1..], narrow, wide);
      if !narrow(s[0]) {
        assert ([s[0]] + Drop(s[1..], narrow))[1..] == Drop(s[1..], narrow);
      }
    }
  }

  /** Replacing one dropped character by another does not change what `Drop` keeps. */
  lemma {:induction false} DropReplaceChar(s: string, a: char, b: char, drop: char -> bool)
    requires drop(a) && drop(b)
    ensures Drop(ReplaceChar(s, a, b), drop) == Drop(s, drop)
    decreases |s|
  {
    if s != [] {
      DropReplaceChar(s[1..], a, b, drop);
      var r := ReplaceChar(s, a, b);
      assert r[1..] == ReplaceChar(s[1..], a, b);
    }
  }

  /**
   * Collapsing runs into a character of the class keeps every character outside
   * the class, in order: only the runs themselves are rewritten.
   */
  lemma {:induction false} CollapseRunsKeepsOthers(s: string, inRun: char -> bool, rep: char)
    requires inRun(rep)
    ensures Drop(CollapseRuns(s, inRun, rep), inRun) == Drop(s, inRun)
    decreases |s|
  {
    if s == [] {
    } else if inRun(s[0]) {
      var t := LStrip(s, inRun);
      CollapseRunsKeepsOthers(t, inRun, rep);
      DropLStrip(s, inRun);
      assert ([rep] + CollapseRuns(t, inRun, rep))[1..] == CollapseRuns(t, inRun, rep);
    } else {
      CollapseRunsKeepsOthers(s[1..], inRun, rep);
      assert ([s[0]] + CollapseRuns(s[1..], inRun, rep))[1..] == CollapseRuns(s[1..], inRun, rep);
    }
  }

  /** A first character outside the class is kept, and the collapse goes on after it. */
  lemma {:induction false} CollapseRunsKeptHead(x: string, z: string, inRun: char -> bool, rep: char)
    requires x != [] && !inRun(x[0])
    ensures CollapseRuns(x + z, inRun, rep) == [x[0]] + CollapseRuns(x[1..] + z, inRun, rep)
  {
    var s := x + z;
    assert s[0] == x[0];
    assert s[1..] == x[1..] + z;
  }

  /** Putting back the first character of `x` in front of the rest of `x + w`. */
  lemma ConsAppend<T>(x: seq<T>, w: seq<T>)
    requires x != []
    ensures [x[0]] + (x[1..] + w) == x + w
  {
    HeadThenTail(x);
  }

  /** A prefix with no character of the class passes through `CollapseRuns` unchanged. */
  lemma {:induction false} CollapseRunsPrefixKept(x: string, z: string, inRun: char -> bool, rep: char)
    requires forall i :: 0 <= i < |x| ==> !inRun(x[i])
    ensures CollapseRuns(x + z, inRun, rep) == x + CollapseRuns(z, inRun, rep)
    decreases |x|
  {
    if x == [] {
      assert x + z == z;
    } else {
      var t := x[1..];
      forall i | 0 <= i < |t| ensures !inRun(t[i]) {
        assert t[i] == x[i + 1];
      }
      CollapseRunsPrefixKept(t, z, inRun, rep);
      CollapseRunsKeptHead(x, z, inRun, rep);
      ConsAppend(x, CollapseRuns(z, inRun, rep));
    }
  }

  /** A first character of the class is stripped, and `lstrip` goes on after it. */
  lemma {:induction false} LStripHead(run: string, y: string, inRun: char -> bool)
    requires run != [] && inRun(run[0])
    ensures LStrip(run + y, inRun) == LStrip(run[1..] + y, inRun)
  {
    var s := run + y;
    assert s[0] == run[0];
    assert s[1..] == run[1..] + y;
  }

  /** `lstrip` of a run followed by text that does not start with the class removes exactly the run. */
  lemma {:induction false} LStripRun(run: string, y: string, inRun: char -> bool)
    requires forall i :: 0 <= i < |run| ==> inRun(run[i])
    requires y == [] || !inRun(y[0])
    ensures LStrip(run + y, inRun) == y
    decreases |run|
  {
    if run == [] {
      assert run + y == y;
    } else {
      var t := run[1..];
      forall i | 0 <= i < |t| ensures inRun(t[i]) {
        assert t[i] == run[i + 1];
      }
      LStripRun(t, y, inRun);
      LStripHead(run, y, inRun);
    }
  }

  /** A non-empty run at the front becomes one `rep`, and the collapse goes on after it. */
  lemma {:induction false} CollapseRunsRunAtFront(run: string, y: string, inRun: char -> bool, rep: char)
    requires run != [] && forall i :: 0 <= i < |run| ==> inRun(run[i])
    requires y == [] || !inRun(y[0])
    ensures CollapseRuns(run + y, inRun, rep) == [rep] + CollapseRuns(y, inRun, rep)
  {
    assert (run + y)[0] == run[0];
    LStripRun(run, y, inRun);
  }

  /**
   * The rule of `CollapseRuns`: text outside the class is kept, and a maximal
   * run of the class (non-empty, not followed by another character of it)
   * becomes exactly one `rep`.
   */
  lemma {:induction false} CollapseRunsSplit(x: string, run: string, y: string, inRun: char -> bool, rep: char)
    requires forall i :: 0 <= i < |x| ==> !inRun(x[i])
    requires run != [] && forall i :: 0 <= i < |run| ==> inRun(run[i])
    requires y == [] || !inRun(y[0])
    ensures CollapseRuns(x + run + y, inRun, rep) == x + [rep] + CollapseRuns(y, inRun, rep)
  {
    assert x + run + y == x + (run + y);
    CollapseRunsPrefixKept(x, run + y, inRun, rep);
    CollapseRunsRunAtFront(run, y, inRun, rep);
  }

  /** What holds of every character of `s` holds of every character `Drop` keeps. */
  lemma {:induction false} DropKeeps(s: string, drop: char -> bool, keep: char -> bool)
    requires All(s, keep)
    ensures All(Drop(s, drop), keep)
    decreases |s|
  {
    if s != [] {
      DropKeeps(s[1..], drop, keep);
      if !drop(s[0]) {
        AllConcat([s[0]], Drop(s[1..], drop), keep);
      }
    }
  }

  // ---------------------------------------------------------------------------
  // splitting what was joined

  /** The first separator of `a + [c] + b` is the one after `a` when `a` has none. */
  lemma IndexOfCharAfter(a: string, c: char, b: string)
    requires c !in a
    ensures IndexOfChar(a + [c] + b, c) == |a|
  {
    var s := a + [c] + b;
    assert s[|a|] == c;
    var r := IndexOfChar(s, c);
    assert forall j :: 0 <= j < |a| ==> s[j] == a[j];
  }

  /** Splitting the join of separator-free pieces gives the pieces back. */
  lemma {:induction false} JoinWithSplitOn(parts: seq<string>, sep: char)
    requires |parts| >= 1
    requires forall k :: 0 <= k < |parts| ==> sep !in parts[k]
    ensures SplitOn(JoinWith(parts, [sep]), sep) == parts
  {
    if |parts| == 1 {
      assert JoinWith(parts, [sep]) == parts[0];
    } else {
      JoinWithSplitOn(parts[1..], sep);
      HeadThenTail(parts);
      JoinWithSplitOnStep(parts[0], parts[1..], parts, sep);
    }
  }

  // Helper for JoinWithSplitOn: the inductive step, a part put before a join of at least one part.
  lemma {:induction false} JoinWithSplitOnStep(head: string, rest: seq<string>, parts: seq<string>, sep: char)
    requires parts == [head] + rest && |rest| >= 1 && sep !in head
    requires SplitOn(JoinWith(rest, [sep]), sep) == rest
    ensures SplitOn(JoinWith(parts, [sep]), sep) == parts
  {
    var tail := JoinWith(rest, [sep]);
    var s := head + [sep] + tail;
    JoinWithCons(head, rest, [sep]);
    IndexOfCharAfter(head, sep, tail);
    SplitOnFirst(s, sep, |head|);
    assert s[..|head|] == head && s[|head| + 1..] == tail;
  }

  /** A pattern one of whose characters is missing from `s` does not occur in `s`. */
  lemma {:induction false} ContainsNeedsChar(s: string, pat: string, k: nat)
    requires k < |pat| && pat[k] !in s
    ensures !Contains(s, pat)
  {
    forall i | 0 <= i <= |s| ensures !OccursAt(s, pat, i) {
      if i + |pat| <= |s| {
        assert s[i..i + |pat|][k] == s[i + k];
      }
    }
  }

  /** `s.replace(pat, "")` leaves a text without `pat` unchanged. */
  lemma {:induction false} RemoveAllAbsent(s: string, pat: string)
    requires pat != [] && !Contains(s, pat)
    ensures RemoveAll(s, pat) == s
    decreases |s|
  {
    if |s| >= |pat| {
      assert !OccursAt(s, pat, 0);
      assert s[..|pat|] == s[0..|pat|];
      var t := s[1..];
      forall i | 0 <= i <= |t| ensures !OccursAt(t, pat, i) {
        assert !OccursAt(s, pat, i + 1);
        if i + |pat| <= |t| {
          assert t[i..i + |pat|] == s[i + 1..i + 1 + |pat|];
        }
      }
      RemoveAllAbsent(t, pat);
      assert s == [s[0]] + t;
    }
  }

  /** `str.split()` ignores a leading space. */
  lemma {:induction false} WordsAfterSpace(s: string)
    ensures Words(" " + s) == Words(s)
  {
    var t := " " + s;
    assert t[0] == ' ' && t[1..] == s;
    assert LStrip(t, IsSpace) == LStrip(s, IsSpace);
    WordsOfSameStrip(t, s);
  }

  // Helper for WordsAfterSpace: `str.split()` only looks at the text after its leading whitespace.
  lemma {:induction false} WordsOfSameStrip(x: string, y: string)
    requires LStrip(x, IsSpace) == LStrip(y, IsSpace)
    ensures Words(x) == Words(y)
  {
  }

  /** `str.split()` of a single word is that word. */
  lemma {:induction false} WordsOfWord(w: string)
    requires IsWord(w)
    ensures Words(w) == [w]
  {
    assert LStrip(w, IsSpace) == w;
    var n := TokenEnd(w);
    assert n == |w|;
    assert w[..n] == w && w[n..] == [];
    assert Words([]) == [];
  }

  /** `str.split()` of a word, a space and a text is the word followed by the words of the text. */
  lemma {:induction false} WordsOfWordThenSpace(w: string, tail: string)
    requires IsWord(w)
    ensures Words(w + " " + tail) == [w] + Words(tail)
  {
    var s := w + " " + tail;
    assert s[0] == w[0];
    assert LStrip(s, IsSpace) == s;
    assert s[|w|] == ' ';
    assert forall j :: 0 <= j < |w| ==> s[j] == w[j];
    assert TokenEnd(s) == |w|;
    assert s[..|w|] == w && s[|w|..] == " " + tail;
    WordsAfterSpace(tail);
  }

  /** `str.split()` of words joined by single spaces gives the words back. */
  lemma {:induction false} WordsOfJoin(ws: seq<string>)
    requires forall w :: w in ws ==> IsWord(w)
    ensures Words(JoinWith(ws, " ")) == ws
  {
    if |ws| <= 1 {
      WordsOfShortJoin(ws);
    } else {
      WordsOfJoin(ws[1..]);
      HeadThenTail(ws);
      WordsOfJoinStep(ws[0], ws[1..], ws);
    }
  }

  /** A non-empty sequence is its first element followed by the rest. */
  lemma HeadThenTail<T>(s: seq<T>)
    requires s != []
    ensures s == [s[0]] + s[1..]
  {
  }

  // Helper for WordsOfShortJoin: an empty text has no words.
  lemma WordsOfEmpty()
    ensures Words([]) == []
  {
    assert LStrip([], IsSpace) == [];
  }

  // Helper for WordsOfJoin: no word, or a single one.
  lemma {:induction false} WordsOfShortJoin(ws: seq<string>)
    requires |ws| <= 1 && forall w :: w in ws ==> IsWord(w)
    ensures Words(JoinWith(ws, " ")) == ws
  {
    if ws == [] {
      assert JoinWith(ws, " ") == [];
      WordsOfEmpty();
    } else {
      assert JoinWith(ws, " ") == ws[0] && ws == [ws[0]];
      WordsOfWord(ws[0]);
    }
  }

  // Helper for WordsOfJoin: the inductive step, a word put before a join of at least one word.
  lemma {:induction false} WordsOfJoinStep(w: string, rest: seq<string>, ws: seq<string>)
    requires ws == [w] + rest && |rest| >= 1 && IsWord(w)
    requires Words(JoinWith(rest, " ")) == rest
    ensures Words(JoinWith(ws, " ")) == ws
  {
    var tail := JoinWith(rest, " ");
    JoinWithCons(w, rest, " ");
    WordsOfWordThenSpace(w, tail);
  }

  /** `replace(a, b)` distributes over concatenation. */
  lemma {:induction false} ReplaceCharConcat(x: string, y: string, a: char, b: char)
    ensures ReplaceChar(x + y, a, b) == ReplaceChar(x, a, b) + ReplaceChar(y, a, b)
    decreases |x|
  {
    if x == [] {
      assert x + y == y;
    } else {
      assert (x + y)[0] == x[0] && (x + y)[1..] == x[1..] + y;
      ReplaceCharConcat(x[1..], y, a, b);
    }
  }

  /** Replacing the separator of a join by another is joining with the other. */
  lemma {:induction false} ReplaceJoinSeparator(ws: seq<string>, a: char, b: char)
    requires forall k :: 0 <= k < |ws| ==> a !in ws[k]
    ensures ReplaceChar(JoinWith(ws, [a]), a, b) == JoinWith(ws, [b])
  {
    if |ws| >= 1 {
      var w := ws[0];
      assert ReplaceChar(w, a, b) == w;
      if |ws| > 1 {
        var rest := ws[1..];
        JoinWithCons(w, rest, [a]);
        JoinWithCons(w, rest, [b]);
        assert ws == [w] + rest;
        ReplaceCharConcat(w + [a], JoinWith(rest, [a]), a, b);
        ReplaceCharConcat(w, [a], a, b);
        assert ReplaceChar([a], a, b) == [b];
        ReplaceJoinSeparator(rest, a, b);
      }
    }
  }
}
