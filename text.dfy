/**
 * The JavaScript string operations the modelled code relies on:
 * `trim`, `startsWith`, `endsWith`, `split` on a literal separator and
 * `join`, stated over `seq<char>`.
 */
module Text {
  import opened Wrappers

  /** The characters `String.prototype.trim` removes: ECMAScript WhiteSpace and LineTerminator. */
  predicate IsWhitespace(c: char) {
    c in WhitespaceChars || ('\U{2000}' <= c <= '\U{200A}')
  }

  /** The whitespace characters outside the range U+2000..U+200A. */
  const WhitespaceChars: set<char> := {
    ' ', '\t', '\n', '\r', '\U{000B}', '\U{000C}', '\U{00A0}', '\U{1680}',
    '\U{2028}', '\U{2029}', '\U{202F}', '\U{205F}', '\U{3000}', '\U{FEFF}'}

  /** Every character is whitespace (the empty string included). */
  predicate Blank(s: string) {
    forall i :: 0 <= i < |s| ==> IsWhitespace(s[i])
  }

  /** The index of the first non-whitespace character at or after `i`, or `|s|`. */
  function SkipLeading(s: string, i: nat): (j: nat)
    requires i <= |s|
    ensures i <= j <= |s|
    ensures forall k :: i <= k < j ==> IsWhitespace(s[k])
    ensures j < |s| ==> !IsWhitespace(s[j])
    decreases |s| - i
  {
    if i < |s| && IsWhitespace(s[i]) then SkipLeading(s, i + 1) else i
  }

  /** The end of `s[lo..j]` once its trailing whitespace is dropped. */
  function SkipTrailing(s: string, lo: nat, j: nat): (e: nat)
    requires lo <= j <= |s|
    ensures lo <= e <= j
    ensures forall k :: e <= k < j ==> IsWhitespace(s[k])
    ensures e > lo ==> !IsWhitespace(s[e - 1])
    decreases j
  {
    if j > lo && IsWhitespace(s[j - 1]) then SkipTrailing(s, lo, j - 1) else j
  }

  /** `s.trim()`: drops leading and trailing whitespace and nothing else. */
  function Trim(s: string): (r: string)
    ensures |r| <= |s|
    ensures r == [] <==> Blank(s)
    ensures r != [] ==> !IsWhitespace(r[0]) && !IsWhitespace(r[|r| - 1])
  {
    var a := SkipLeading(s, 0);
    var e := SkipTrailing(s, a, |s|);
    assert a < |s| ==> e > a;
    s[a..e]
  }

  /** `s.startsWith(p)`. */
  predicate StartsWith(s: string, p: string) {
    |p| <= |s| && s[..|p|] == p
  }

  /** Texts that differ at a common index neither equal nor start with one another. */
  lemma DifferAt(s: string, p: string, i: nat)
    requires i < |s| && i < |p| && s[i] != p[i]
    ensures !StartsWith(s, p) && s != p
  {
    if |p| <= |s| {
      assert s[..|p|][i] == s[i];
    }
  }

  /** `s.endsWith(p)`. */
  predicate EndsWith(s: string, p: string) {
    |p| <= |s| && s[|s| - |p|..] == p
  }

  /** `sep` occurs in `s` starting at index `i`. */
  predicate OccursAt(s: string, sep: string, i: nat) {
    i + |sep| <= |s| && s[i..i + |sep|] == sep
  }

  predicate Contains(s: string, sep: string) {
    exists i: nat | i <= |s| :: OccursAt(s, sep, i)
  }

  /** `s.indexOf(sep)`: the leftmost occurrence, or none. */
  function IndexOf(s: string, sep: string): (r: Option<nat>)
    ensures r.Some? ==> OccursAt(s, sep, r.value)
    ensures r.Some? ==> forall j: nat :: j < r.value ==> !OccursAt(s, sep, j)
    ensures r.None? ==> !Contains(s, sep)
  {
    IndexFrom(s, sep, 0)
  }

  /** `s.indexOf(sep, k)`: the leftmost occurrence at or after `k`. */
  function IndexFrom(s: string, sep: string, k: nat): (r: Option<nat>)
    ensures r.Some? ==> k <= r.value && OccursAt(s, sep, r.value)
    ensures r.Some? ==> forall j: nat :: k <= j < r.value ==> !OccursAt(s, sep, j)
    ensures r.None? ==> forall j: nat :: k <= j ==> !OccursAt(s, sep, j)
    decreases |s| + 1 - k
  {
    if k + |sep| > |s| then None
    else if OccursAt(s, sep, k) then Some(k)
    else IndexFrom(s, sep, k + 1)
  }

  /** `s.split(sep)` for a non-empty literal separator. */
  function Split(s: string, sep: string): (parts: seq<string>)
    requires sep != []
    ensures |parts| >= 1
    ensures forall k :: 0 <= k < |parts| ==> !Contains(parts[k], sep)
    decreases |s|
  {
    match IndexOf(s, sep)
    case None => [s]
    case Some(i) =>
      PrefixBeforeFirst(s, sep, i);
      [s[..i]] + Split(s[i + |sep|..], sep)
  }

  /** The text before the leftmost occurrence contains none. */
  lemma PrefixBeforeFirst(s: string, sep: string, i: nat)
    requires sep != [] && i <= |s|
    requires forall j: nat :: j < i ==> !OccursAt(s, sep, j)
    ensures !Contains(s[..i], sep)
  {
    forall j: nat | OccursAt(s[..i], sep, j) ensures false {
      assert s[..i][j..j + |sep|] == s[j..j + |sep|];
      assert OccursAt(s, sep, j);
    }
  }

  /** `parts.join(sep)`. */
  function Join(parts: seq<string>, sep: string): string
    decreases |parts|
  {
    if |parts| == 0 then ""
    else if |parts| == 1 then parts[0]
    else parts[0] + sep + Join(parts[1..], sep)
  }

  /** Splitting and re-joining on the same separator gives the text back. */
  lemma {:induction false} JoinSplit(s: string, sep: string)
    requires sep != []
    ensures Join(Split(s, sep), sep) == s
    decreases |s|
  {
    match IndexOf(s, sep)
    case None =>
      assert Split(s, sep) == [s];
    case Some(i) =>
      var rest := s[i + |sep|..];
      var tail := Split(rest, sep);
      JoinSplit(rest, sep);
      assert Split(s, sep) == [s[..i]] + tail;
      assert Join([s[..i]] + tail, sep) == s[..i] + sep + Join(tail, sep);
      assert s == s[..i] + sep + rest;
  }

  /** A text with no occurrence of the separator splits into itself. */
  lemma SplitNoSeparator(s: string, sep: string)
    requires sep != [] && !Contains(s, sep)
    ensures Split(s, sep) == [s]
  {
  }

  /** Joining splits at any non-empty cut point into the two joins around the separator. */
  lemma {:induction false} JoinAppend(a: seq<string>, b: seq<string>, sep: string)
    requires a != [] && b != []
    ensures Join(a + b, sep) == Join(a, sep) + sep + Join(b, sep)
    decreases |a|
  {
    if |a| == 1 {
      assert (a + b)[1..] == b;
    } else {
      JoinAppend(a[1..], b, sep);
      assert (a + b)[1..] == a[1..] + b;
    }
  }

  /** A join starts with its first part. */
  lemma {:induction false} JoinStartsWithFirst(parts: seq<string>, sep: string)
    requires parts != []
    ensures StartsWith(Join(parts, sep), parts[0])
  {
  }

  /** Joining blank parts with a blank separator gives a blank text. */
  lemma {:induction false} JoinBlank(parts: seq<string>, sep: string)
    requires Blank(sep)
    requires forall k :: 0 <= k < |parts| ==> Blank(parts[k])
    ensures Blank(Join(parts, sep))
    decreases |parts|
  {
    if |parts| > 1 {
      JoinBlank(parts[1..], sep);
    }
  }

  /** With a one-character separator absent from `a`, the first occurrence in `a + sep + b` is right after `a`. */
  lemma SplitCons(a: string, sep: string, b: string)
    requires |sep| == 1 && !Contains(a, sep)
    ensures Split(a + sep + b, sep) == [a] + Split(b, sep)
  {
    var s := a + sep + b;
    assert s[|a|..|a| + 1] == sep;
    assert OccursAt(s, sep, |a|);
    forall j: nat | j < |a| ensures !OccursAt(s, sep, j) {
      assert !OccursAt(a, sep, j);
      assert a[j..j + 1] == [a[j]];
      assert s[j..j + 1] == [a[j]];
    }
    var r := IndexOf(s, sep);
    assert r.Some?;
    assert r.value == |a|;
    assert s[..|a|] == a;
    assert s[|a| + 1..] == b;
  }

  /** Parts free of a one-character separator are recovered by splitting their join. */
  lemma {:induction false} SplitJoin(parts: seq<string>, sep: string)
    requires |sep| == 1 && parts != []
    requires forall k :: 0 <= k < |parts| ==> !Contains(parts[k], sep)
    ensures Split(Join(parts, sep), sep) == parts
    decreases |parts|
  {
    if |parts| == 1 {
      SplitNoSeparator(parts[0], sep);
    } else {
      SplitJoin(parts[1..], sep);
      SplitJoinStep(parts, sep);
    }
  }

  /** The inductive step of `SplitJoin`: the first part splits off ahead of the rest. */
  lemma SplitJoinStep(parts: seq<string>, sep: string)
    requires |sep| == 1 && |parts| > 1 && !Contains(parts[0], sep)
    requires Split(Join(parts[1..], sep), sep) == parts[1..]
    ensures Split(Join(parts, sep), sep) == parts
  {
    var rest := Join(parts[1..], sep);
    assert Join(parts, sep) == parts[0] + sep + rest;
    SplitCons(parts[0], sep, rest);
    assert parts == [parts[0]] + parts[1..];
  }

  /** No proper prefix of `sep` is also a suffix of it, so two occurrences never overlap. */
  predicate Unbordered(sep: string) {
    forall n :: 0 < n < |sep| ==> sep[n..] != sep[..|sep| - n]
  }

  /** With an unbordered separator absent from `a`, the first occurrence in `a + sep + b` is right after `a`. */
  lemma SplitConsUnbordered(a: string, sep: string, b: string)
    requires sep != [] && Unbordered(sep) && !Contains(a, sep)
    ensures Split(a + sep + b, sep) == [a] + Split(b, sep)
  {
    var s := a + sep + b;
    assert s[|a|..|a| + |sep|] == sep;
    forall j: nat | j < |a| ensures !OccursAt(s, sep, j) {
      if j + |sep| <= |a| {
        assert s[j..j + |sep|] == a[j..j + |sep|];
        assert !OccursAt(a, sep, j);
      } else {
        OverlapIsBorder(a, sep, b, j);
      }
    }
    assert OccursAt(s, sep, |a|);
    var r := IndexOf(s, sep);
    assert r.Some?;
    assert r.value == |a|;
    assert s[..|a|] == a;
    assert s[|a| + |sep|..] == b;
  }

  /** An occurrence that starts in `a` and runs into `sep` shows a prefix of `sep` equal to a suffix. */
  lemma OverlapIsBorder(a: string, sep: string, b: string, j: nat)
    requires j < |a| < j + |sep|
    ensures OccursAt(a + sep + b, sep, j) ==> sep[|a| - j..] == sep[..|sep| - (|a| - j)]
  {
    var s := a + sep + b;
    var n := |a| - j;
    if OccursAt(s, sep, j) {
      forall t | 0 <= t < |sep| - n ensures sep[n..][t] == sep[..|sep| - n][t] {
        assert s[j..j + |sep|][n + t] == s[|a| + t];
      }
    }
  }

  /** Parts free of an unbordered separator are recovered by splitting their join. */
  lemma {:induction false} SplitJoinUnbordered(parts: seq<string>, sep: string)
    requires sep != [] && Unbordered(sep) && parts != []
    requires forall k :: 0 <= k < |parts| ==> !Contains(parts[k], sep)
    ensures Split(Join(parts, sep), sep) == parts
    decreases |parts|
  {
    if |parts| == 1 {
      SplitNoSeparator(parts[0], sep);
    } else {
      SplitJoinUnbordered(parts[1..], sep);
      var rest := Join(parts[1..], sep);
      assert Join(parts, sep) == parts[0] + sep + rest;
      SplitConsUnbordered(parts[0], sep, rest);
      assert parts == [parts[0]] + parts[1..];
    }
  }

  /** Concatenation is associative; stated once so that callers need not reason element by element. */
  lemma AppendAssoc<T>(p: seq<T>, q: seq<T>, r: seq<T>)
    ensures p + (q + r) == (p + q) + r
  {
  }

  /** `SkipLeading` stops at the first non-whitespace index. */
  lemma {:induction false} SkipLeadingAt(s: string, i: nat, j: nat)
    requires i <= j <= |s|
    requires forall k :: i <= k < j ==> IsWhitespace(s[k])
    requires j < |s| ==> !IsWhitespace(s[j])
    ensures SkipLeading(s, i) == j
    decreases j - i
  {
    if i < j {
      SkipLeadingAt(s, i + 1, j);
    }
  }

  /** `SkipTrailing` stops just after the last non-whitespace index. */
  lemma {:induction false} SkipTrailingAt(s: string, lo: nat, j: nat, e: nat)
    requires lo <= e <= j <= |s|
    requires forall k :: e <= k < j ==> IsWhitespace(s[k])
    requires e > lo ==> !IsWhitespace(s[e - 1])
    ensures SkipTrailing(s, lo, j) == e
    decreases j - e
  {
    if e < j {
      SkipTrailingAt(s, lo, j - 1, e);
    }
  }

  /** Leading whitespace does not change the trimmed text. */
  lemma TrimBlankPrefix(w: string, s: string)
    requires Blank(w)
    ensures Trim(w + s) == Trim(s)
  {
    var a := SkipLeading(s, 0);
    var e := SkipTrailing(s, a, |s|);
    LeadingAfterBlank(w, s);
    TrailingAfterPrefix(w, s, a);
    SliceAfterPrefix(w, s, a, e);
    TrimOfShifted(w + s, s, |w|, a, e);
  }

  /** Two texts whose trim bounds and trimmed slices agree up to a shift by `n` have the same trim. */
  lemma TrimOfShifted(ws: string, s: string, n: nat, a: nat, e: nat)
    requires a <= e <= |s| && n + e <= |ws|
    requires SkipLeading(s, 0) == a && SkipTrailing(s, a, |s|) == e
    requires SkipLeading(ws, 0) == n + a && SkipTrailing(ws, n + a, |ws|) == n + e
    requires ws[n + a..n + e] == s[a..e]
    ensures Trim(ws) == Trim(s)
  {
    TrimBounds(ws, n + a, n + e);
    TrimBounds(s, a, e);
  }

  lemma LeadingAfterBlank(w: string, s: string)
    requires Blank(w)
    ensures SkipLeading(w + s, 0) == |w| + SkipLeading(s, 0)
  {
    var ws := w + s;
    var n := |w|;
    var a := SkipLeading(s, 0);
    forall k | 0 <= k < n + a ensures IsWhitespace(ws[k]) {
      if k < n {
        assert ws[k] == w[k];
      } else {
        assert ws[k] == s[k - n];
      }
    }
    if n + a < |ws| {
      assert ws[n + a] == s[a];
    }
    SkipLeadingAt(ws, 0, n + a);
  }

  lemma TrailingAfterPrefix(w: string, s: string, a: nat)
    requires a <= |s|
    ensures SkipTrailing(w + s, |w| + a, |w + s|) == |w| + SkipTrailing(s, a, |s|)
  {
    var ws := w + s;
    var n := |w|;
    var e := SkipTrailing(s, a, |s|);
    forall k | n + e <= k < |ws| ensures IsWhitespace(ws[k]) {
      assert ws[k] == s[k - n];
    }
    if e > a {
      assert ws[n + e - 1] == s[e - 1];
    }
    SkipTrailingAt(ws, n + a, |ws|, n + e);
  }

  lemma SliceAfterPrefix(w: string, s: string, a: nat, e: nat)
    requires a <= e <= |s|
    ensures (w + s)[|w| + a..|w| + e] == s[a..e]
  {
    assert (w + s)[|w|..] == s;
    assert (w + s)[|w| + a..|w| + e] == (w + s)[|w|..][a..e];
  }

  /** Trailing whitespace does not change the trimmed text. */
  lemma TrimBlankSuffix(s: string, w: string)
    requires Blank(w)
    ensures Trim(s + w) == Trim(s)
  {
    var sw := s + w;
    if Blank(s) {
      forall k | 0 <= k < |sw| ensures IsWhitespace(sw[k]) {
        if k < |s| {
          assert sw[k] == s[k];
        } else {
          assert sw[k] == w[k - |s|];
        }
      }
      assert Blank(sw);
    } else {
      var a := SkipLeading(s, 0);
      var e := SkipTrailing(s, a, |s|);
      forall k | 0 <= k < a ensures IsWhitespace(sw[k]) {
        assert sw[k] == s[k];
      }
      assert sw[a] == s[a];
      SkipLeadingAt(sw, 0, a);
      forall k | e <= k < |sw| ensures IsWhitespace(sw[k]) {
        if k < |s| {
          assert sw[k] == s[k];
        } else {
          assert sw[k] == w[k - |s|];
        }
      }
      if e > a {
        assert sw[e - 1] == s[e - 1];
      }
      SkipTrailingAt(sw, a, |sw|, e);
      assert sw[a..e] == s[a..e];
      TrimBounds(sw, a, e);
      TrimBounds(s, a, e);
    }
  }

  /**
   * Trimming a word that has no whitespace at either end followed by `x`
   * keeps the word in front, and what follows it trims to `Trim(x)`.
   */
  lemma TrimAfterWord(p: string, x: string)
    requires p != [] && !IsWhitespace(p[0]) && !IsWhitespace(p[|p| - 1])
    ensures StartsWith(Trim(p + x), p)
    ensures Trim(DropPrefix(Trim(p + x), p)) == Trim(x)
  {
    var s := p + x;
    assert s[0] == p[0];
    SkipLeadingAt(s, 0, 0);
    var e := SkipTrailing(s, 0, |s|);
    assert s[|p| - 1] == p[|p| - 1];
    assert e >= |p|;
    TrimBounds(s, 0, e);
    var y, w := x[..e - |p|], x[e - |p|..];
    assert s[0..e] == p + y;
    forall k | 0 <= k < |w| ensures IsWhitespace(w[k]) {
      assert w[k] == s[e + k];
    }
    assert x == y + w;
    TrimBlankSuffix(y, w);
    assert DropPrefix(Trim(s), p) == y;
  }

  /** The trim is the slice between the skipped ends. */
  lemma TrimBounds(s: string, a: nat, e: nat)
    requires a == SkipLeading(s, 0) && e == SkipTrailing(s, a, |s|)
    ensures Trim(s) == s[a..e]
  {
  }

  /** A text with no whitespace at either end is its own trim. */
  lemma TrimNonBlankEnds(s: string)
    requires s != [] && !IsWhitespace(s[0]) && !IsWhitespace(s[|s| - 1])
    ensures Trim(s) == s
  {
    assert SkipLeading(s, 0) == 0;
    assert SkipTrailing(s, 0, |s|) == |s|;
  }

  /** The trimmed text has no whitespace at either end, so trimming again changes nothing. */
  lemma TrimIdempotent(s: string)
    ensures Trim(Trim(s)) == Trim(s)
  {
    if Trim(s) != [] {
      TrimNonBlankEnds(Trim(s));
    }
  }

  /** `s.replace(p, '')` when `s` starts with `p`: the first occurrence is the prefix. */
  function DropPrefix(s: string, p: string): (r: string)
    requires StartsWith(s, p)
    ensures s == p + r
  {
    s[|p|..]
  }
}
