/**
 * The `{{...}}` placeholder scanner and the literal global replace used by
 * the template pages. The client code runs the global regular expressions
 * `/\{\{(\d+)\}\}/g` and `/\{\{(\w+)\}\}/g` through `String.prototype.match`;
 * both have the shape "two opening braces, a non-empty run of one character
 * class, two closing braces", so one scanner parameterised by the class
 * stands for both. `ReplaceAll` is `body.replace(new RegExp(literal, "g"), value)`
 * for a pattern that contains no regular-expression operators.
 */
module Placeholders {
  import opened Common
  import opened Strings

  predicate AllIn(s: string, cls: char -> bool) {
    forall i :: 0 <= i < |s| ==> cls(s[i])
  }

  /** The classes used with the scanner never contain the braces themselves. */
  predicate BraceFree(cls: char -> bool) {
    !cls('{') && !cls('}')
  }

  function Wrap(inner: string): string {
    "{{" + inner + "}}"
  }

  /** `{{inner}}` starts at index `i` of `s`, with `inner` a non-empty run of `cls`. */
  predicate PlaceholderAt(s: string, i: int, inner: string, cls: char -> bool) {
    |inner| > 0 && AllIn(inner, cls) && OccursAt(s, Wrap(inner), i)
  }

  /** Length of the longest run of `cls` characters starting at index `k`. */
  function RunLength(s: string, k: nat, cls: char -> bool): (n: nat)
    requires k <= |s|
    ensures k + n <= |s|
    ensures forall j :: k <= j < k + n ==> cls(s[j])
    ensures k + n < |s| ==> !cls(s[k + n])
    decreases |s| - k
  {
    if k < |s| && cls(s[k]) then 1 + RunLength(s, k + 1, cls) else 0
  }

  /** What the regular expression matches when tried at index `i` (its captured group). */
  function MatchAt(s: string, i: nat, cls: char -> bool): Option<string>
    requires i <= |s|
  {
    if i + 2 <= |s| && s[i] == '{' && s[i + 1] == '{' then
      var n := RunLength(s, i + 2, cls);
      if n > 0 && i + n + 4 <= |s| && s[i + 2 + n] == '}' && s[i + 3 + n] == '}'
      then Some(s[i + 2..i + 2 + n])
      else None
    else None
  }

  /** A global `match`: try at each index, and after a match resume right behind it. */
  function Scan(s: string, i: nat, cls: char -> bool): seq<string>
    requires i <= |s|
    decreases |s| - i
  {
    if i == |s| then []
    else match MatchAt(s, i, cls)
      case Some(inner) => [inner] + Scan(s, i + |inner| + 4, cls)
      case None => Scan(s, i + 1, cls)
  }

  /** Spelling out `{{inner}}` at index `i` character by character. */
  lemma PlaceholderChars(s: string, i: int, inner: string, cls: char -> bool)
    requires PlaceholderAt(s, i, inner, cls)
    ensures s[i] == '{' && s[i + 1] == '{' && s[i + 2 + |inner|] == '}' && s[i + 3 + |inner|] == '}'
    ensures s[i + 2..i + 2 + |inner|] == inner
    ensures forall j :: i + 2 <= j < i + 2 + |inner| ==> cls(s[j])
  {
    var w := Wrap(inner);
    assert s[i..i + |w|] == w;
    assert forall j :: 0 <= j < |w| ==> s[i + j] == w[j];
    assert s[i + 2..i + 2 + |inner|] == w[2..2 + |inner|];
  }

  /** The scanner's match at `i` is exactly the placeholder found at `i`. */
  lemma MatchAtIsPlaceholder(s: string, i: nat, inner: string, cls: char -> bool)
    requires i <= |s| && BraceFree(cls)
    ensures MatchAt(s, i, cls) == Some(inner) <==> PlaceholderAt(s, i, inner, cls)
  {
    if PlaceholderAt(s, i, inner, cls) {
      PlaceholderChars(s, i, inner, cls);
      var n := RunLength(s, i + 2, cls);
      // The run stops at the first closing brace, so it is exactly `inner`.
      assert n == |inner|;
    }
    if MatchAt(s, i, cls) == Some(inner) {
      var w := Wrap(inner);
      assert s[i..i + |w|] == w;
    }
  }

  /** No placeholder starts strictly inside the text of another one. */
  lemma NoPlaceholderInside(s: string, i: int, inner: string, j: int, other: string, cls: char -> bool)
    requires BraceFree(cls)
    requires PlaceholderAt(s, i, inner, cls)
    requires i < j < i + |inner| + 4
    ensures !PlaceholderAt(s, j, other, cls)
  {
    PlaceholderChars(s, i, inner, cls);
    assert s[j] != '{' || s[j + 1] != '{';
  }

  /**
   * The scan from index `p` reports exactly the placeholders that start at
   * or after `p`: nothing is invented and nothing is skipped.
   */
  lemma {:induction false} ScanFindsExactly(s: string, p: nat, cls: char -> bool, inner: string)
    requires p <= |s| && BraceFree(cls)
    ensures inner in Scan(s, p, cls) <==> exists i :: p <= i && PlaceholderAt(s, i, inner, cls)
    decreases |s| - p
  {
    if p == |s| {
      assert forall i :: p <= i ==> !PlaceholderAt(s, i, inner, cls);
    } else {
      match MatchAt(s, p, cls)
      case Some(m) =>
        ScanFindsExactly(s, p + |m| + 4, cls, inner);
        ScanStepOverMatch(s, p, cls, m, inner);
      case None =>
        ScanFindsExactly(s, p + 1, cls, inner);
        ScanStepWithoutMatch(s, p, cls, inner);
    }
  }

  /** The scan step at a match: the match is reported and the scan resumes behind it. */
  lemma ScanStepOverMatch(s: string, p: nat, cls: char -> bool, m: string, inner: string)
    requires p < |s| && BraceFree(cls) && MatchAt(s, p, cls) == Some(m)
    requires p + |m| + 4 <= |s|
    requires inner in Scan(s, p + |m| + 4, cls)
             <==> exists i :: p + |m| + 4 <= i && PlaceholderAt(s, i, inner, cls)
    ensures inner in Scan(s, p, cls) <==> exists i :: p <= i && PlaceholderAt(s, i, inner, cls)
  {
    MatchAtIsPlaceholder(s, p, m, cls);
    MatchAtIsPlaceholder(s, p, inner, cls);
    var next := p + |m| + 4;
    assert Scan(s, p, cls) == [m] + Scan(s, next, cls);
    forall i | p < i < next
      ensures !PlaceholderAt(s, i, inner, cls)
    {
      NoPlaceholderInside(s, p, m, i, inner, cls);
    }
  }

  /** The scan step where nothing matches: the scan moves on by one character. */
  lemma ScanStepWithoutMatch(s: string, p: nat, cls: char -> bool, inner: string)
    requires p < |s| && BraceFree(cls) && MatchAt(s, p, cls).None?
    requires inner in Scan(s, p + 1, cls) <==> exists i :: p + 1 <= i && PlaceholderAt(s, i, inner, cls)
    ensures inner in Scan(s, p, cls) <==> exists i :: p <= i && PlaceholderAt(s, i, inner, cls)
  {
    MatchAtIsPlaceholder(s, p, inner, cls);
    assert Scan(s, p, cls) == Scan(s, p + 1, cls);
    if exists i :: p <= i && PlaceholderAt(s, i, inner, cls) {
      var i :| p <= i && PlaceholderAt(s, i, inner, cls);
      assert i != p;
    }
  }

  /** Everything the scan reports is a non-empty run of the class. */
  lemma ScanReportsRuns(s: string, p: nat, cls: char -> bool, inner: string)
    requires p <= |s| && BraceFree(cls)
    requires inner in Scan(s, p, cls)
    ensures |inner| > 0 && AllIn(inner, cls)
  {
    ScanFindsExactly(s, p, cls, inner);
  }

  /** A text without `{{` has no placeholders at all. */
  lemma {:induction false} ScanWithoutOpeningBraces(s: string, p: nat, cls: char -> bool)
    requires p <= |s|
    requires !Includes(s, "{{")
    ensures Scan(s, p, cls) == []
    decreases |s| - p
  {
    if p < |s| {
      assert !OccursAt(s, "{{", p);
      ScanWithoutOpeningBraces(s, p + 1, cls);
    }
  }

  // ---------------------------------------------------------------------
  // Literal global replace

  /**
   * `s.replace(/pat/g, rep)` for a literal, non-empty pattern: left to right,
   * each match is replaced and scanning resumes behind it.
   */
  function ReplaceAll(s: string, pat: string, rep: string): string
    requires |pat| > 0
    decreases |s|
  {
    if |s| < |pat| then s
    else if s[..|pat|] == pat then rep + ReplaceAll(s[|pat|..], pat, rep)
    else [s[0]] + ReplaceAll(s[1..], pat, rep)
  }

  /** Replacing a pattern by itself leaves the text as it was. */
  lemma {:induction false} ReplaceBySelf(s: string, pat: string)
    requires |pat| > 0
    ensures ReplaceAll(s, pat, pat) == s
    decreases |s|
  {
    if |s| >= |pat| {
      if s[..|pat|] == pat {
        ReplaceBySelf(s[|pat|..], pat);
        assert s == s[..|pat|] + s[|pat|..];
      } else {
        ReplaceBySelf(s[1..], pat);
        assert s == [s[0]] + s[1..];
      }
    }
  }

  /** A pattern that does not occur leaves the text as it was. */
  lemma {:induction false} ReplaceAbsent(s: string, pat: string, rep: string)
    requires |pat| > 0 && !Includes(s, pat)
    ensures ReplaceAll(s, pat, rep) == s
    decreases |s|
  {
    if |s| >= |pat| {
      // `Includes` unfolds to the same question on the tail.
      assert !IsPrefix(pat, s) && !Includes(s[1..], pat);
      ReplaceAbsent(s[1..], pat, rep);
      assert s == [s[0]] + s[1..];
    }
  }

  /** No proper suffix of `p` is also a prefix of it: two occurrences of `p` never overlap. */
  predicate NoSelfOverlap(p: string) {
    forall k :: 0 < k < |p| ==> p[k..] != p[..|p| - k]
  }

  /** A placeholder `{{w}}` cannot overlap itself. */
  lemma WrapNoSelfOverlap(inner: string, cls: char -> bool)
    requires |inner| > 0 && AllIn(inner, cls) && BraceFree(cls)
    ensures NoSelfOverlap(Wrap(inner))
  {
    var p := Wrap(inner);
    assert p[0] == '{' && p[1] == '{' && p[|p| - 2] == '}' && p[|p| - 1] == '}';
    assert forall j :: 2 <= j < |p| - 2 ==> p[j] == inner[j - 2];
    forall k | 0 < k < |p|
      ensures p[k..] != p[..|p| - k]
    {
      if k == 1 {
        // The suffix continues with the first character of `inner`, the prefix with a brace.
        assert p[k..][1] == inner[0] && p[..|p| - k][1] == '{';
      } else {
        // The suffix ends with a closing brace, the prefix inside `{{inner`.
        var j := |p| - k - 1;
        assert p[k..][j] == '}' && p[..|p| - k][j] == p[j];
      }
    }
  }

  /**
   * Replacing a pattern that cannot overlap itself: the text before its first
   * occurrence is kept, that occurrence becomes `rep`, and the replacement
   * goes on behind it.
   */
  lemma {:induction false} ReplaceFirstOccurrence(a: string, pat: string, b: string, rep: string)
    requires |pat| > 0 && NoSelfOverlap(pat) && !Includes(a, pat)
    ensures ReplaceAll(a + pat + b, pat, rep) == a + rep + ReplaceAll(b, pat, rep)
    decreases |a|
  {
    if a == [] {
      ReplaceAtStart(pat, b, rep);
      assert a + pat + b == pat + b;
    } else {
      PatternNotAtStart(a, pat, b);
      ReplaceSkipsFirst(a + pat + b, pat, rep);
      NotIncludedInTail(a, pat);
      ReplaceFirstOccurrence(a[1..], pat, b, rep);
      ConsSplit(a, pat, b, rep, ReplaceAll(b, pat, rep));
    }
  }

  /** Taking the first character off `a + x + y`, and putting it back in front. */
  lemma ConsSplit(a: string, x: string, y: string, u: string, v: string)
    requires a != []
    ensures (a + x + y)[0] == a[0] && (a + x + y)[1..] == a[1..] + x + y
    ensures [a[0]] + (a[1..] + u + v) == a + u + v
  {
    assert a == [a[0]] + a[1..];
  }

  /** A text that starts with the pattern: that occurrence becomes `rep`. */
  lemma ReplaceAtStart(pat: string, b: string, rep: string)
    requires |pat| > 0
    ensures ReplaceAll(pat + b, pat, rep) == rep + ReplaceAll(b, pat, rep)
  {
    assert (pat + b)[..|pat|] == pat && (pat + b)[|pat|..] == b;
  }

  /** A text that does not start with the pattern keeps its first character. */
  lemma ReplaceSkipsFirst(s: string, pat: string, rep: string)
    requires |pat| > 0 && |s| >= |pat| && s[..|pat|] != pat
    ensures ReplaceAll(s, pat, rep) == [s[0]] + ReplaceAll(s[1..], pat, rep)
  {
  }

  /** A string that does not contain `pat` does not contain it after its first character either. */
  lemma NotIncludedInTail(a: string, pat: string)
    requires a != [] && !Includes(a, pat)
    ensures !Includes(a[1..], pat)
  {
    forall i | 0 <= i
      ensures !OccursAt(a[1..], pat, i)
    {
      OccursAtShift(a, pat, i + 1);
    }
  }

  /** Ahead of the first occurrence of a non-overlapping pattern, the text does not start with it. */
  lemma PatternNotAtStart(a: string, pat: string, b: string)
    requires |pat| > 0 && NoSelfOverlap(pat) && !Includes(a, pat) && a != []
    ensures (a + pat + b)[..|pat|] != pat
  {
    var s := a + pat + b;
    if |a| >= |pat| {
      assert !OccursAt(a, pat, 0);
      assert s[..|pat|] == a[..|pat|];
    } else {
      var k := |a|;
      assert s[k..|pat|] == pat[..|pat| - k];
      assert s[..|pat|][k..] == s[k..|pat|];
    }
  }

  /** Within a text without `{{`, no two adjacent characters are both opening braces. */
  lemma NoOpeningBracesAt(x: string, i: int)
    requires !Includes(x, "{{")
    ensures 0 <= i && i + 1 < |x| ==> !(x[i] == '{' && x[i + 1] == '{')
  {
    if 0 <= i && i + 1 < |x| {
      assert !OccursAt(x, "{{", i);
      assert x[i..i + 2] == [x[i], x[i + 1]];
    }
  }

  /** A text without `{{` contains no placeholder. */
  lemma WrapNotIncluded(x: string, inner: string)
    requires !Includes(x, "{{")
    ensures !Includes(x, Wrap(inner))
  {
    forall i | 0 <= i && i + |Wrap(inner)| <= |x|
      ensures !OccursAt(x, Wrap(inner), i)
    {
      assert !OccursAt(x, "{{", i);
      assert x[i..i + 2] == x[i..i + |Wrap(inner)|][..2];
    }
  }

  /**
   * In `a + {{inner}} + b` with no `{{` in `a` or `b`, the only placeholder
   * is `{{inner}}` itself, right behind `a`.
   */
  lemma OnlyPlaceholder(a: string, inner: string, b: string, cls: char -> bool, i: int, w: string)
    requires BraceFree(cls) && |inner| > 0 && AllIn(inner, cls)
    requires !Includes(a, "{{") && !Includes(b, "{{")
    requires PlaceholderAt(a + Wrap(inner) + b, i, w, cls)
    ensures i == |a| && w == inner
  {
    var s := a + Wrap(inner) + b;
    PlaceholderChars(s, i, w, cls);
    OpeningPairOnlyAt(a, inner, b, cls, i);
    assert PlaceholderAt(s, |a|, inner, cls) by {
      assert s[|a|..|a| + |Wrap(inner)|] == Wrap(inner);
    }
    MatchAtIsPlaceholder(s, |a|, w, cls);
    MatchAtIsPlaceholder(s, |a|, inner, cls);
  }

  /** In `a + {{inner}} + b`, `{{` followed by a `cls` character occurs only right behind `a`. */
  lemma OpeningPairOnlyAt(a: string, inner: string, b: string, cls: char -> bool, i: int)
    requires BraceFree(cls) && |inner| > 0 && AllIn(inner, cls)
    requires !Includes(a, "{{") && !Includes(b, "{{")
    requires 0 <= i && i + 2 < |a + Wrap(inner) + b|
    requires (a + Wrap(inner) + b)[i] == '{' && (a + Wrap(inner) + b)[i + 1] == '{'
    requires cls((a + Wrap(inner) + b)[i + 2])
    ensures i == |a|
  {
    var p := Wrap(inner);
    NoOpeningBracesAt(a, i);
    NoOpeningBracesAt(b, i - |a| - |p|);
    CharOfPlaceholderText(a, inner, b, i);
    CharOfPlaceholderText(a, inner, b, i + 1);
    CharOfPlaceholderText(a, inner, b, i + 2);
  }

  /** The character at index `j` of `a + {{inner}} + b`, by the part it falls in. */
  lemma CharOfPlaceholderText(a: string, inner: string, b: string, j: int)
    requires 0 <= j < |a + Wrap(inner) + b|
    ensures var m := |a| + |inner| + 4;
            (a + Wrap(inner) + b)[j]
            == if j < |a| then a[j]
               else if j < |a| + 2 then '{'
               else if j < m - 2 then inner[j - |a| - 2]
               else if j < m then '}'
               else b[j - m]
  {
  }

  /** The scan of `a + {{inner}} + b`, with no `{{` in `a` or `b`, finds `inner` and nothing else. */
  lemma ScanOfOnePlaceholder(a: string, inner: string, b: string, cls: char -> bool)
    requires BraceFree(cls) && |inner| > 0 && AllIn(inner, cls)
    requires !Includes(a, "{{") && !Includes(b, "{{")
    ensures inner in Scan(a + Wrap(inner) + b, 0, cls)
    ensures forall w :: w in Scan(a + Wrap(inner) + b, 0, cls) ==> w == inner
  {
    var s := a + Wrap(inner) + b;
    assert s[|a|..|a| + |Wrap(inner)|] == Wrap(inner);
    assert PlaceholderAt(s, |a|, inner, cls);
    ScanFindsExactly(s, 0, cls, inner);
    forall w | w in Scan(s, 0, cls)
      ensures w == inner
    {
      ScanFindsExactly(s, 0, cls, w);
      var i :| 0 <= i && PlaceholderAt(s, i, w, cls);
      OnlyPlaceholder(a, inner, b, cls, i, w);
    }
  }
}
