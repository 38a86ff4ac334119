/** String operations with StringComparison.OrdinalIgnoreCase, as the profile
    code uses them: EndsWith and Replace (with an empty replacement). Ordinal
    case-insensitive comparison compares characters after mapping both to one
    case; the model maps the ASCII letters 'A'..'Z' onto 'a'..'z' and leaves
    every other character as it is, which agrees with that comparison on
    ASCII. */
module Text {

  /** The one-case (lower-case) form of one character. */
  function Fold(c: char): char
  {
    if 'A' <= c <= 'Z' then (c as int - 'A' as int + 'a' as int) as char else c
  }

  /** `a` and `b` are equal under OrdinalIgnoreCase. */
  predicate EqualsIgnoreCase(a: string, b: string)
  {
    |a| == |b| && forall i :: 0 <= i < |a| ==> Fold(a[i]) == Fold(b[i])
  }

  /** s.EndsWith(suffix, StringComparison.OrdinalIgnoreCase) */
  predicate EndsWithIgnoreCase(s: string, suffix: string)
  {
    |suffix| <= |s| && EqualsIgnoreCase(s[|s| - |suffix|..], suffix)
  }

  /** `p` occurs, ignoring case, in `s` at position `i`. */
  predicate OccursAt(s: string, p: string, i: nat)
  {
    i + |p| <= |s| && EqualsIgnoreCase(s[i..i + |p|], p)
  }

  /** `p` occurs nowhere in `s`, ignoring case (for a non-empty `p`). */
  predicate FreeOf(s: string, p: string)
  {
    forall i :: 0 <= i < |s| ==> !OccursAt(s, p, i)
  }

  /** s.Replace(p, "", StringComparison.OrdinalIgnoreCase): the string is
      scanned from the left; every occurrence found is dropped and the scan
      resumes just after it, so occurrences do not overlap and the text that
      results from a removal is not scanned again. An empty `p` is refused by
      the library (it throws), hence the precondition. */
  function RemoveAllIgnoreCase(s: string, p: string): (r: string)
    requires p != []
    ensures |r| <= |s|
    ensures |r| == |s| ==> r == s
    decreases |s|
  {
    if |s| < |p| then s
    else if OccursAt(s, p, 0) then RemoveAllIgnoreCase(s[|p|..], p)
    else [s[0]] + RemoveAllIgnoreCase(s[1..], p)
  }

  /** An occurrence in the tail of `s` is an occurrence in `s`, one place later. */
  lemma OccursInTail(s: string, p: string, i: nat)
    requires |s| > 0
    ensures OccursAt(s[1..], p, i) <==> OccursAt(s, p, i + 1)
  {
    if i + 1 + |p| <= |s| {
      assert s[1..][i..i + |p|] == s[i + 1..i + 1 + |p|];
    }
  }

  /** Replace leaves a string unchanged exactly when the pattern occurs nowhere
      in it. */
  lemma {:induction false} RemoveAllUnchangedIff(s: string, p: string)
    requires p != []
    ensures RemoveAllIgnoreCase(s, p) == s <==> FreeOf(s, p)
    decreases |s|
  {
    if |s| < |p| {
      assert FreeOf(s, p);
    } else if OccursAt(s, p, 0) {
      assert |RemoveAllIgnoreCase(s, p)| <= |s| - |p|;
    } else {
      RemoveAllUnchangedIff(s[1..], p);
      var r := RemoveAllIgnoreCase(s, p);
      assert r == [s[0]] + RemoveAllIgnoreCase(s[1..], p);
      if FreeOf(s, p) {
        forall i | 0 <= i < |s| - 1 ensures !OccursAt(s[1..], p, i) {
          OccursInTail(s, p, i);
        }
        assert s == [s[0]] + s[1..];
      } else {
        var i :| 0 <= i < |s| && OccursAt(s, p, i);
        assert i > 0;
        OccursInTail(s, p, i - 1);
        assert !FreeOf(s[1..], p);
        assert r[1..] == RemoveAllIgnoreCase(s[1..], p);
      }
    }
  }

  /** `p` cannot overlap itself: no proper suffix of `p` equals, ignoring
      case, the prefix of the same length. */
  predicate Unbordered(p: string)
  {
    forall d :: 0 < d < |p| ==> !EqualsIgnoreCase(p[d..], p[..|p| - d])
  }

  /** Two overlapping occurrences of `p` make the overlap a border of `p`. */
  lemma OverlapIsBorder(s: string, p: string, i: nat, k: nat)
    requires OccursAt(s, p, i) && OccursAt(s, p, k) && i < k
    ensures k < i + |p| ==> EqualsIgnoreCase(p[k - i..], p[..|p| - (k - i)])
  {
    if k < i + |p| {
      var d := k - i;
      forall j | 0 <= j < |p| - d ensures Fold(p[d..][j]) == Fold(p[..|p| - d][j]) {
        assert s[i..i + |p|][d + j] == s[k..k + |p|][j];
      }
    }
  }

  /** Two occurrences of an unbordered pattern never overlap. */
  lemma OccurrencesDisjoint(s: string, p: string, i: nat, k: nat)
    requires Unbordered(p)
    requires OccursAt(s, p, i) && OccursAt(s, p, k) && i < k
    ensures i + |p| <= k
  {
    OverlapIsBorder(s, p, i, k);
  }

  /** Replace removes a trailing occurrence of an unbordered pattern without
      changing how the rest of the string is treated. */
  lemma {:induction false} RemoveAllDropsTrailing(x: string, y: string, p: string)
    requires p != [] && Unbordered(p)
    requires EqualsIgnoreCase(y, p)
    ensures RemoveAllIgnoreCase(x + y, p) == RemoveAllIgnoreCase(x, p)
    decreases |x|, 1
  {
    if x == [] {
      assert x + y == y + [];
      RemoveAllDropsFirst(y, [], p);
    } else if OccursAt(x + y, p, 0) {
      DropsTrailingAfterMatch(x, y, p);
    } else {
      DropsTrailingAfterMiss(x, y, p);
    }
  }

  /** The case of RemoveAllDropsTrailing where an occurrence starts the string:
      it lies wholly inside `x`, since it cannot overlap the trailing one. */
  lemma {:induction false} DropsTrailingAfterMatch(x: string, y: string, p: string)
    requires p != [] && Unbordered(p)
    requires EqualsIgnoreCase(y, p)
    requires x != [] && OccursAt(x + y, p, 0)
    ensures RemoveAllIgnoreCase(x + y, p) == RemoveAllIgnoreCase(x, p)
    decreases |x|, 0
  {
    var s := x + y;
    var n := |p|;
    assert OccursAt(s, p, |x|) by {
      assert s[|x|..|x| + n] == y;
    }
    OccurrencesDisjoint(s, p, 0, |x|);
    assert s[..n] == x[..n];
    assert s[n..] == x[n..] + y;
    RemoveAllStep(s, p);
    RemoveAllStep(x, p);
    RemoveAllDropsTrailing(x[n..], y, p);
  }

  /** The case of RemoveAllDropsTrailing where no occurrence starts the
      string: the first character is kept on both sides. */
  lemma {:induction false} DropsTrailingAfterMiss(x: string, y: string, p: string)
    requires p != [] && Unbordered(p)
    requires EqualsIgnoreCase(y, p)
    requires x != [] && !OccursAt(x + y, p, 0)
    ensures RemoveAllIgnoreCase(x + y, p) == RemoveAllIgnoreCase(x, p)
    decreases |x|, 0
  {
    var s := x + y;
    var n := |p|;
    assert s[1..] == x[1..] + y;
    RemoveAllStep(s, p);
    RemoveAllDropsTrailing(x[1..], y, p);
    if |x| >= n {
      assert s[..n] == x[..n];
      RemoveAllStep(x, p);
    } else {
      assert RemoveAllIgnoreCase(x, p) == x;
      assert RemoveAllIgnoreCase(x[1..], p) == x[1..];
      assert x == [x[0]] + x[1..];
    }
  }

  /** One step of the scan on a string at least as long as the pattern. */
  lemma RemoveAllStep(s: string, p: string)
    requires p != [] && |p| <= |s|
    ensures RemoveAllIgnoreCase(s, p) ==
            if OccursAt(s, p, 0) then RemoveAllIgnoreCase(s[|p|..], p)
            else [s[0]] + RemoveAllIgnoreCase(s[1..], p)
  {
  }

  /** Replace removes at least a trailing occurrence of an unbordered pattern. */
  lemma RemoveAllShortensAtEnd(s: string, p: string)
    requires p != [] && Unbordered(p)
    ensures EndsWithIgnoreCase(s, p) ==> |RemoveAllIgnoreCase(s, p)| <= |s| - |p|
  {
    if EndsWithIgnoreCase(s, p) {
      var x := s[..|s| - |p|];
      assert s == x + s[|s| - |p|..];
      RemoveAllDropsTrailing(x, s[|s| - |p|..], p);
    }
  }

  /** A string free of an unbordered pattern, followed by the pattern, comes
      back as itself. */
  lemma RemoveAllRoundTrip(x: string, p: string)
    requires p != [] && Unbordered(p)
    requires FreeOf(x, p)
    ensures EndsWithIgnoreCase(x + p, p)
    ensures RemoveAllIgnoreCase(x + p, p) == x
  {
    assert (x + p)[|x|..] == p;
    RemoveAllDropsTrailing(x, p, p);
    RemoveAllUnchangedIff(x, p);
  }

  /** Replace keeps a first character at which no occurrence starts. */
  lemma RemoveAllKeepsFirst(c: char, t: string, p: string)
    requires p != [] && !OccursAt([c] + t, p, 0)
    ensures RemoveAllIgnoreCase([c] + t, p) == [c] + RemoveAllIgnoreCase(t, p)
  {
    var s := [c] + t;
    assert s[0] == c && s[1..] == t;
    if |s| < |p| {
      assert RemoveAllIgnoreCase(t, p) == t;
    }
  }

  /** Replace drops a leading occurrence and goes on after it. */
  lemma RemoveAllDropsFirst(y: string, t: string, p: string)
    requires p != [] && EqualsIgnoreCase(y, p)
    ensures RemoveAllIgnoreCase(y + t, p) == RemoveAllIgnoreCase(t, p)
  {
    var s := y + t;
    assert s[..|p|] == y && s[|p|..] == t;
  }
}
