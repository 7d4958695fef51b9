/**
 * `String.replace(CharSequence target, CharSequence replacement)`: the text is scanned
 * left to right; at each position where the target starts, the replacement is emitted
 * and scanning resumes after the target, so occurrences never overlap and replacement
 * text is never scanned again.
 */
module StringReplace {

  /** `pat` occurs in `s` starting at index `i`. */
  predicate OccursAt(s: string, pat: string, i: int)
  {
    0 <= i && i + |pat| <= |s| && s[i..i + |pat|] == pat
  }

  predicate Contains(s: string, pat: string)
  {
    exists i :: 0 <= i <= |s| && OccursAt(s, pat, i)
  }

  lemma SliceOfSuffix(s: string, k: nat, a: nat, b: nat)
    requires k + b <= |s| && a <= b
    ensures s[k..][a..b] == s[k + a..k + b]
  {
  }

  /** The replacing scan. */
  function Replace(s: string, pat: string, rep: string): (r: string)
    requires pat != []
    ensures Count(s, pat) == 0 ==> r == s
    decreases |s|
  {
    if |s| < |pat| then s
    else if s[..|pat|] == pat then rep + Replace(s[|pat|..], pat, rep)
    else [s[0]] + Replace(s[1..], pat, rep)
  }

  /** The number of occurrences the same scan replaces. */
  function Count(s: string, pat: string): nat
    requires pat != []
    decreases |s|
  {
    if |s| < |pat| then 0
    else if s[..|pat|] == pat then 1 + Count(s[|pat|..], pat)
    else Count(s[1..], pat)
  }

  lemma MulSucc(c: int, d: int)
    ensures (1 + c) * d == d + c * d
  {
  }

  /** Every occurrence changes the length by the difference of the two texts. */
  lemma {:induction false} ReplaceLength(s: string, pat: string, rep: string)
    requires pat != []
    ensures |Replace(s, pat, rep)| == |s| + Count(s, pat) * (|rep| - |pat|)
    decreases |s|
  {
    if |s| < |pat| {
    } else if s[..|pat|] == pat {
      ReplaceLength(s[|pat|..], pat, rep);
      MulSucc(Count(s[|pat|..], pat), |rep| - |pat|);
    } else {
      ReplaceLength(s[1..], pat, rep);
    }
  }

  /** The scan replaces something exactly when the target occurs somewhere. */
  lemma {:induction false} CountPositiveIffContains(s: string, pat: string)
    requires pat != []
    ensures Count(s, pat) > 0 <==> Contains(s, pat)
    decreases |s|
  {
    if |s| < |pat| {
      assert forall i :: !OccursAt(s, pat, i);
    } else if s[..|pat|] == pat {
      assert OccursAt(s, pat, 0);
    } else {
      CountPositiveIffContains(s[1..], pat);
      if Contains(s, pat) {
        var i :| 0 <= i <= |s| && OccursAt(s, pat, i);
        assert i != 0;
        SliceOfSuffix(s, 1, i - 1, i - 1 + |pat|);
        assert OccursAt(s[1..], pat, i - 1);
      }
      if Contains(s[1..], pat) {
        var i :| 0 <= i <= |s| - 1 && OccursAt(s[1..], pat, i);
        SliceOfSuffix(s, 1, i, i + |pat|);
        assert OccursAt(s, pat, i + 1);
      }
    }
  }

  /** Text in which the target does not occur comes back unchanged. */
  lemma ReplaceWithoutOccurrence(s: string, pat: string, rep: string)
    requires pat != []
    requires !Contains(s, pat)
    ensures Replace(s, pat, rep) == s
  {
    CountPositiveIffContains(s, pat);
  }

  /**
   * Replacing the target with itself is the identity: had the inserted text been
   * scanned again, the scan would not terminate on any text holding the target.
   */
  lemma {:induction false} ReplaceWithItself(s: string, pat: string)
    requires pat != []
    ensures Replace(s, pat, pat) == s
    decreases |s|
  {
    if |s| < |pat| {
    } else if s[..|pat|] == pat {
      ReplaceWithItself(s[|pat|..], pat);
      assert s[..|pat|] + s[|pat|..] == s;
    } else {
      ReplaceWithItself(s[1..], pat);
      assert [s[0]] + s[1..] == s;
    }
  }

  /** Dropping the first `k` characters of `x` keeps the seam free of occurrences. */
  lemma NoStraddleAfterDrop(x: string, y: string, pat: string, k: nat)
    requires k <= |x|
    requires forall i :: 0 <= i < |x| < i + |pat| ==> !OccursAt(x + y, pat, i)
    ensures forall i :: 0 <= i < |x| - k < i + |pat| ==> !OccursAt(x[k..] + y, pat, i)
  {
    var s := x + y;
    assert s[k..] == x[k..] + y;
    forall i | 0 <= i < |x| - k < i + |pat|
      ensures !OccursAt(x[k..] + y, pat, i)
    {
      if i + |pat| <= |s| - k {
        SliceOfSuffix(s, k, i, i + |pat|);
        assert !OccursAt(s, pat, i + k);
      }
    }
  }

  /** A match at the start of `x + y` lies inside `x`. */
  lemma MatchAtStartInX(x: string, y: string, pat: string)
    requires pat != [] && |x| > 0 && |pat| <= |x + y| && (x + y)[..|pat|] == pat
    requires forall i :: 0 <= i < |x| < i + |pat| ==> !OccursAt(x + y, pat, i)
    ensures |pat| <= |x| && x[..|pat|] == pat
  {
    assert OccursAt(x + y, pat, 0);
  }

  /**
   * When no occurrence of the target straddles the seam between `x` and `y`,
   * the two halves are replaced independently.
   */
  lemma {:induction false} ReplaceSplit(x: string, y: string, pat: string, rep: string)
    requires pat != []
    requires forall i :: 0 <= i < |x| < i + |pat| ==> !OccursAt(x + y, pat, i)
    ensures Replace(x + y, pat, rep) == Replace(x, pat, rep) + Replace(y, pat, rep)
    decreases |x|
  {
    var s := x + y;
    if |x| == 0 {
      assert s == y;
    } else if |s| < |pat| {
      assert !OccursAt(s, pat, 0);
    } else if s[..|pat|] == pat {
      MatchAtStartInX(x, y, pat);
      NoStraddleAfterDrop(x, y, pat, |pat|);
      ReplaceSplit(x[|pat|..], y, pat, rep);
      SplitAfterMatch(x, y, pat, rep);
    } else {
      NoStraddleAfterDrop(x, y, pat, 1);
      ReplaceSplit(x[1..], y, pat, rep);
      SplitAfterMiss(x, y, pat, rep);
    }
  }

  /** The step of `ReplaceSplit` where the target starts `x`. */
  lemma SplitAfterMatch(x: string, y: string, pat: string, rep: string)
    requires pat != [] && |pat| <= |x| && x[..|pat|] == pat
    requires Replace(x[|pat|..] + y, pat, rep) == Replace(x[|pat|..], pat, rep) + Replace(y, pat, rep)
    ensures Replace(x + y, pat, rep) == Replace(x, pat, rep) + Replace(y, pat, rep)
  {
    ConcatSlices(x, y, |pat|);
  }

  /** Slicing a concatenation within its first part. */
  lemma ConcatSlices(x: string, y: string, k: nat)
    requires k <= |x|
    ensures (x + y)[k..] == x[k..] + y
    ensures (x + y)[..k] == x[..k]
  {
  }

  /** The scan steps over the first character of a text that the target does not start. */
  lemma ReplaceMiss(s: string, pat: string, rep: string)
    requires pat != [] && s != [] && !(|pat| <= |s| && s[..|pat|] == pat)
    ensures Replace(s, pat, rep) == [s[0]] + Replace(s[1..], pat, rep)
  {
    if |s| < |pat| {
      assert s == [s[0]] + s[1..];
    }
  }

  /** The step of `ReplaceSplit` where the target does not start `x + y`. */
  lemma SplitAfterMiss(x: string, y: string, pat: string, rep: string)
    requires pat != [] && |x| > 0 && |pat| <= |x + y| && (x + y)[..|pat|] != pat
    requires Replace(x[1..] + y, pat, rep) == Replace(x[1..], pat, rep) + Replace(y, pat, rep)
    ensures Replace(x + y, pat, rep) == Replace(x, pat, rep) + Replace(y, pat, rep)
  {
    var rx', ry := Replace(x[1..], pat, rep), Replace(y, pat, rep);
    if |pat| <= |x| {
      ConcatSlices(x, y, |pat|);
    }
    calc {
      Replace(x + y, pat, rep);
    == { ReplaceMiss(x + y, pat, rep); ConcatSlices(x, y, 1); }
      [x[0]] + Replace(x[1..] + y, pat, rep);
    ==
      [x[0]] + (rx' + ry);
    ==
      ([x[0]] + rx') + ry;
    == { ReplaceMiss(x, pat, rep); }
      Replace(x, pat, rep) + ry;
    }
  }
}
