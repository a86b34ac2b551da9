/**
 * Python's `text.split(". ")` and `". ".join(parts)` for the one separator the blog
 * generator uses. `str.split` with a separator scans from the left and, at each
 * occurrence, ends the current piece and resumes after the separator; since ". "
 * cannot overlap itself, this recursive scan is exactly what Python returns.
 */
module Sentences {

  /** The separator between sentence-like segments. */
  const Sep: string := ". "

  /** The separator starts at index `i` of `s`. */
  predicate SepAt(s: string, i: int)
    requires 0 <= i < |s| - 1
  {
    s[i] == Sep[0] && s[i + 1] == Sep[1]
  }

  /** No separator occurs in `s`: every piece of a split is like this. */
  predicate SepFree(s: string)
  {
    forall i :: 0 <= i < |s| - 1 ==> !SepAt(s, i)
  }

  /** A character that does not start a separator in `s`, put before a separator-free prefix of `s[1..]`. */
  lemma SepFreeCons(s: string, p: string)
    requires |s| >= 2 && !SepAt(s, 0)
    requires p <= s[1..] && SepFree(p)
    ensures SepFree([s[0]] + p)
  {
    var h := [s[0]] + p;
    forall i | 0 <= i < |h| - 1 ensures !SepAt(h, i) {
      if i > 0 {
        assert !SepAt(p, i - 1);
      }
    }
  }

  /** `s.split(". ")`: never empty, every piece separator-free, the first piece a prefix of `s`. */
  function Split(s: string): (parts: seq<string>)
    ensures |parts| >= 1
    ensures parts[0] <= s
    ensures forall k :: 0 <= k < |parts| ==> SepFree(parts[k])
    decreases |s|
  {
    if |s| < 2 then
      [s]
    else if SepAt(s, 0) then
      [""] + Split(s[2..])
    else
      var rest := Split(s[1..]);
      SepFreeCons(s, rest[0]);
      [[s[0]] + rest[0]] + rest[1..]
  }

  /** `". ".join(parts)`: the pieces in order, with the separator between neighbours. */
  function Join(parts: seq<string>): (r: string)
    ensures |parts| > 0 ==> parts[0] <= r
    ensures |parts| == 0 ==> r == ""
  {
    if |parts| == 0 then ""
    else if |parts| == 1 then parts[0]
    else parts[0] + Sep + Join(parts[1..])
  }

  /** Joining what a split produced gives back the original text. */
  lemma {:induction false} JoinSplit(s: string)
    ensures Join(Split(s)) == s
    decreases |s|
  {
    if |s| < 2 {
    } else if SepAt(s, 0) {
      JoinSplit(s[2..]);
      var rest := Split(s[2..]);
      assert Split(s)[1..] == rest;
      assert s == Sep + s[2..];
    } else {
      JoinSplit(s[1..]);
      var rest := Split(s[1..]);
      var parts := Split(s);
      assert parts[1..] == rest[1..];
      if |rest| == 1 {
        assert s == [s[0]] + s[1..];
      } else {
        assert Join(rest) == rest[0] + Sep + Join(rest[1..]);
        assert s == [s[0]] + s[1..];
      }
    }
  }

  /** A separator-free text is a single piece. */
  lemma {:induction false} SplitSepFree(p: string)
    requires SepFree(p)
    ensures Split(p) == [p]
    decreases |p|
  {
    if |p| >= 2 {
      assert !SepAt(p, 0);
      assert SepFree(p[1..]) by {
        forall i | 0 <= i < |p[1..]| - 1 ensures !SepAt(p[1..], i) {
          assert !SepAt(p, i + 1);
        }
      }
      SplitSepFree(p[1..]);
      assert [p[0]] + p[1..] == p;
    }
  }

  /** A separator-free piece followed by the separator is split off as the first piece. */
  lemma {:induction false} SplitCons(p: string, rest: string)
    requires SepFree(p)
    ensures Split(p + Sep + rest) == [p] + Split(rest)
    decreases |p|
  {
    var s := p + Sep + rest;
    if p == [] {
      assert s == Sep + rest;
      assert SepAt(s, 0);
      assert s[2..] == rest;
    } else {
      assert !SepAt(s, 0) by {
        if |p| >= 2 {
          assert !SepAt(p, 0);
        }
      }
      assert SepFree(p[1..]) by {
        forall i | 0 <= i < |p[1..]| - 1 ensures !SepAt(p[1..], i) {
          assert !SepAt(p, i + 1);
        }
      }
      assert s[1..] == p[1..] + Sep + rest;
      SplitCons(p[1..], rest);
      assert [p[0]] + p[1..] == p;
    }
  }

  /** Splitting what a join of a non-empty list produced gives back the pieces, when none holds a separator. */
  lemma {:induction false} SplitJoin(parts: seq<string>)
    requires |parts| >= 1
    requires forall k :: 0 <= k < |parts| ==> SepFree(parts[k])
    ensures Split(Join(parts)) == parts
    decreases |parts|
  {
    if |parts| == 1 {
      SplitSepFree(parts[0]);
    } else {
      SplitJoin(parts[1..]);
      SplitCons(parts[0], Join(parts[1..]));
    }
  }

  /** Joining the first `k` pieces gives a prefix of joining all of them. */
  lemma {:induction false} JoinTakePrefix(parts: seq<string>, k: nat)
    requires k <= |parts|
    ensures Join(parts[..k]) <= Join(parts)
    decreases k
  {
    if k == 0 {
    } else if k == 1 {
    } else {
      JoinTakePrefix(parts[1..], k - 1);
      assert parts[..k][1..] == parts[1..][..k - 1];
      if |parts| > 1 {
        assert Join(parts) == parts[0] + Sep + Join(parts[1..]);
      }
    }
  }

  /** Joining the first `k` segments of a text gives a prefix of that text. */
  lemma JoinSplitPrefix(s: string, k: nat)
    requires k <= |Split(s)|
    ensures Join(Split(s)[..k]) <= s
  {
    JoinTakePrefix(Split(s), k);
    JoinSplit(s);
  }
}
