/**
 * The few Python built-ins on strings and lists that the blog generator relies on:
 * substring containment (`pat in text`), the slice `xs[:stop]`, and `str(n)` for an `int`.
 * A Python `str` is modelled as `seq<char>`, a sequence of Unicode scalar values.
 */
module PyText {

  /** `pat` occurs in `text` starting at index `i`. */
  predicate OccursAt(text: string, pat: string, i: int)
  {
    0 <= i && i + |pat| <= |text| && text[i..i + |pat|] == pat
  }

  /** Python's `pat in text`: tried at each start position from the left. */
  predicate Contains(text: string, pat: string)
    ensures Contains(text, pat) ==> |pat| <= |text|
    decreases |text|
  {
    pat <= text || (|text| > 0 && Contains(text[1..], pat))
  }

  /** `Contains` holds exactly when the pattern occurs at some index. */
  lemma {:induction false} ContainsIffOccurs(text: string, pat: string)
    ensures Contains(text, pat) <==> exists i :: OccursAt(text, pat, i)
    decreases |text|
  {
    if pat <= text {
      assert OccursAt(text, pat, 0);
    } else if |text| > 0 {
      ContainsIffOccurs(text[1..], pat);
      if exists i :: OccursAt(text[1..], pat, i) {
        var i :| OccursAt(text[1..], pat, i);
        assert text[i + 1..i + 1 + |pat|] == text[1..][i..i + |pat|];
        assert OccursAt(text, pat, i + 1);
      }
      if exists i :: OccursAt(text, pat, i) {
        var i :| OccursAt(text, pat, i);
        if i != 0 {
          assert text[1..][i - 1..i - 1 + |pat|] == text[i..i + |pat|];
          assert OccursAt(text[1..], pat, i - 1);
        }
      }
    }
  }

  /** Text in front of an occurrence does not hide it. */
  lemma {:induction false} ContainsAfter(front: string, text: string, pat: string)
    requires Contains(text, pat)
    ensures Contains(front + text, pat)
    decreases |front|
  {
    if front != [] {
      assert (front + text)[1..] == front[1..] + text;
      ContainsAfter(front[1..], text, pat);
    } else {
      assert front + text == text;
    }
  }

  /** Text behind an occurrence does not hide it. */
  lemma {:induction false} ContainsBefore(text: string, back: string, pat: string)
    requires Contains(text, pat)
    ensures Contains(text + back, pat)
    decreases |text|
  {
    if pat <= text {
      assert (text + back)[..|pat|] == text[..|pat|];
    } else {
      assert (text + back)[1..] == text[1..] + back;
      ContainsBefore(text[1..], back, pat);
    }
  }

  /** A string contains every piece it is concatenated from. */
  lemma ContainsMiddle(front: string, pat: string, back: string)
    ensures Contains(front + pat + back, pat)
  {
    ContainsBefore(pat, back, pat);
    ContainsAfter(front, pat + back, pat);
    assert front + pat + back == front + (pat + back);
  }

  /** A pattern longer than the text never occurs in it. */
  lemma {:induction false} NotContainsLonger(text: string, pat: string)
    requires |text| < |pat|
    ensures !Contains(text, pat)
    decreases |text|
  {
    if |text| > 0 {
      NotContainsLonger(text[1..], pat);
    }
  }

  /** Python's slice `xs[:stop]`: a negative `stop` counts from the end, and both ends clamp. */
  function Take<T>(xs: seq<T>, stop: int): (r: seq<T>)
    ensures r <= xs
    ensures 0 <= stop ==> |r| == if stop < |xs| then stop else |xs|
    ensures stop < 0 ==> |r| == if |xs| + stop < 0 then 0 else |xs| + stop
  {
    if 0 <= stop then
      (if stop < |xs| then xs[..stop] else xs)
    else
      (if |xs| + stop < 0 then [] else xs[..|xs| + stop])
  }

  /** The digit characters, indexed by their value. */
  const Digits: string := "0123456789"

  predicate IsDigit(c: char)
  {
    '0' <= c <= '9'
  }

  /** Python's `str(n)` for `0 <= n`: decimal digits, no leading zero. */
  function NatToDecimal(n: nat): (r: string)
    ensures |r| > 0
    ensures forall k :: 0 <= k < |r| ==> IsDigit(r[k])
    ensures r[0] == '0' ==> n == 0
    decreases n
  {
    if n < 10 then [Digits[n]] else NatToDecimal(n / 10) + [Digits[n % 10]]
  }

  /** Python's `str(n)` for an `int`: a minus sign in front of a negative number. */
  function IntToDecimal(n: int): (r: string)
    ensures |r| > 0
    ensures n < 0 <==> r[0] == '-'
  {
    if n < 0 then "-" + NatToDecimal(-n) else NatToDecimal(n)
  }

  function DigitValue(c: char): nat
    requires IsDigit(c)
  {
    c as int - '0' as int
  }

  /** The value of a string of decimal digits, read left to right. */
  function ParseNat(s: string): nat
    requires forall k :: 0 <= k < |s| ==> IsDigit(s[k])
  {
    if s == [] then 0 else ParseNat(s[..|s| - 1]) * 10 + DigitValue(s[|s| - 1])
  }

  /** Python's `int(s)` on what `str(n)` printed. */
  function ParseInt(s: string): int
    requires |s| > 0
    requires s[0] == '-' ==> forall k :: 1 <= k < |s| ==> IsDigit(s[k])
    requires s[0] != '-' ==> forall k :: 0 <= k < |s| ==> IsDigit(s[k])
  {
    if s[0] == '-' then -(ParseNat(s[1..]) as int) else ParseNat(s)
  }

  lemma {:induction false} ParseNatToDecimal(n: nat)
    ensures ParseNat(NatToDecimal(n)) == n
    decreases n
  {
    var r := NatToDecimal(n);
    if n >= 10 {
      ParseNatToDecimal(n / 10);
      assert r[..|r| - 1] == NatToDecimal(n / 10);
    }
  }

  /** Printing an integer in decimal loses nothing: reading it back gives the integer. */
  lemma ParseIntToDecimal(n: int)
    ensures var s := IntToDecimal(n);
      && (s[0] == '-' ==> forall k :: 1 <= k < |s| ==> IsDigit(s[k]))
      && (s[0] != '-' ==> forall k :: 0 <= k < |s| ==> IsDigit(s[k]))
      && ParseInt(s) == n
  {
    var s := IntToDecimal(n);
    if n < 0 {
      assert s[1..] == NatToDecimal(-n);
      ParseNatToDecimal(-n);
    } else {
      ParseNatToDecimal(n);
    }
  }
}
