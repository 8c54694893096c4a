/**
 * The string operations the parameter block relies on: Python's `str.split(sep)`
 * and the integer and float conversions `int(s)` and `float(s)`, restricted to
 * plain decimal notation.
 */
module TextOps {
  import opened Wrappers

  /** `sep` occurs in `s` starting at index j. */
  predicate OccursAt(s: string, sep: string, j: int)
  {
    0 <= j && j + |sep| <= |s| && s[j .. j + |sep|] == sep
  }

  /** Dropping the first character shifts every occurrence one place to the left. */
  lemma OccursAtTail(s: string, sep: string, j: nat)
    requires |s| > 0
    ensures OccursAt(s[1..], sep, j) <==> OccursAt(s, sep, j + 1)
  {
    if j + 1 + |sep| <= |s| {
      assert s[1..][j .. j + |sep|] == s[j + 1 .. j + 1 + |sep|];
    }
  }

  /** `str.find(sep)`: the index of the first occurrence of `sep` in `s`, or -1. */
  function Find(s: string, sep: string): (k: int)
    ensures k < 0 ==> k == -1 && forall j :: 0 <= j <= |s| - |sep| ==> !OccursAt(s, sep, j)
    ensures k >= 0 ==> OccursAt(s, sep, k) && forall j :: 0 <= j < k ==> !OccursAt(s, sep, j)
    decreases |s|
  {
    if |s| < |sep| then -1
    else if s[..|sep|] == sep then 0
    else
      var k := Find(s[1..], sep);
      assert forall j :: 1 <= j ==> (OccursAt(s, sep, j) <==> OccursAt(s[1..], sep, j - 1)) by {
        forall j | 1 <= j ensures OccursAt(s, sep, j) <==> OccursAt(s[1..], sep, j - 1) {
          OccursAtTail(s, sep, j - 1);
        }
      }
      assert !OccursAt(s, sep, 0);
      if k < 0 then -1 else k + 1
  }

  /** A prefix that stops before the first occurrence of `sep` contains no occurrence of it. */
  lemma {:induction false} NoOccurrenceBefore(s: string, sep: string, k: nat)
    requires |sep| > 0 && k <= |s|
    requires forall j :: 0 <= j < k ==> !OccursAt(s, sep, j)
    ensures Find(s[..k], sep) < 0
  {
    var p := s[..k];
    forall j | 0 <= j <= |p| - |sep|
      ensures !OccursAt(p, sep, j)
    {
      assert p[j .. j + |sep|] == s[j .. j + |sep|];
      assert !OccursAt(s, sep, j);
    }
  }

  /**
   * `s.split(sep)`: the pieces between the occurrences of `sep`, scanned left to
   * right. There is always at least one piece and no piece contains `sep`.
   */
  function Split(s: string, sep: string): (r: seq<string>)
    requires |sep| > 0
    ensures |r| >= 1
    ensures forall i :: 0 <= i < |r| ==> Find(r[i], sep) < 0
    decreases |s|
  {
    var k := Find(s, sep);
    if k < 0 then [s]
    else
      NoOccurrenceBefore(s, sep, k);
      [s[..k]] + Split(s[k + |sep|..], sep)
  }

  /** `sep.join(pieces)`. */
  function Join(pieces: seq<string>, sep: string): string
    requires |pieces| >= 1
  {
    if |pieces| == 1 then pieces[0] else pieces[0] + sep + Join(pieces[1..], sep)
  }

  /** Joining the pieces of a split with the same separator gives back the original text. */
  lemma {:induction false} JoinSplit(s: string, sep: string)
    requires |sep| > 0
    ensures Join(Split(s, sep), sep) == s
    decreases |s|
  {
    var k := Find(s, sep);
    if k >= 0 {
      var rest := s[k + |sep|..];
      var tail := Split(rest, sep);
      assert Split(s, sep) == [s[..k]] + tail;
      JoinSplit(rest, sep);
      JoinCons(s[..k], tail, sep);
      Reassemble(s, sep, k);
    }
  }

  lemma JoinCons(head: string, tail: seq<string>, sep: string)
    requires |tail| >= 1
    ensures Join([head] + tail, sep) == head + sep + Join(tail, sep)
  {
    assert ([head] + tail)[1..] == tail;
  }

  /** Text around an occurrence of `sep` is the part before it, `sep`, and the part after it. */
  lemma Reassemble(s: string, sep: string, k: int)
    requires OccursAt(s, sep, k)
    ensures s == s[..k] + sep + s[k + |sep|..]
  {
    assert s == s[..k] + s[k .. k + |sep|] + s[k + |sep|..];
  }

  // ---- decimal numbers ----

  predicate IsDigit(c: char)
  {
    '0' <= c <= '9'
  }

  /** A non-empty run of decimal digits. */
  predicate IsDigits(s: string)
  {
    |s| > 0 && forall i :: 0 <= i < |s| ==> IsDigit(s[i])
  }

  function DigitValue(c: char): nat
    requires IsDigit(c)
  {
    c as int - '0' as int
  }

  /** The value of a run of decimal digits, most significant first. */
  function DigitsValue(s: string): nat
    requires forall i :: 0 <= i < |s| ==> IsDigit(s[i])
  {
    if s == [] then 0 else DigitsValue(s[..|s| - 1]) * 10 + DigitValue(s[|s| - 1])
  }

  function Pow10(n: nat): (p: nat)
    ensures p >= 1
  {
    if n == 0 then 1 else 10 * Pow10(n - 1)
  }

  /** The shortest decimal digits of n (what `str(n)` gives for a non-negative int). */
  function FormatNat(n: nat): (s: string)
    ensures IsDigits(s)
  {
    if n < 10 then [('0' as int + n) as char] else FormatNat(n / 10) + [('0' as int + n % 10) as char]
  }

  lemma {:induction false} DigitsValueOfFormat(n: nat)
    ensures DigitsValue(FormatNat(n)) == n
  {
    if n >= 10 {
      var s := FormatNat(n);
      assert s[..|s| - 1] == FormatNat(n / 10);
      DigitsValueOfFormat(n / 10);
    }
  }

  /** Splits an optional leading '+' or '-' from `s`: (is negative, the rest). */
  function Sign(s: string): (bool, string)
  {
    if |s| > 0 && (s[0] == '-' || s[0] == '+') then (s[0] == '-', s[1..]) else (false, s)
  }

  /**
   * `int(s)` for plain decimal notation: an optional sign and one or more digits.
   * Anything else raises (here: None).
   */
  function ParseInt(s: string): (r: Option<int>)
    ensures r.Some? <==> IsDigits(Sign(s).1)
  {
    var (negative, body) := Sign(s);
    if !IsDigits(body) then None
    else
      var magnitude: int := DigitsValue(body);
      Some(if negative then -magnitude else magnitude)
  }

  /** `int(str(n)) == n`: the parser reads back every integer's decimal form. */
  lemma ParseIntOfFormat(n: int)
    ensures n >= 0 ==> ParseInt(FormatNat(n)) == Some(n)
    ensures n < 0 ==> ParseInt("-" + FormatNat(-n)) == Some(n)
  {
    if n >= 0 {
      DigitsValueOfFormat(n);
      assert Sign(FormatNat(n)) == (false, FormatNat(n));
    } else {
      DigitsValueOfFormat(-n);
      assert ("-" + FormatNat(-n))[1..] == FormatNat(-n);
    }
  }

  /**
   * `float(s)` for plain decimal notation: an optional sign, then digits with at
   * most one '.', at least one digit in all ("5", "5.", ".5", "-1.25").
   * Anything else raises (here: None).
   */
  function ParseFloat(s: string): (r: Option<real>)
    ensures r.Some? ==> |Sign(s).1| > 0
  {
    var (negative, body) := Sign(s);
    var dot := Find(body, ".");
    var whole := if dot < 0 then body else body[..dot];
    var fraction := if dot < 0 then "" else body[dot + 1..];
    if |whole| + |fraction| == 0
       || (exists i :: 0 <= i < |whole| && !IsDigit(whole[i]))
       || (exists i :: 0 <= i < |fraction| && !IsDigit(fraction[i])) then None
    else
      var magnitude := DigitsValue(whole) as real + DigitsValue(fraction) as real / Pow10(|fraction|) as real;
      Some(if negative then -magnitude else magnitude)
  }

  /** `float(str(n)) == n` for integers written without a fraction. */
  lemma ParseFloatOfFormat(n: nat)
    ensures ParseFloat(FormatNat(n)) == Some(n as real)
  {
    var s := FormatNat(n);
    DigitsValueOfFormat(n);
    assert Sign(s) == (false, s);
  }
}
