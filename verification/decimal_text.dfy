/** Decimal rendering of the non-negative integers the viewer writes into text:
    template literals such as `${frame.fps}` and `totalFrames.toString()`. */
module DecimalText {

  predicate IsDigit(c: char) { '0' <= c <= '9' }

  function DigitChar(d: nat): (c: char)
    requires d < 10
    ensures IsDigit(c) && (c as int) - ('0' as int) == d
  {
    ['0', '1', '2', '3', '4', '5', '6', '7', '8', '9'][d]
  }

  function DigitValue(c: char): (d: nat)
    requires IsDigit(c)
    ensures d < 10 && DigitChar(d) == c
  {
    (c as int) - ('0' as int)
  }

  /** The shortest decimal numeral of `n`, as JavaScript's Number-to-String gives it
      for a non-negative integer below 10^21 (from there on it switches to exponent
      notation). Its last digit is `n % 10`, and it has one digit exactly when `n < 10`. */
  function NatToString(n: nat): (s: string)
    ensures 0 < |s|
    ensures |s| == 1 <==> n < 10
    decreases n
  {
    if n < 10 then [DigitChar(n)] else NatToString(n / 10) + [DigitChar(n % 10)]
  }

  /** A numeral is a non-empty run of digits without a leading zero. */
  lemma {:induction false} NatToStringDigits(n: nat)
    ensures |NatToString(n)| > 0
    ensures forall i :: 0 <= i < |NatToString(n)| ==> IsDigit(NatToString(n)[i])
    ensures NatToString(n)[0] == '0' ==> n == 0 && NatToString(n) == "0"
    decreases n
  {
    if n >= 10 {
      NatToStringDigits(n / 10);
    }
  }

  /** Reads a string of decimal digits back as a number: the inverse of NatToString. */
  function ParseDecimal(s: string): (n: nat)
    requires forall i :: 0 <= i < |s| ==> IsDigit(s[i])
  {
    if s == [] then 0
    else 10 * ParseDecimal(s[..|s| - 1]) + DigitValue(s[|s| - 1])
  }

  lemma {:induction false} ParseNatToString(n: nat)
    ensures var s := NatToString(n); (forall i :: 0 <= i < |s| ==> IsDigit(s[i])) && ParseDecimal(s) == n
    decreases n
  {
    var s := NatToString(n);
    NatToStringDigits(n);
    if n >= 10 {
      NatToStringDigits(n / 10);
      var p := NatToString(n / 10);
      assert s[..|s| - 1] == p;
      ParseNatToString(n / 10);
    }
  }

  /** Distinct counts always render as distinct texts. */
  lemma NatToStringInjective(m: nat, n: nat)
    ensures NatToString(m) == NatToString(n) ==> m == n
  {
    NatToStringDigits(m);
    NatToStringDigits(n);
    ParseNatToString(m);
    ParseNatToString(n);
  }

  /** The `${width}x${height}` template of the frame's resolution. */
  function ResolutionText(width: nat, height: nat): (s: string)
    ensures |s| == |NatToString(width)| + 1 + |NatToString(height)|
    ensures s[|NatToString(width)|] == 'x'
  {
    NatToString(width) + "x" + NatToString(height)
  }

  /** A resolution text is two numerals around a single 'x'. */
  lemma ResolutionTextShape(width: nat, height: nat)
    ensures |ResolutionText(width, height)| >= 3
    ensures forall i :: 0 <= i < |ResolutionText(width, height)| ==>
      (ResolutionText(width, height)[i] == 'x' <==> i == |NatToString(width)|)
    ensures forall i :: 0 <= i < |ResolutionText(width, height)| && i != |NatToString(width)| ==>
      IsDigit(ResolutionText(width, height)[i])
  {
    NatToStringDigits(width);
    NatToStringDigits(height);
  }

  /** A resolution text determines the dimensions it was built from. */
  lemma {:induction false} ResolutionTextInjective(w1: nat, h1: nat, w2: nat, h2: nat)
    requires ResolutionText(w1, h1) == ResolutionText(w2, h2)
    ensures w1 == w2 && h1 == h2
  {
    var a, b := NatToString(w1), NatToString(w2);
    var s := ResolutionText(w1, h1);
    ResolutionTextShape(w1, h1);
    ResolutionTextShape(w2, h2);
    // The separator sits right after the width's digits, in both readings of s.
    assert s[|a|] == 'x';
    assert |a| == |b|;
    assert a == s[..|a|] == b;
    assert NatToString(h1) == s[|a| + 1..] == NatToString(h2);
    NatToStringInjective(w1, w2);
    NatToStringInjective(h1, h2);
  }

  /** The text the viewer writes for its fixed 1920 by 1080 frames. */
  lemma FullHdResolutionText()
    ensures ResolutionText(1920, 1080) == "1920x1080"
  {
    assert NatToString(19) == "19";
    assert NatToString(192) == "192";
    assert NatToString(10) == "10";
    assert NatToString(108) == "108";
  }
}
