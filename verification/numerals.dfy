/**
 * The number syntax of a threshold, the regular expression
 * `-?[0-9]+(\.[0-9]+)?`: an optional minus sign, at least one digit, and an
 * optional fractional part of at least one digit after a '.'.
 */
module Numerals {
  import opened Wrappers
  import opened Digits

  /** A number as written: sign, integer digits and fractional digits ("" when there is no '.'). */
  datatype Numeral = Numeral(negative: bool, whole: string, fraction: string) {

    predicate Valid() {
      |whole| > 0 && AllDigits(whole) && AllDigits(fraction)
    }

    function Text(): string {
      (if negative then "-" else "") + whole + (if |fraction| == 0 then "" else "." + fraction)
    }

    /** What Python's float() makes of the text, computed exactly. */
    function Value(): (v: real)
      requires Valid()
      ensures !negative ==> WholeValue(whole) as real <= v < WholeValue(whole) as real + 1.0
      ensures negative ==> -(WholeValue(whole) as real) - 1.0 < v <= -(WholeValue(whole) as real)
      ensures |fraction| == 0 ==> v == (if negative then -(WholeValue(whole) as real) else WholeValue(whole) as real)
      ensures !negative ==> Shift(v, |fraction|) == WholeValue(whole + fraction) as real
      ensures negative ==> Shift(v, |fraction|) == -(WholeValue(whole + fraction) as real)
    {
      var magnitude := WholeValue(whole) as real + FractionValue(fraction);
      FractionScaled(fraction);
      WholeValueConcat(whole, fraction);
      ShiftAdd(WholeValue(whole) as real, FractionValue(fraction), |fraction|);
      ShiftNegate(magnitude, |fraction|);
      if negative then -magnitude else magnitude
    }
  }

  /** The length of the longest all-digit prefix. */
  function LeadingDigits(s: string): (k: nat)
    ensures k <= |s| && AllDigits(s[..k])
    ensures k < |s| ==> !IsDigit(s[k])
  {
    if |s| == 0 || !IsDigit(s[0]) then 0
    else
      var k := 1 + LeadingDigits(s[1..]);
      assert forall i :: 1 <= i < k ==> s[..k][i] == s[1..][..k - 1][i - 1];
      k
  }

  lemma {:induction false} LeadingDigitsAt(s: string, k: nat)
    requires k <= |s| && AllDigits(s[..k])
    requires k < |s| ==> !IsDigit(s[k])
    ensures LeadingDigits(s) == k
    decreases |s|
  {
    if k > 0 {
      assert IsDigit(s[0]) by { assert s[0] == s[..k][0]; }
      var t := s[1..];
      var prefix := t[..k - 1];
      forall i | 0 <= i < k - 1 ensures IsDigit(prefix[i]) {
        assert prefix[i] == s[..k][i + 1];
      }
      assert k - 1 < |t| ==> t[k - 1] == s[k];
      LeadingDigitsAt(t, k - 1);
    }
  }

  /** Reads an unsigned numeral spanning `body`; `negative` records a '-' already consumed. */
  function LexBody(negative: bool, body: string): Option<Numeral> {
    var k := LeadingDigits(body);
    if k == 0 then None
    else if k == |body| then Some(Numeral(negative, body, ""))
    else if body[k] == '.' && k + 1 < |body| && AllDigits(body[k + 1..]) then
      Some(Numeral(negative, body[..k], body[k + 1..]))
    else None
  }

  /** Reads one numeral that spans the whole string. */
  function Lex(s: string): Option<Numeral> {
    if |s| > 0 && s[0] == '-' then LexBody(true, s[1..]) else LexBody(false, s)
  }

  lemma {:induction false} LexBodySound(negative: bool, body: string)
    requires LexBody(negative, body).Some?
    ensures LexBody(negative, body).value.Valid()
    ensures LexBody(negative, body).value.Text() == (if negative then "-" else "") + body
  {
    var k := LeadingDigits(body);
    if k == |body| {
      assert body[..k] == body;
    } else {
      assert body == body[..k] + "." + body[k + 1..];
    }
  }

  /** Whatever Lex reads is well formed and is written exactly as the input. */
  lemma {:induction false} LexSound(s: string)
    ensures Lex(s).Some? ==> Lex(s).value.Valid() && Lex(s).value.Text() == s
  {
    if |s| > 0 && s[0] == '-' {
      if LexBody(true, s[1..]).Some? {
        LexBodySound(true, s[1..]);
        assert "-" + s[1..] == s;
      }
    } else if LexBody(false, s).Some? {
      LexBodySound(false, s);
    }
  }

  /** Lex reads back every well-formed numeral from its text. */
  lemma {:induction false} LexText(n: Numeral)
    requires n.Valid()
    ensures Lex(n.Text()) == Some(n)
  {
    var body := n.whole + (if |n.fraction| == 0 then "" else "." + n.fraction);
    assert n.Text() == (if n.negative then "-" else "") + body;
    assert body[0] == n.whole[0];
    assert body[..|n.whole|] == n.whole;
    LeadingDigitsAt(body, |n.whole|);
    if |n.fraction| > 0 {
      assert body[|n.whole| + 1..] == n.fraction;
    } else {
      assert body == n.whole;
    }
    assert LexBody(n.negative, body) == Some(n);
    if n.negative {
      assert n.Text()[1..] == body;
    } else {
      assert n.Text() == body;
    }
  }

  /** The regular expression `[0-9]+(\.[0-9]+)?`, stated over split points. */
  ghost predicate IsUnsignedDecimal(b: string) {
    || (|b| > 0 && AllDigits(b))
    || (exists i :: 0 < i < |b| - 1 && b[i] == '.' && AllDigits(b[..i]) && AllDigits(b[i + 1..]))
  }

  /** The regular expression `-?[0-9]+(\.[0-9]+)?` over the whole string. */
  ghost predicate IsNumeral(s: string) {
    IsUnsignedDecimal(s) || (|s| > 0 && s[0] == '-' && IsUnsignedDecimal(s[1..]))
  }

  lemma {:induction false} LexBodyAcceptsDecimals(negative: bool, body: string)
    ensures LexBody(negative, body).Some? <==> IsUnsignedDecimal(body)
  {
    if LexBody(negative, body).Some? {
      LexBodySound(negative, body);
      var n := LexBody(negative, body).value;
      if |n.fraction| > 0 {
        var i := |n.whole|;
        assert body == n.whole + "." + n.fraction;
        assert body[..i] == n.whole && body[i] == '.' && body[i + 1..] == n.fraction;
      } else {
        assert body == n.whole;
      }
    } else if IsUnsignedDecimal(body) {
      if !(|body| > 0 && AllDigits(body)) {
        var i :| 0 < i < |body| - 1 && body[i] == '.' && AllDigits(body[..i]) && AllDigits(body[i + 1..]);
        LeadingDigitsAt(body, i);
      }
    }
  }

  /** Lex accepts exactly the strings the regular expression matches. */
  lemma {:induction false} LexAcceptsNumerals(s: string)
    ensures Lex(s).Some? <==> IsNumeral(s)
  {
    if |s| > 0 && s[0] == '-' {
      LexBodyAcceptsDecimals(true, s[1..]);
      assert !IsUnsignedDecimal(s) by {
        LexBodyAcceptsDecimals(false, s);
        assert LeadingDigits(s) == 0;
      }
    } else {
      LexBodyAcceptsDecimals(false, s);
    }
  }

  predicate NumeralChar(c: char) {
    IsDigit(c) || c == '.' || c == '-'
  }

  /** A numeral is non-empty, starts with a digit or '-', and uses only digits, '.' and '-'. */
  lemma {:induction false} NumeralAlphabet(s: string)
    requires Lex(s).Some?
    ensures |s| > 0 && (IsDigit(s[0]) || s[0] == '-') && IsDigit(s[|s| - 1])
    ensures forall i :: 0 <= i < |s| ==> NumeralChar(s[i])
  {
    LexSound(s);
    var n := Lex(s).value;
    var sign := if n.negative then "-" else "";
    var tail := if |n.fraction| == 0 then "" else "." + n.fraction;
    assert s == sign + n.whole + tail;
    forall i | 0 <= i < |s| ensures NumeralChar(s[i]) {
      if i < |sign| {
      } else if i < |sign| + |n.whole| {
        assert s[i] == n.whole[i - |sign|];
      } else {
        assert s[i] == tail[i - |sign| - |n.whole|];
        if i > |sign| + |n.whole| {
          assert tail[i - |sign| - |n.whole|] == n.fraction[i - |sign| - |n.whole| - 1];
        }
      }
    }
    if |n.fraction| == 0 {
      assert s[|s| - 1] == n.whole[|n.whole| - 1];
    } else {
      assert s[|s| - 1] == n.fraction[|n.fraction| - 1];
    }
    if !n.negative {
      assert s[0] == n.whole[0];
    }
  }

  /** The numeral an integer's decimal text denotes has that integer's value. */
  lemma {:induction false} LexSignedText(k: int)
    ensures Lex(SignedText(k)).Some? && Lex(SignedText(k)).value.Valid()
    ensures Lex(SignedText(k)).value.Value() == k as real
  {
    var n := Numeral(k < 0, DecimalText(if k < 0 then -k else k), "");
    assert n.Text() == SignedText(k);
    LexText(n);
  }

  /** The characters that separate numerals from the rest of a threshold: none of them is ':', '~' or '@'. */
  lemma {:induction false} NumeralEnds(s: string)
    requires Lex(s).Some?
    ensures |s| > 0 && s[0] != '~' && s[0] != '@' && s[|s| - 1] != ':'
    ensures forall k :: 0 <= k < |s| ==> s[k] != ':'
  {
    NumeralAlphabet(s);
  }
}
