/**
 * The threshold grammar shared by both probes.  A warning or critical
 * specification has one of five textual forms, tried in this order:
 *   N      alert when the value is above N or below zero
 *   N:     alert when the value is below N
 *   ~:N    alert when the value is above N
 *   N:M    alert when the value is outside the closed interval [N, M]
 *   @N:M   alert when the value is inside the closed interval [N, M]
 * where N and M are numerals (see Numerals).  Any other non-empty string is a
 * configuration error.
 */
module Ranges {
  import opened Wrappers
  import opened Py
  import opened Numerals

  datatype Range =
    | Limit(bound: Numeral)
    | LowerOnly(bound: Numeral)
    | UpperOnly(bound: Numeral)
    | Span(low: Numeral, high: Numeral)
    | InvertedSpan(low: Numeral, high: Numeral)
  {
    predicate Valid() {
      match this
      case Limit(n) => n.Valid()
      case LowerOnly(n) => n.Valid()
      case UpperOnly(n) => n.Valid()
      case Span(a, b) => a.Valid() && b.Valid()
      case InvertedSpan(a, b) => a.Valid() && b.Valid()
    }
  }

  /** The specification text a range is written as. */
  function Format(r: Range): string {
    match r
    case Limit(n) => n.Text()
    case LowerOnly(n) => n.Text() + ":"
    case UpperOnly(n) => "~:" + n.Text()
    case Span(a, b) => PairText(a, b)
    case InvertedSpan(a, b) => "@" + PairText(a, b)
  }

  function PairText(a: Numeral, b: Numeral): string {
    a.Text() + ":" + b.Text()
  }

  /** Two numerals separated by the first ':' of the string. */
  function SplitPair(s: string): Option<(Numeral, Numeral)> {
    match Find(s, ':')
    case None => None
    case Some(i) =>
      var first := Lex(s[..i]);
      var second := Lex(s[i + 1..]);
      if first.Some? && second.Some? then Some((first.value, second.value)) else None
  }

  /**
   * Tries the five forms in the order the probes list them; the first that
   * matches wins.  Whatever is accepted is well formed, is written exactly as
   * the input and matches the pattern of the form it was classified as.
   */
  function Parse(s: string): (r: Result<Range, Fault>)
    ensures r.Failure? ==> r.error == ImproperRange
    ensures r.Success? ==> r.value.Valid() && Format(r.value) == s && Matches(s, FormOf(r.value))
  {
    if Lex(s).Some? then
      LexSound(s);
      LexAcceptsNumerals(s);
      Success(Limit(Lex(s).value))
    else if |s| > 0 && s[|s| - 1] == ':' && Lex(s[..|s| - 1]).Some? then
      ParseSoundLowerOnly(s, Lex(s[..|s| - 1]).value);
      Success(LowerOnly(Lex(s[..|s| - 1]).value))
    else if |s| >= 2 && s[0] == '~' && s[1] == ':' && Lex(s[2..]).Some? then
      ParseSoundUpperOnly(s, Lex(s[2..]).value);
      Success(UpperOnly(Lex(s[2..]).value))
    else if SplitPair(s).Some? then
      SplitPairText(s, SplitPair(s).value.0, SplitPair(s).value.1);
      SplitPairSound(s);
      Success(Span(SplitPair(s).value.0, SplitPair(s).value.1))
    else if |s| > 0 && s[0] == '@' && SplitPair(s[1..]).Some? then
      ParseSoundInvertedSpan(s, SplitPair(s[1..]).value.0, SplitPair(s[1..]).value.1);
      Success(InvertedSpan(SplitPair(s[1..]).value.0, SplitPair(s[1..]).value.1))
    else
      Failure(ImproperRange)
  }

  /**
   * Whether a value is alerting under a range.  `Less` and `Greater` are
   * Python 2's comparisons, under which `None` lies below every number.
   */
  function Alerts(r: Range, v: PyValue): (alert: bool)
    requires r.Valid()
    ensures v.Num? ==>
              (alert <==>
                 match r
                 case Limit(n) => !(0.0 <= v.x <= n.Value())
                 case LowerOnly(n) => v.x < n.Value()
                 case UpperOnly(n) => v.x > n.Value()
                 case Span(lo, hi) => !(lo.Value() <= v.x <= hi.Value())
                 case InvertedSpan(lo, hi) => lo.Value() <= v.x <= hi.Value())
    ensures v.NoneValue? ==> (alert <==> r.Limit? || r.LowerOnly? || r.Span?)
  {
    match r
    case Limit(n) => Greater(v, n.Value()) || Less(v, 0.0)
    case LowerOnly(n) => Less(v, n.Value())
    case UpperOnly(n) => Greater(v, n.Value())
    case Span(a, b) => Less(v, a.Value()) || Greater(v, b.Value())
    case InvertedSpan(a, b) => !(Less(v, a.Value()) || Greater(v, b.Value()))
  }

  // ---------------------------------------------------------------------
  // The five regular expressions, stated independently of Parse.

  datatype Form = FormLimit | FormLowerOnly | FormUpperOnly | FormSpan | FormInvertedSpan

  function FormOf(r: Range): Form {
    match r
    case Limit(_) => FormLimit
    case LowerOnly(_) => FormLowerOnly
    case UpperOnly(_) => FormUpperOnly
    case Span(_, _) => FormSpan
    case InvertedSpan(_, _) => FormInvertedSpan
  }

  /** `N:M` for some split of the string at a ':'. */
  ghost predicate SpanShape(s: string) {
    exists i :: 0 <= i < |s| && s[i] == ':' && IsNumeral(s[..i]) && IsNumeral(s[i + 1..])
  }

  /** The string matches the form's anchored regular expression. */
  ghost predicate Matches(s: string, f: Form) {
    match f
    case FormLimit => IsNumeral(s)
    case FormLowerOnly => |s| > 0 && s[|s| - 1] == ':' && IsNumeral(s[..|s| - 1])
    case FormUpperOnly => |s| >= 2 && s[0] == '~' && s[1] == ':' && IsNumeral(s[2..])
    case FormSpan => SpanShape(s)
    case FormInvertedSpan => |s| > 0 && s[0] == '@' && SpanShape(s[1..])
  }

  lemma {:induction false} NumeralShape(s: string)
    requires IsNumeral(s)
    ensures Lex(s).Some?
    ensures |s| > 0 && s[0] != '~' && s[0] != '@' && s[|s| - 1] != ':'
    ensures forall k :: 0 <= k < |s| ==> s[k] != ':'
  {
    LexAcceptsNumerals(s);
    NumeralEnds(s);
  }

  lemma {:induction false} SplitPairSound(s: string)
    requires SplitPair(s).Some?
    ensures SpanShape(s)
  {
    var i := Find(s, ':').value;
    LexAcceptsNumerals(s[..i]);
    LexAcceptsNumerals(s[i + 1..]);
  }

  lemma {:induction false} SplitPairComplete(s: string, i: nat)
    requires i < |s| && s[i] == ':' && IsNumeral(s[..i]) && IsNumeral(s[i + 1..])
    ensures SplitPair(s).Some?
  {
    var head := s[..i];
    NumeralShape(head);
    LexAcceptsNumerals(s[i + 1..]);
    assert forall k :: 0 <= k < i ==> s[k] == head[k];
    assert Find(s, ':') == Some(i);
  }

  lemma {:induction false} SplitPairMatchesSpan(s: string)
    ensures SplitPair(s).Some? <==> SpanShape(s)
  {
    if SplitPair(s).Some? {
      SplitPairSound(s);
    } else if SpanShape(s) {
      var i :| 0 <= i < |s| && s[i] == ':' && IsNumeral(s[..i]) && IsNumeral(s[i + 1..]);
      SplitPairComplete(s, i);
    }
  }

  /** `N:M` starts like a numeral, ends like one and holds a ':'. */
  lemma {:induction false} SpanEnds(s: string)
    requires SpanShape(s)
    ensures |s| > 0 && s[0] != '~' && s[0] != '@' && s[|s| - 1] != ':' && HasColon(s)
  {
    var i :| 0 <= i < |s| && s[i] == ':' && IsNumeral(s[..i]) && IsNumeral(s[i + 1..]);
    var a, b := s[..i], s[i + 1..];
    NumeralShape(a);
    NumeralShape(b);
    assert s[0] == a[0];
    assert s[|s| - 1] == b[|b| - 1];
  }

  /** The characters that tell the five forms apart. */
  lemma {:induction false} FormShape(s: string, f: Form)
    requires Matches(s, f)
    ensures |s| > 0
    ensures s[0] == '~' <==> f == FormUpperOnly
    ensures s[0] == '@' <==> f == FormInvertedSpan
    ensures s[|s| - 1] == ':' <==> f == FormLowerOnly
    ensures f == FormLimit ==> !HasColon(s)
    ensures f == FormSpan ==> HasColon(s)
  {
    match f
    case FormLimit =>
      NumeralShape(s);
    case FormLowerOnly =>
      var n := s[..|s| - 1];
      NumeralShape(n);
      assert s[0] == n[0];
    case FormUpperOnly =>
      var n := s[2..];
      NumeralShape(n);
      assert s[|s| - 1] == n[|n| - 1];
    case FormSpan =>
      SpanEnds(s);
    case FormInvertedSpan =>
      var t := s[1..];
      SpanEnds(t);
      assert s[|s| - 1] == t[|t| - 1];
  }

  /** No string matches two of the five regular expressions, so their order does not matter. */
  lemma {:induction false} FormsExclusive(s: string, f: Form, g: Form)
    ensures Matches(s, f) && Matches(s, g) ==> f == g
  {
    if Matches(s, f) && Matches(s, g) {
      FormShape(s, f);
      FormShape(s, g);
    }
  }

  lemma {:induction false} ParseSoundLowerOnly(s: string, n: Numeral)
    requires |s| > 0 && s[|s| - 1] == ':' && Lex(s[..|s| - 1]) == Some(n)
    ensures n.Valid() && Format(LowerOnly(n)) == s
    ensures Matches(s, FormLowerOnly)
  {
    var t := s[..|s| - 1];
    NumeralOf(t, n);
    LowerOnlyText(s, t, n);
  }

  lemma {:induction false} LowerOnlyText(s: string, t: string, n: Numeral)
    requires |s| > 0 && s[|s| - 1] == ':' && t == s[..|s| - 1] && n.Text() == t
    ensures Format(LowerOnly(n)) == s
  {
    assert s == t + ":" by {
      assert forall i :: 0 <= i < |t| ==> s[i] == t[i];
    }
    assert Format(LowerOnly(n)) == n.Text() + ":";
  }

  lemma {:induction false} ParseSoundUpperOnly(s: string, n: Numeral)
    requires |s| >= 2 && s[0] == '~' && s[1] == ':' && Lex(s[2..]) == Some(n)
    ensures n.Valid() && Format(UpperOnly(n)) == s
    ensures Matches(s, FormUpperOnly)
  {
    var t := s[2..];
    NumeralOf(t, n);
    UpperOnlyText(s, t, n);
  }

  lemma {:induction false} UpperOnlyText(s: string, t: string, n: Numeral)
    requires |s| >= 2 && s[0] == '~' && s[1] == ':' && t == s[2..] && n.Text() == t
    ensures Format(UpperOnly(n)) == s
  {
    assert s == "~:" + t by {
      assert forall i :: 2 <= i < |s| ==> s[i] == t[i - 2];
    }
    assert Format(UpperOnly(n)) == "~:" + n.Text();
  }

  /** What Lex reads is a valid numeral written exactly as its input. */
  lemma {:induction false} NumeralOf(t: string, n: Numeral)
    requires Lex(t) == Some(n)
    ensures n.Valid() && n.Text() == t && IsNumeral(t)
  {
    LexSound(t);
    LexAcceptsNumerals(t);
  }

  lemma {:induction false} ParseSoundInvertedSpan(s: string, a: Numeral, b: Numeral)
    requires |s| > 0 && s[0] == '@' && SplitPair(s[1..]) == Some((a, b))
    ensures a.Valid() && b.Valid() && Format(InvertedSpan(a, b)) == s
    ensures Matches(s, FormInvertedSpan)
  {
    var t := s[1..];
    SplitPairText(t, a, b);
    SplitPairSound(t);
    InvertedSpanText(s, t, a, b);
  }

  lemma {:induction false} InvertedSpanText(s: string, t: string, a: Numeral, b: Numeral)
    requires |s| > 0 && s[0] == '@' && t == s[1..] && PairText(a, b) == t
    ensures Format(InvertedSpan(a, b)) == s
  {
    assert Format(InvertedSpan(a, b)) == "@" + t;
    assert s == [s[0]] + t;
  }

  /** The pair SplitPair reads is written back as the input. */
  lemma {:induction false} SplitPairText(s: string, a: Numeral, b: Numeral)
    requires SplitPair(s) == Some((a, b))
    ensures a.Valid() && b.Valid() && PairText(a, b) == s
  {
    var i := Find(s, ':').value;
    assert Lex(s[..i]) == Some(a) && Lex(s[i + 1..]) == Some(b);
    LexSound(s[..i]);
    LexSound(s[i + 1..]);
    JoinAtColon(s, i, a, b);
  }

  lemma {:induction false} JoinAtColon(s: string, i: nat, a: Numeral, b: Numeral)
    requires i < |s| && s[i] == ':' && a.Text() == s[..i] && b.Text() == s[i + 1..]
    ensures a.Text() + ":" + b.Text() == s
  {
    assert s[..i] + ":" + s[i + 1..] == s;
  }

  /** A string matching a form is accepted, and classified as that form. */
  lemma {:induction false} ParseComplete(s: string, f: Form)
    requires Matches(s, f)
    ensures Parse(s).Success? && FormOf(Parse(s).value) == f
  {
    ParseAccepts(s, f);
    FormsExclusive(s, f, FormOf(Parse(s).value));
  }

  lemma {:induction false} ParseAccepts(s: string, f: Form)
    requires Matches(s, f)
    ensures Parse(s).Success?
  {
    match f
    case FormLimit => LexAcceptsNumerals(s);
    case FormLowerOnly => LexAcceptsNumerals(s[..|s| - 1]);
    case FormUpperOnly => LexAcceptsNumerals(s[2..]);
    case FormSpan => SplitPairMatchesSpan(s);
    case FormInvertedSpan => SplitPairMatchesSpan(s[1..]);
  }

  /** Parse succeeds exactly on the strings that match one of the five forms. */
  lemma {:induction false} ParseAcceptsExactlyTheForms(s: string)
    ensures Parse(s).Success? <==> exists f :: Matches(s, f)
  {
    if Parse(s).Success? {
    } else if exists f :: Matches(s, f) {
      var f :| Matches(s, f);
      ParseComplete(s, f);
    }
  }

  lemma {:induction false} MatchesFormat(r: Range)
    requires r.Valid()
    ensures Matches(Format(r), FormOf(r))
  {
    match r
    case Limit(n) =>
      LexText(n);
      LexAcceptsNumerals(n.Text());
    case LowerOnly(n) =>
      MatchesLowerOnlyText(n);
    case UpperOnly(n) =>
      MatchesUpperOnlyText(n);
    case Span(a, b) =>
      SpanText(a, b);
    case InvertedSpan(a, b) =>
      SpanText(a, b);
      assert Format(r)[1..] == PairText(a, b);
  }

  lemma {:induction false} MatchesLowerOnlyText(n: Numeral)
    requires n.Valid()
    ensures Matches(n.Text() + ":", FormLowerOnly)
  {
    var s := n.Text() + ":";
    LexText(n);
    LexAcceptsNumerals(n.Text());
    assert s[..|s| - 1] == n.Text();
  }

  lemma {:induction false} MatchesUpperOnlyText(n: Numeral)
    requires n.Valid()
    ensures Matches("~:" + n.Text(), FormUpperOnly)
  {
    var s := "~:" + n.Text();
    LexText(n);
    LexAcceptsNumerals(n.Text());
    assert s[2..] == n.Text();
  }

  lemma {:induction false} SpanText(a: Numeral, b: Numeral)
    requires a.Valid() && b.Valid()
    ensures SpanShape(a.Text() + ":" + b.Text())
  {
    var s := a.Text() + ":" + b.Text();
    LexText(a);
    LexText(b);
    LexAcceptsNumerals(a.Text());
    LexAcceptsNumerals(b.Text());
    var i := |a.Text()|;
    assert s[i] == ':' && s[..i] == a.Text() && s[i + 1..] == b.Text();
  }

  /** Parse reads back every well-formed range from its text. */
  lemma {:induction false} FormatParse(r: Range)
    requires r.Valid()
    ensures Parse(Format(r)) == Success(r)
  {
    var s := Format(r);
    MatchesFormat(r);
    ParseComplete(s, FormOf(r));
    FormatInjective(r, Parse(s).value);
  }

  /** Distinct well-formed ranges of one form are written differently. */
  lemma {:induction false} FormatInjective(r: Range, r': Range)
    requires r.Valid() && r'.Valid()
    requires FormOf(r) == FormOf(r') && Format(r) == Format(r')
    ensures r == r'
  {
    match r
    case Limit(n) =>
      LexText(n);
      LexText(r'.bound);
    case LowerOnly(n) =>
      var m := r'.bound;
      assert n.Text() == Format(r)[..|Format(r)| - 1] == m.Text();
      LexText(n);
      LexText(m);
    case UpperOnly(n) =>
      var m := r'.bound;
      assert n.Text() == Format(r)[2..] == m.Text();
      LexText(n);
      LexText(m);
    case Span(a, b) =>
      ColonSplitUnique(a, b, r'.low, r'.high);
    case InvertedSpan(a, b) =>
      assert Format(r)[1..] == PairText(a, b);
      assert Format(r')[1..] == PairText(r'.low, r'.high);
      ColonSplitUnique(a, b, r'.low, r'.high);
  }

  lemma {:induction false} ColonSplitUnique(a: Numeral, b: Numeral, c: Numeral, d: Numeral)
    requires a.Valid() && b.Valid() && c.Valid() && d.Valid()
    requires a.Text() + ":" + b.Text() == c.Text() + ":" + d.Text()
    ensures a == c && b == d
  {
    LexText(a);
    LexText(b);
    LexText(c);
    LexText(d);
    NumeralEnds(a.Text());
    NumeralEnds(c.Text());
    FirstColonSplit(a.Text(), b.Text(), c.Text(), d.Text());
  }

  /** Splitting at the first ':' is unique when the left parts hold none. */
  lemma {:induction false} FirstColonSplit(x: string, y: string, u: string, w: string)
    requires forall k :: 0 <= k < |x| ==> x[k] != ':'
    requires forall k :: 0 <= k < |u| ==> u[k] != ':'
    requires x + ":" + y == u + ":" + w
    ensures x == u && y == w
  {
    var s := x + ":" + y;
    FindAfterColonFree(x, y);
    FindAfterColonFree(u, w);
    assert x == s[..|x|] == u;
    assert y == s[|x| + 1..] == w;
  }

  /** Numbers the grammar does not spell are refused rather than classified. */
  lemma {:induction false} RejectsMalformedNumbers()
    ensures Parse("abc").Failure?
    ensures Parse("+5").Failure?
    ensures Parse(".5").Failure?
    ensures Parse("1e3").Failure?
  {
    RejectsWord();
    RejectsPlusSign();
    RejectsBareFraction();
    RejectsExponent();
  }

  /** So are prefixes and separators without the numbers the form needs. */
  lemma {:induction false} RejectsMalformedShapes()
    ensures Parse("@5").Failure?
    ensures Parse("~:").Failure?
    ensures Parse("5:~").Failure?
  {
    RejectsBareAt();
    RejectsEmptyUpper();
    RejectsTildeBound();
  }

  /** Rejected: a word. */
  lemma {:induction false} RejectsWord()
    ensures Parse("abc").Failure?
  {
  }

  /** Rejected: a leading '+'. */
  lemma {:induction false} RejectsPlusSign()
    ensures Parse("+5").Failure?
  {
  }

  /** Rejected: a fraction without integer digits. */
  lemma {:induction false} RejectsBareFraction()
    ensures Parse(".5").Failure?
  {
  }

  /** Rejected: an exponent. */
  lemma {:induction false} RejectsExponent()
    ensures Parse("1e3").Failure?
  {
  }

  /** Rejected: '@' before a single number. */
  lemma {:induction false} RejectsBareAt()
    ensures Parse("@5").Failure?
  {
  }

  /** Rejected: '~:' without its number. */
  lemma {:induction false} RejectsEmptyUpper()
    ensures Parse("~:").Failure?
  {
  }

  /** Rejected: '~' as the second bound. */
  lemma {:induction false} RejectsTildeBound()
    ensures Parse("5:~").Failure?
  {
  }
}
