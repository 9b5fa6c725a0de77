/**
 * The few pieces of Python 2 runtime behaviour the probes depend on: the
 * exceptions they can raise, `None` as a value, truthiness of an optional
 * string, `str.find`, `int()` on a string and `template % argument` with one
 * string argument.
 */
module Py {
  import opened Wrappers
  import opened Digits

  /** The exceptions that end a probe run with the UNKNOWN exit status. */
  datatype Fault =
    | ImproperRange      // Exception('Improper warning/critical format.')
    | InvalidLiteral     // ValueError raised by int()
    | NoneOperand        // TypeError from using None where a string is needed
    | ZeroDivision       // ZeroDivisionError
    | MissingRow         // the query returned fewer rows than the computation reads
    | UnpicklingFailure  // an unpickling error other than EOFError
    | FormatError        // ValueError or TypeError raised by `template % argument`

  /**
   * A metric value as the probes hold it: a number, or `None` (the first run
   * of a delta query in the server probe).  Python 2 orders `None` below every
   * number, so `None < x` is true and `None > x` is false.
   */
  datatype PyValue = NoneValue | Num(x: real)

  /** `v < bound`: `None` lies below every number. */
  function Less(v: PyValue, bound: real): (b: bool)
    ensures v.NoneValue? ==> b
    ensures v.Num? && b ==> v.x < bound
  {
    v.NoneValue? || v.x < bound
  }

  /** `v > bound`: the mirror of Less, and exactly one of the two holds unless `v` is the bound itself. */
  function Greater(v: PyValue, bound: real): (b: bool)
    ensures v.NoneValue? ==> !b
    ensures v.Num? && b ==> v.x > bound
    ensures b ==> !Less(v, bound)
    ensures !b && !Less(v, bound) <==> v == Num(bound)
  {
    v.Num? && v.x > bound
  }

  /** Python truthiness of an optional string: `None` and "" are false. */
  predicate Truthy(s: Option<string>) {
    s.Some? && |s.value| > 0
  }

  /** `s.find(c)`: the index of the first occurrence of `c`, if any. */
  function Find(s: string, c: char): (r: Option<nat>)
    ensures r.None? ==> forall j :: 0 <= j < |s| ==> s[j] != c
    ensures r.Some? ==> r.value < |s| && s[r.value] == c && forall j :: 0 <= j < r.value ==> s[j] != c
  {
    if |s| == 0 then None
    else if s[0] == c then Some(0)
    else match Find(s[1..], c)
      case None => None
      case Some(i) => Some(i + 1)
  }

  /** `':' in s`. */
  predicate HasColon(s: string) {
    Find(s, ':').Some?
  }

  /** In `x + ":" + y` with no ':' in `x`, the first ':' is the one after `x`. */
  lemma {:induction false} FindAfterColonFree(x: string, y: string)
    requires forall k :: 0 <= k < |x| ==> x[k] != ':'
    ensures Find(x + ":" + y, ':') == Some(|x|)
  {
    if |x| > 0 {
      assert (x + ":" + y)[1..] == x[1..] + ":" + y;
      FindAfterColonFree(x[1..], y);
    }
  }

  /**
   * `s.split(sep)[1]`: the text between the first and the second `sep`, or
   * up to the end when there is only one.  Without any `sep` the split has
   * one field and indexing it raises, modelled as None.
   */
  function SecondField(s: string, sep: char): (r: Option<string>)
    ensures r.None? <==> forall j :: 0 <= j < |s| ==> s[j] != sep
    ensures r.Some? ==> forall j :: 0 <= j < |r.value| ==> r.value[j] != sep
  {
    match Find(s, sep)
    case None => None
    case Some(i) =>
      var rest := s[i + 1..];
      match Find(rest, sep)
      case None => Some(rest)
      case Some(j) => Some(rest[..j])
  }

  /** The second ':'-separated field of `x:y` and of `x:y:z` is `y`. */
  lemma {:induction false} SecondFieldOfJoin(x: string, y: string, z: string)
    requires forall k :: 0 <= k < |x| ==> x[k] != ':'
    requires forall k :: 0 <= k < |y| ==> y[k] != ':'
    ensures SecondField(x + ":" + y, ':') == Some(y)
    ensures SecondField(x + ":" + y + ":" + z, ':') == Some(y)
  {
    FindAfterColonFree(x, y);
    assert (x + ":" + y)[|x| + 1..] == y;
    var tail := y + ":" + z;
    assert x + ":" + y + ":" + z == x + ":" + tail;
    FindAfterColonFree(x, tail);
    assert (x + ":" + tail)[|x| + 1..] == tail;
    FindAfterColonFree(y, z);
    assert tail[..|y|] == y;
  }

  /** The characters C's isspace accepts, which Python 2's int() skips around a literal. */
  predicate IsSpace(c: char) {
    c == ' ' || 9 <= c as int <= 13
  }

  predicate AllSpace(s: string) {
    forall i :: 0 <= i < |s| ==> IsSpace(s[i])
  }

  function TrimStart(s: string): (t: string)
    ensures |t| <= |s| && t == s[|s| - |t|..]
    ensures forall i :: 0 <= i < |s| - |t| ==> IsSpace(s[i])
    ensures |t| > 0 ==> !IsSpace(t[0])
  {
    if |s| > 0 && IsSpace(s[0]) then TrimStart(s[1..]) else s
  }

  function TrimEnd(s: string): (t: string)
    ensures |t| <= |s| && t == s[..|t|]
    ensures forall i :: |t| <= i < |s| ==> IsSpace(s[i])
    ensures |t| > 0 ==> !IsSpace(t[|t| - 1])
  {
    if |s| > 0 && IsSpace(s[|s| - 1]) then TrimEnd(s[..|s| - 1]) else s
  }

  /** White space up to a non-space character is exactly what TrimStart drops. */
  lemma {:induction false} TrimStartAt(s: string, a: nat)
    requires a <= |s| && (forall i :: 0 <= i < a ==> IsSpace(s[i])) && (a < |s| ==> !IsSpace(s[a]))
    ensures TrimStart(s) == s[a..]
  {
  }

  /** White space after a non-space character is exactly what TrimEnd drops. */
  lemma {:induction false} TrimEndAt(s: string, c: nat)
    requires c <= |s| && (forall i :: c <= i < |s| ==> IsSpace(s[i])) && (c > 0 ==> !IsSpace(s[c - 1]))
    ensures TrimEnd(s) == s[..c]
  {
  }

  /** A run of white space, stated on the string's own indices. */
  lemma {:induction false} SpaceRun(s: string, lo: nat, hi: nat)
    requires lo <= hi <= |s|
    ensures AllSpace(s[lo..hi]) <==> forall i :: lo <= i < hi ==> IsSpace(s[i])
  {
    var run := s[lo..hi];
    assert forall i :: lo <= i < hi ==> s[i] == run[i - lo];
  }

  predicate IntegerChar(c: char) {
    IsSpace(c) || IsDigit(c) || c == '+' || c == '-'
  }

  /** What may stand before the digits: nothing for a non-negative value, or a sign that agrees with it followed by white space. */
  predicate SignPart(p: string, k: int) {
    if |p| == 0 then k >= 0
    else ((p[0] == '+' && k >= 0) || (p[0] == '-' && k <= 0)) && AllSpace(p[1..])
  }

  /**
   * `s` read at the cut points `a <= b < c` is an integer literal of value
   * `k`: white space, the sign part, at least one digit spelling |k|, white space.
   */
  predicate LiteralAt(s: string, a: nat, b: nat, c: nat, k: int) {
    && a <= b < c <= |s|
    && AllSpace(s[..a]) && SignPart(s[a..b], k)
    && AllDigits(s[b..c]) && WholeValue(s[b..c]) == (if k < 0 then -k else k)
    && AllSpace(s[c..])
  }

  /** The literals Python 2's `int()` accepts for a string in base 10, with the value each denotes. */
  ghost predicate IsLiteral(s: string, k: int) {
    exists a: nat, b: nat, c: nat :: LiteralAt(s, a, b, c, k)
  }

  /**
   * Python 2's `int(s)` for a string: white space, an optional sign, white
   * space again (the C conversion skips it after the sign too), at least one
   * decimal digit and white space; anything else raises ValueError.
   */
  function ParseInt(s: string): (r: Option<int>)
    ensures r.Some? ==> IsLiteral(s, r.value)
    ensures r.Some? ==> forall i :: 0 <= i < |s| ==> IntegerChar(s[i])
  {
    var u := TrimStart(s);
    var t := TrimEnd(u);
    match ReadSigned(t)
    case None => None
    case Some(k) =>
      ParseIntCuts(s, u, t, k);
      Some(k)
  }

  /** The text between the surrounding white space: a sign, white space and the digits, or the digits alone. */
  function ReadSigned(t: string): Option<int> {
    if |t| > 0 && (t[0] == '-' || t[0] == '+') then
      match ReadDigits(TrimStart(t[1..]))
      case None => None
      case Some(m) => Some(if t[0] == '-' then -m else m)
    else ReadDigits(t)
  }

  function ReadDigits(d: string): Option<int> {
    if |d| > 0 && AllDigits(d) then Some(WholeValue(d)) else None
  }

  /** Where ReadSigned finds its digits. */
  lemma {:induction false} ReadSignedCut(t: string, k: int) returns (j: nat)
    requires ReadSigned(t) == Some(k)
    ensures j < |t| && SignPart(t[..j], k)
    ensures AllDigits(t[j..]) && WholeValue(t[j..]) == (if k < 0 then -k else k)
  {
    if |t| > 0 && (t[0] == '-' || t[0] == '+') {
      var rest := t[1..];
      var d := TrimStart(rest);
      j := |t| - |d|;
      assert t[j..] == d;
      assert AllSpace(t[..j][1..]) by {
        forall i | 0 <= i < j - 1 ensures IsSpace(t[..j][1..][i]) {
          assert t[..j][1..][i] == rest[i];
        }
      }
    } else {
      j := 0;
      assert t[j..] == t;
    }
  }

  /** A sign part followed by digits is read as the value they spell. */
  lemma {:induction false} ReadSignedAt(t: string, j: nat, k: int)
    requires j < |t| && SignPart(t[..j], k)
    requires AllDigits(t[j..]) && WholeValue(t[j..]) == (if k < 0 then -k else k)
    ensures ReadSigned(t) == Some(k)
  {
    assert IsDigit(t[j]) by {
      assert t[j] == t[j..][0];
    }
    if j > 0 {
      SignGap(t, j, k);
    } else {
      assert t[j..] == t;
    }
  }

  /** After a sign, TrimStart drops exactly the white space up to the digits. */
  lemma {:induction false} SignGap(t: string, j: nat, k: int)
    requires 0 < j < |t| && SignPart(t[..j], k) && IsDigit(t[j])
    ensures (t[0] == '+' && k >= 0) || (t[0] == '-' && k <= 0)
    ensures TrimStart(t[1..]) == t[j..]
  {
    assert t[0] == t[..j][0];
    var rest := t[1..];
    assert forall i :: 0 <= i < j - 1 ==> IsSpace(rest[i]) by {
      forall i | 0 <= i < j - 1 ensures IsSpace(rest[i]) {
        assert rest[i] == t[..j][1..][i];
      }
    }
    assert rest[j - 1] == t[j];
    TrimStartAt(rest, j - 1);
    assert rest[j - 1..] == t[j..];
  }

  /** What ParseInt reads is a literal of the value it reports, cut where the trims and the sign fall. */
  lemma {:induction false} ParseIntCuts(s: string, u: string, t: string, k: int)
    requires |u| <= |s| && u == s[|s| - |u|..] && forall i :: 0 <= i < |s| - |u| ==> IsSpace(s[i])
    requires |t| <= |u| && t == u[..|t|] && forall i :: |t| <= i < |u| ==> IsSpace(u[i])
    requires ReadSigned(t) == Some(k)
    ensures IsLiteral(s, k)
    ensures forall i :: 0 <= i < |s| ==> IntegerChar(s[i])
  {
    var a := |s| - |u|;
    SliceOfSlice(s, u, t, a);
    SignedLiteral(s, t, a, a + |t|, k);
  }

  /** Text that reads as `k`, surrounded by white space only, makes a literal of the whole string. */
  lemma {:induction false} SignedLiteral(s: string, t: string, a: nat, c: nat, k: int)
    requires a <= c <= |s| && t == s[a..c]
    requires forall i :: 0 <= i < a ==> IsSpace(s[i])
    requires forall i :: c <= i < |s| ==> IsSpace(s[i])
    requires ReadSigned(t) == Some(k)
    ensures IsLiteral(s, k)
    ensures forall i :: 0 <= i < |s| ==> IntegerChar(s[i])
  {
    var j := ReadSignedCut(t, k);
    LiteralOfCuts(s, t, a, j, c, k);
  }

  /** A prefix of a suffix is a slice of the whole, and white space after the prefix is white space in the whole. */
  lemma {:induction false} SliceOfSlice(s: string, u: string, t: string, a: nat)
    requires a <= |s| && u == s[a..] && |t| <= |u| && t == u[..|t|]
    requires forall i :: |t| <= i < |u| ==> IsSpace(u[i])
    ensures t == s[a..a + |t|]
    ensures forall i :: a + |t| <= i < |s| ==> IsSpace(s[i])
  {
    forall i | a + |t| <= i < |s| ensures IsSpace(s[i]) {
      assert s[i] == u[i - a];
    }
  }

  /** The trimmed text, cut after its sign part, makes a literal of the whole string. */
  lemma {:induction false} LiteralOfCuts(s: string, t: string, a: nat, j: nat, c: nat, k: int)
    requires a <= c <= |s| && t == s[a..c]
    requires forall i :: 0 <= i < a ==> IsSpace(s[i])
    requires forall i :: c <= i < |s| ==> IsSpace(s[i])
    requires j < |t| && SignPart(t[..j], k)
    requires AllDigits(t[j..]) && WholeValue(t[j..]) == (if k < 0 then -k else k)
    ensures LiteralAt(s, a, a + j, c, k)
    ensures forall i :: 0 <= i < |s| ==> IntegerChar(s[i])
  {
    SpaceRun(s, 0, a);
    SpaceRun(s, c, |s|);
    assert s[..a] == s[0..a] && s[c..] == s[c..|s|];
    assert s[a..a + j] == t[..j] && s[a + j..c] == t[j..];
    LiteralChars(s, a, a + j, c, k);
  }

  /** A literal is made of white space, signs and digits only. */
  lemma {:induction false} LiteralChars(s: string, a: nat, b: nat, c: nat, k: int)
    requires LiteralAt(s, a, b, c, k)
    ensures forall i :: 0 <= i < |s| ==> IntegerChar(s[i])
  {
    assert s[..a] == s[0..a] && s[c..] == s[c..|s|];
    SpaceRun(s, 0, a);
    SpaceRun(s, c, |s|);
    if a < b {
      assert s[a..b][1..] == s[a + 1..b];
      SpaceRun(s, a + 1, b);
    }
    forall i | 0 <= i < |s| ensures IntegerChar(s[i]) {
      if i == a && a < b {
        assert s[i] == s[a..b][0];
      } else if b <= i < c {
        assert s[i] == s[b..c][i - b];
      }
    }
  }

  /** The surrounding white space of a literal is exactly what the two trims drop. */
  lemma {:induction false} TrimLiteral(s: string, a: nat, b: nat, c: nat, k: int)
    requires LiteralAt(s, a, b, c, k)
    ensures TrimEnd(TrimStart(s)) == s[a..c]
  {
    LiteralEdges(s, a, b, c, k);
    TrimStartAt(s, a);
    TrimEndOfSuffix(s, a, c);
  }

  /** A literal's edges on the string's own indices: white space outside, non-space at both ends. */
  lemma {:induction false} LiteralEdges(s: string, a: nat, b: nat, c: nat, k: int)
    requires LiteralAt(s, a, b, c, k)
    ensures a < c <= |s| && !IsSpace(s[a]) && IsDigit(s[c - 1])
    ensures forall i :: 0 <= i < a ==> IsSpace(s[i])
    ensures forall i :: c <= i < |s| ==> IsSpace(s[i])
  {
    assert s[..a] == s[0..a] && s[c..] == s[c..|s|];
    SpaceRun(s, 0, a);
    SpaceRun(s, c, |s|);
    assert IsDigit(s[b]) && IsDigit(s[c - 1]) by {
      assert s[b] == s[b..c][0] && s[c - 1] == s[b..c][c - 1 - b];
    }
    if a < b {
      assert s[a] == s[a..b][0];
    }
  }

  /** Trimming the end of `s[a..]` drops exactly the white space after `c`. */
  lemma {:induction false} TrimEndOfSuffix(s: string, a: nat, c: nat)
    requires a < c <= |s| && IsDigit(s[c - 1])
    requires forall i :: c <= i < |s| ==> IsSpace(s[i])
    ensures TrimEnd(s[a..]) == s[a..c]
  {
    var u := s[a..];
    assert forall i :: c - a <= i < |u| ==> IsSpace(u[i]) by {
      forall i | c - a <= i < |u| ensures IsSpace(u[i]) {
        assert u[i] == s[a + i];
      }
    }
    assert u[c - a - 1] == s[c - 1];
    TrimEndAt(u, c - a);
    assert u[..c - a] == s[a..c];
  }

  /** Every literal is read, with its value: with ParseInt's contract, `int(s) == k` exactly when `s` is a literal of `k`. */
  lemma {:induction false} ParseIntReads(s: string, a: nat, b: nat, c: nat, k: int)
    requires LiteralAt(s, a, b, c, k)
    ensures ParseInt(s) == Some(k)
  {
    TrimLiteral(s, a, b, c, k);
    ReadLiteralCore(s, a, b, c, k);
  }

  /** Between its surrounding white space a literal reads as its value. */
  lemma {:induction false} ReadLiteralCore(s: string, a: nat, b: nat, c: nat, k: int)
    requires LiteralAt(s, a, b, c, k)
    ensures ReadSigned(s[a..c]) == Some(k)
  {
    var t := s[a..c];
    assert t[..b - a] == s[a..b] && t[b - a..] == s[b..c];
    ReadSignedAt(t, b - a, k);
  }

  /** White space may follow the sign: `int("- 3")` is -3, as in Python 2. */
  lemma {:induction false} ParseIntSpacedSign()
    ensures ParseInt("- 3") == Some(-3)
  {
    LiteralExample("- 3", 0, 2, 3, -3);
  }

  /** White space may surround the literal: `int(" +7 ")` is 7. */
  lemma {:induction false} ParseIntPadded()
    ensures ParseInt(" +7 ") == Some(7)
  {
    LiteralExample(" +7 ", 1, 2, 3, 7);
  }

  /** A sign after the digits is no literal. */
  lemma {:induction false} ParseIntTrailingSign()
    ensures ParseInt("3 -").None?
  {
    var q := "3 -";
    assert !IsSpace(q[0]) && !IsSpace(q[2]) && IsDigit(q[0]) && !IsDigit(q[1]);
    UnreadableText(q, 1);
  }

  /** Text that starts with a digit, ends in no white space and holds a non-digit is no literal. */
  lemma {:induction false} UnreadableText(s: string, n: nat)
    requires n < |s| && IsDigit(s[0]) && !IsSpace(s[|s| - 1]) && !IsDigit(s[n])
    ensures ParseInt(s).None?
  {
    assert TrimEnd(TrimStart(s)) == s by {
      TrimStartAt(s, 0);
      TrimEndAt(s, |s|);
      assert s[0..] == s && s[..|s|] == s;
    }
    assert ReadSigned(s).None? by {
      assert !AllDigits(s);
    }
  }

  /** A concrete literal with one digit is read as that digit, signed. */
  lemma {:induction false} LiteralExample(s: string, a: nat, b: nat, c: nat, k: int)
    requires a <= b && b + 1 == c <= |s| && IsDigit(s[b]) && DigitValue(s[b]) == (if k < 0 then -k else k)
    requires forall i :: 0 <= i < a ==> IsSpace(s[i])
    requires forall i :: c <= i < |s| ==> IsSpace(s[i])
    requires a < b ==> ((s[a] == '+' && k >= 0) || (s[a] == '-' && k <= 0)) && forall i :: a < i < b ==> IsSpace(s[i])
    requires a == b ==> k >= 0
    ensures ParseInt(s) == Some(k)
  {
    assert s[..a] == s[0..a] && s[c..] == s[c..|s|];
    SpaceRun(s, 0, a);
    SpaceRun(s, c, |s|);
    if a < b {
      assert s[a..b][1..] == s[a + 1..b] && s[a..b][0] == s[a];
      SpaceRun(s, a + 1, b);
    }
    var d := s[b..c];
    assert d[..0] == [] && d[0] == s[b];
    assert LiteralAt(s, a, b, c, k);
    ParseIntReads(s, a, b, c, k);
  }

  lemma {:induction false} ParseIntSignedText(k: int)
    ensures ParseInt(SignedText(k)) == Some(k)
  {
    var digits := DecimalText(if k < 0 then -k else k);
    if k < 0 {
      assert SignedText(k) == "-" + digits;
      ParseIntNegative(digits, k);
    } else {
      assert SignedText(k) == digits;
      ParseIntUnsigned(digits);
    }
  }

  /** Decimal digits read as their value. */
  lemma {:induction false} ParseIntUnsigned(digits: string)
    requires |digits| > 0 && AllDigits(digits)
    ensures ParseInt(digits) == Some(WholeValue(digits))
  {
    assert digits[..0] == "" && digits[0..0] == "" && digits[0..|digits|] == digits && digits[|digits|..] == "";
    ParseIntReads(digits, 0, 0, |digits|, WholeValue(digits));
  }

  /** A '-' followed by decimal digits reads as the negated value. */
  lemma {:induction false} ParseIntNegative(digits: string, k: int)
    requires |digits| > 0 && AllDigits(digits) && k == -(WholeValue(digits) as int)
    ensures ParseInt("-" + digits) == Some(k)
  {
    var s := "-" + digits;
    assert s[..0] == "" && s[0..1] == "-" && s[1..|s|] == digits && s[|s|..] == "";
    ParseIntReads(s, 0, 1, |s|, k);
  }

  /** A rendering that makes `template % argument` reproduce `s` literally. */
  function Escape(s: string): string {
    if |s| == 0 then ""
    else if s[0] == '%' then "%%" + Escape(s[1..])
    else [s[0]] + Escape(s[1..])
  }

  /**
   * `template % argument` for a single string argument: `%%` stands for '%',
   * `%s` takes the argument, and formatting fails when the argument is used
   * twice, is never used, or another conversion appears.
   */
  function Interpolate(template: string, argument: string): (r: Result<string, Fault>)
    ensures r.Failure? ==> r.error == FormatError
  {
    Render(template, argument, false)
  }

  function Render(t: string, argument: string, used: bool): (r: Result<string, Fault>)
    ensures r.Failure? ==> r.error == FormatError
    decreases |t|
  {
    if |t| == 0 then
      if used then Success("") else Failure(FormatError)
    else if t[0] != '%' then
      var rest :- Render(t[1..], argument, used);
      Success([t[0]] + rest)
    else if |t| == 1 then Failure(FormatError)
    else if t[1] == '%' then
      var rest :- Render(t[2..], argument, used);
      Success("%" + rest)
    else if t[1] == 's' && !used then
      var rest :- Render(t[2..], argument, true);
      Success(argument + rest)
    else Failure(FormatError)
  }

  /** `%%` renders as a single '%' in front of the rest. */
  lemma {:induction false} RenderPercent(x: string, argument: string, used: bool)
    ensures Render("%%" + x, argument, used).Success? <==> Render(x, argument, used).Success?
    ensures Render(x, argument, used).Success? ==>
              Render("%%" + x, argument, used).value == "%" + Render(x, argument, used).value
  {
    assert ("%%" + x)[2..] == x;
  }

  /** Any other character renders as itself in front of the rest. */
  lemma {:induction false} RenderLiteral(c: char, x: string, argument: string, used: bool)
    requires c != '%'
    ensures Render([c] + x, argument, used).Success? <==> Render(x, argument, used).Success?
    ensures Render(x, argument, used).Success? ==>
              Render([c] + x, argument, used).value == [c] + Render(x, argument, used).value
  {
    assert ([c] + x)[1..] == x;
  }

  lemma {:induction false} RenderEscaped(p: string, tail: string, argument: string, used: bool)
    ensures Render(Escape(p) + tail, argument, used).Success? <==> Render(tail, argument, used).Success?
    ensures Render(tail, argument, used).Success? ==>
              Render(Escape(p) + tail, argument, used).value == p + Render(tail, argument, used).value
    decreases |p|
  {
    if |p| > 0 {
      var x := Escape(p[1..]) + tail;
      RenderEscaped(p[1..], tail, argument, used);
      if p[0] == '%' {
        assert Escape(p) + tail == "%%" + x;
        RenderPercent(x, argument, used);
      } else {
        assert Escape(p) + tail == [p[0]] + x;
        RenderLiteral(p[0], x, argument, used);
      }
      assert p == [p[0]] + p[1..];
    } else {
      assert Escape(p) + tail == tail;
    }
  }

  /** A template with one placeholder and otherwise escaped text yields that text around the argument. */
  lemma {:induction false} InterpolateOnePlaceholder(p: string, q: string, argument: string)
    ensures Interpolate(Escape(p) + "%s" + Escape(q), argument) == Success(p + argument + q)
  {
    RenderEscaped(q, "", argument, true);
    assert Escape(q) + "" == Escape(q);
    assert q + "" == q;
    var t := "%s" + Escape(q);
    assert t[2..] == Escape(q);
    assert Render(t, argument, false) == Success(argument + q);
    assert Escape(p) + "%s" + Escape(q) == Escape(p) + t;
    RenderEscaped(p, t, argument, false);
    assert p + (argument + q) == p + argument + q;
  }

  /** Without a placeholder the argument is never converted, which raises. */
  lemma {:induction false} InterpolateWithoutPlaceholder(p: string, argument: string)
    ensures Interpolate(Escape(p), argument).Failure?
  {
    RenderEscaped(p, "", argument, false);
    assert Escape(p) + "" == Escape(p);
  }

  /** A second placeholder has no argument left, which raises. */
  lemma {:induction false} InterpolateTwoPlaceholders(p: string, q: string, u: string, argument: string)
    ensures Interpolate(Escape(p) + "%s" + Escape(q) + "%s" + Escape(u), argument).Failure?
  {
    var second := "%s" + Escape(u);
    assert Render(second, argument, true).Failure?;
    RenderEscaped(q, second, argument, true);
    var first := "%s" + (Escape(q) + second);
    assert first[2..] == Escape(q) + second;
    assert Render(first, argument, false).Failure?;
    assert Escape(p) + "%s" + Escape(q) + "%s" + Escape(u) == Escape(p) + first;
    RenderEscaped(p, first, argument, false);
  }
}
