/**
 * The per-database probe.  It shares the threshold grammar with the server
 * probe but may invert both checks ("lower is worse"), divides without a
 * zero guard, reports 0 on a delta query's first run, and builds its SQL and
 * its state key from the table name as well.
 */
module DatabaseProbe {
  import opened Wrappers
  import opened Digits
  import opened Py
  import opened Numerals
  import opened Ranges
  import opened Nagios
  import opened Samples
  import opened Queries
  import ServerProbe

  /**
   * `is_within_range` with its `invert` flag: the same five forms, with the
   * answer negated when `invert` is set.  An absent or empty option is never
   * alerting, inverted or not.
   */
  function WithinRange(spec: Option<string>, x: real, invert: bool): (r: Result<bool, Fault>)
    ensures !Truthy(spec) ==> r == Success(false)
    ensures r.Failure? <==> Truthy(spec) && forall f :: !Matches(spec.value, f)
    ensures r.Failure? ==> r.error == ImproperRange
  {
    if !Truthy(spec) then Success(false)
    else
      ParseAcceptsExactlyTheForms(spec.value);
      match Parse(spec.value)
      case Failure(e) => Failure(e)
      case Success(range) =>
        var alerts := Alerts(range, Num(x));
        Success(if invert then !alerts else alerts)
  }

  /**
   * Without inversion the check agrees with the server probe's on every
   * option and value; with it, a well-formed option gives the opposite answer.
   */
  lemma {:induction false} InvertNegates(spec: Option<string>, x: real)
    ensures WithinRange(spec, x, false) == ServerProbe.WithinRange(spec, Num(x))
    ensures WithinRange(spec, x, true).Success? <==> WithinRange(spec, x, false).Success?
    ensures Truthy(spec) && WithinRange(spec, x, false).Success? ==>
              WithinRange(spec, x, true).value == !WithinRange(spec, x, false).value
  {
  }

  /** `N` inverted alerts exactly on the closed interval [0, N]. */
  lemma {:induction false} InvertedLimitMeaning(n: Numeral, x: real)
    requires n.Valid()
    ensures WithinRange(Some(n.Text()), x, true) == Success(0.0 <= x <= n.Value())
  {
    ServerProbe.LimitMeaning(n, x);
    InvertNegates(Some(n.Text()), x);
  }

  /**
   * The orientation rule of `return_nagios`: invert when the critical value
   * is below the warning value.  Both options must be present and, once a
   * ':'-field has been taken from each when both contain one, be integer
   * literals; otherwise it raises before anything is classified.
   */
  function AutoInvert(warning: Option<string>, critical: Option<string>): (r: Result<bool, Fault>)
    ensures r.Success? ==> warning.Some? && critical.Some?
    ensures critical.None? ==> r == Failure(NoneOperand)
    ensures warning.None? ==> r.Failure?
    ensures r.Failure? ==> r.error == NoneOperand || r.error == InvalidLiteral
    ensures warning.Some? && critical.Some? && HasColon(critical.value) && HasColon(warning.value) ==>
              (r.Failure? <==>
                 ParseInt(SecondField(critical.value, ':').value).None? ||
                 ParseInt(SecondField(warning.value, ':').value).None?)
    ensures warning.Some? && critical.Some? && !(HasColon(critical.value) && HasColon(warning.value)) ==>
              (r.Failure? <==> ParseInt(critical.value).None? || ParseInt(warning.value).None?)
  {
    if critical.None? then Failure(NoneOperand)
    else if HasColon(critical.value) && warning.None? then Failure(NoneOperand)
    else
      var both := HasColon(critical.value) && HasColon(warning.value);
      var c := if both then SecondField(critical.value, ':').value else critical.value;
      var w := if both then SecondField(warning.value, ':') else warning;
      match ParseInt(c)
      case None => Failure(InvalidLiteral)
      case Some(ci) =>
        if w.None? then Failure(NoneOperand)
        else match ParseInt(w.value)
          case None => Failure(InvalidLiteral)
          case Some(wi) => Success(ci < wi)
  }

  /** An integer literal has no ':' in it. */
  lemma {:induction false} SignedTextHasNoColon(k: int)
    ensures !HasColon(SignedText(k))
    ensures forall j :: 0 <= j < |SignedText(k)| ==> SignedText(k)[j] != ':'
  {
    LexSignedText(k);
    NumeralEnds(SignedText(k));
  }

  /** Single integers are compared whole: invert exactly when critical < warning. */
  lemma {:induction false} AutoInvertIntegers(w: int, c: int)
    ensures AutoInvert(Some(SignedText(w)), Some(SignedText(c))) == Success(c < w)
  {
    SignedTextHasNoColon(c);
    ParseIntSignedText(c);
    ParseIntSignedText(w);
    AutoInvertOnWhole(SignedText(w), SignedText(c), w, c);
  }

  /** Without a ':' in the critical option, both options are read whole. */
  lemma {:induction false} AutoInvertOnWhole(warning: string, critical: string, w: int, c: int)
    requires !HasColon(critical) && ParseInt(critical) == Some(c) && ParseInt(warning) == Some(w)
    ensures AutoInvert(Some(warning), Some(critical)) == Success(c < w)
  {
  }

  /**
   * When both options contain a ':', the integers after the first ':' are
   * compared: `10:20` against `5:30` compares 20 with 30.
   */
  lemma {:induction false} AutoInvertFields(p: string, q: string, w: int, c: int)
    requires forall k :: 0 <= k < |p| ==> p[k] != ':'
    requires forall k :: 0 <= k < |q| ==> q[k] != ':'
    ensures AutoInvert(Some(p + ":" + SignedText(w)), Some(q + ":" + SignedText(c))) == Success(c < w)
  {
    var ws, cs := SignedText(w), SignedText(c);
    SignedTextHasNoColon(c);
    SignedTextHasNoColon(w);
    FieldAfterColon(p, ws);
    FieldAfterColon(q, cs);
    ParseIntSignedText(c);
    ParseIntSignedText(w);
    AutoInvertOnFields(p + ":" + ws, q + ":" + cs, w, c);
  }

  /** With a ':' in both options, only their second fields matter. */
  lemma {:induction false} AutoInvertOnFields(warning: string, critical: string, w: int, c: int)
    requires HasColon(warning) && HasColon(critical)
    requires SecondField(warning, ':').Some? && ParseInt(SecondField(warning, ':').value) == Some(w)
    requires SecondField(critical, ':').Some? && ParseInt(SecondField(critical, ':').value) == Some(c)
    ensures AutoInvert(Some(warning), Some(critical)) == Success(c < w)
  {
  }

  lemma {:induction false} FieldAfterColon(p: string, y: string)
    requires forall k :: 0 <= k < |p| ==> p[k] != ':'
    requires forall k :: 0 <= k < |y| ==> y[k] != ':'
    ensures HasColon(p + ":" + y) && SecondField(p + ":" + y, ':') == Some(y)
  {
    SecondFieldOfJoin(p, y, "");
    FindAfterColonFree(p, y);
  }

  /** The rule is partial: a decimal critical value raises ValueError, whatever the warning. */
  lemma {:induction false} AutoInvertRejectsDecimal(warning: Option<string>)
    ensures AutoInvert(warning, Some("10.5")) == Failure(InvalidLiteral)
  {
    assert !HasColon("10.5") by {
      assert forall j :: 0 <= j < |"10.5"| ==> "10.5"[j] != ':';
    }
    assert ParseInt("10.5").None? by {
      assert !IntegerChar("10.5"[2]);
    }
  }

  /** So does an empty critical option, which the range check alone would ignore. */
  lemma {:induction false} AutoInvertRejectsEmpty(warning: Option<string>)
    ensures AutoInvert(warning, Some("")) == Failure(InvalidLiteral)
  {
    assert !HasColon("");
    assert ParseInt("").None?;
  }

  /** Two open ranges `N:` have empty fields after the ':', and int("") raises. */
  lemma {:induction false} AutoInvertRejectsOpenRanges()
    ensures AutoInvert(Some("20:"), Some("10:")) == Failure(InvalidLiteral)
  {
    FieldAfterColon("10", "");
    FieldAfterColon("20", "");
    assert "10" + ":" + "" == "10:";
    assert "20" + ":" + "" == "20:";
    assert ParseInt("").None?;
  }

  /**
   * `return_nagios`: derive the orientation, then check critical and, only
   * when it does not alert, warning, both with the same orientation.
   */
  function Classify(warning: Option<string>, critical: Option<string>, x: real): (r: Result<Status, Fault>)
    ensures r.Success? ==> AutoInvert(warning, critical).Success?
    ensures r == Success(Critical) <==>
              AutoInvert(warning, critical).Success? &&
              WithinRange(critical, x, AutoInvert(warning, critical).value) == Success(true)
    ensures r == Success(Warning) <==>
              AutoInvert(warning, critical).Success? &&
              WithinRange(critical, x, AutoInvert(warning, critical).value) == Success(false) &&
              WithinRange(warning, x, AutoInvert(warning, critical).value) == Success(true)
    ensures r.Failure? <==>
              AutoInvert(warning, critical).Failure? ||
              var invert := AutoInvert(warning, critical).value;
              WithinRange(critical, x, invert).Failure? ||
              (WithinRange(critical, x, invert) == Success(false) && WithinRange(warning, x, invert).Failure?)
  {
    var invert :- AutoInvert(warning, critical);
    var critical :- WithinRange(critical, x, invert);
    if critical then Success(Critical)
    else
      var warning :- WithinRange(warning, x, invert);
      Success(if warning then Warning else Ok)
  }

  /** Unlike the server probe, the database probe cannot run without both thresholds. */
  lemma {:induction false} MissingThresholdRaises(warning: Option<string>, critical: Option<string>, x: real)
    requires warning.None? || critical.None?
    ensures Classify(warning, critical, x).Failure?
    ensures critical.None? ==> Classify(warning, critical, x) == Failure(NoneOperand)
  {
  }

  /**
   * Single-integer thresholds with `c < w` turn the scale upside down:
   * [0, c] is CRITICAL, (c, w] is WARNING, and values above w or below zero
   * are OK.
   */
  lemma {:induction false} InvertedBands(w: int, c: int, x: real)
    requires c < w
    ensures var s := Classify(Some(SignedText(w)), Some(SignedText(c)), x);
            && (x < 0.0 || x > w as real ==> s == Success(Ok))
            && (0.0 <= x <= c as real ==> s == Success(Critical))
            && (0.0 <= x && c as real < x <= w as real ==> s == Success(Warning))
  {
    AutoInvertIntegers(w, c);
    LexSignedText(c);
    LexSignedText(w);
    LexSound(SignedText(c));
    LexSound(SignedText(w));
    InvertedLimitMeaning(Lex(SignedText(c)).value, x);
    InvertedLimitMeaning(Lex(SignedText(w)).value, x);
  }

  /**
   * Single-integer thresholds with `w <= c` keep the usual orientation, in
   * which a negative value is CRITICAL.
   */
  lemma {:induction false} UprightBands(w: int, c: int, x: real)
    requires w <= c
    ensures var s := Classify(Some(SignedText(w)), Some(SignedText(c)), x);
            && (x < 0.0 || x > c as real ==> s == Success(Critical))
            && (0.0 <= x && w as real < x <= c as real ==> s == Success(Warning))
            && (0.0 <= x <= w as real ==> s == Success(Ok))
  {
    AutoInvertIntegers(w, c);
    LexSignedText(c);
    LexSignedText(w);
    LexSound(SignedText(c));
    LexSound(SignedText(w));
    ServerProbe.LimitMeaning(Lex(SignedText(c)).value, x);
    ServerProbe.LimitMeaning(Lex(SignedText(w)).value, x);
    InvertNegates(Some(SignedText(c)), x);
    InvertNegates(Some(SignedText(w)), x);
  }

  /**
   * `MSSQLDivideQuery.calculate_result` without the server probe's guard:
   * a zero denominator raises ZeroDivisionError.
   */
  function Ratio(rows: seq<real>, modifier: real): (r: Result<real, Fault>)
    ensures |rows| < 2 ==> r == Failure(MissingRow)
    ensures |rows| >= 2 && rows[1] == 0.0 ==> r == Failure(ZeroDivision)
    ensures r.Success? ==> |rows| >= 2 && rows[1] != 0.0 && r.value * rows[1] == rows[0] * modifier
  {
    if |rows| < 2 then Failure(MissingRow)
    else if rows[1] == 0.0 then Failure(ZeroDivision)
    else Success(rows[0] / rows[1] * modifier)
  }

  /** The two probes' ratios agree except on a zero denominator, where only the server's answers. */
  lemma {:induction false} RatioAgreesWithServer(rows: seq<real>, modifier: real)
    ensures |rows| >= 2 && rows[1] != 0.0 ==> Ratio(rows, modifier) == ServerProbe.Ratio(rows, modifier)
    ensures |rows| >= 2 && rows[1] == 0.0 ==> Ratio(rows, modifier).Failure? && ServerProbe.Ratio(rows, modifier).Success?
  {
  }

  /** The state key: host string, table name and instantiated SQL, simply joined. */
  function Key(host: string, table: string, query: string): (key: string)
    ensures |key| == |host| + |table| + |query|
    ensures key[..|host|] == host && key[|host|..|host| + |table|] == table && key[|host| + |table|..] == query
  {
    host + table + query
  }

  /** Joining is not injective: host "xa" with table "b" shares its state with host "x" and table "ab". */
  lemma {:induction false} KeyCollision(query: string)
    ensures Key("xa", "b", query) == Key("x", "ab", query)
  {
    assert "xa" + "b" == "x" + "ab";
  }

  /**
   * `MSSQLQuery.__init__`: the mode's SQL with the table name substituted
   * for its one `%s`; `%%` stands for a literal '%'.
   */
  function Instantiate(mode: Mode, table: string): (r: Result<string, Fault>)
    ensures r.Failure? ==> r.error == FormatError
  {
    Interpolate(mode.query, table)
  }

  /** A template that is literal text around one `%s` gives that text around the table name. */
  lemma {:induction false} InstantiateOnePlaceholder(p: string, q: string, kind: Option<string>, modifier: Option<real>, table: string)
    ensures Instantiate(Mode(Escape(p) + "%s" + Escape(q), kind, modifier), table) == Success(p + table + q)
  {
    InterpolateOnePlaceholder(p, q, table);
  }

  /**
   * `MSSQLQuery.do` up to the result, preceded by the constructor's
   * substitution: a template that cannot take the table name raises before
   * anything is read.  A delta query's first run reports 0.
   */
  function Calculate(mode: Mode, host: string, table: string, rows: seq<real>, store: Store,
                     now: real, writeTime: real): (r: Step<real>)
    ensures KindOf(mode.kind) != Delta ==> r.store == store
    ensures r.result.Failure? ==> r.store == store
    ensures r.result.Success? ==> Instantiate(mode, table).Success?
    ensures r.result.Success? && KindOf(mode.kind) == Delta ==>
              |rows| > 0 &&
              RecordsOnly(store, r.store, Key(host, table, Instantiate(mode, table).value), Sample(writeTime, rows[0]))
    ensures Instantiate(mode, table).Failure? ==> r.result == Failure(FormatError)
    ensures Instantiate(mode, table).Success? && KindOf(mode.kind) == Standard ==>
              r.result == StandardValue(rows, mode.Scale())
    ensures Instantiate(mode, table).Success? && KindOf(mode.kind) == Divide ==>
              r.result == Ratio(rows, mode.Scale())
    ensures Instantiate(mode, table).Success? && KindOf(mode.kind) == Delta && |rows| == 0 ==>
              r.result == Failure(MissingRow)
    ensures Instantiate(mode, table).Success? && KindOf(mode.kind) == Delta && |rows| > 0 ==>
              var key := Key(host, table, Instantiate(mode, table).value);
              && (r.result.Failure? <==>
                    key in store &&
                    ((store[key].Damaged? && store[key].failure != EndOfInput) ||
                     (store[key].Saved? && store[key].sample.time != 0.0 && store[key].sample.time == now)))
              && ((key !in store || store[key] == Damaged(EndOfInput) ||
                   (store[key].Saved? && store[key].sample.time == 0.0)) ==> r.result == Success(0.0))
              && (key in store && store[key].Saved? && store[key].sample.time != 0.0 && store[key].sample.time != now ==>
                    r.result == Success(Rate(store[key].sample, rows[0], now, mode.Scale())))
  {
    match Instantiate(mode, table)
    case Failure(e) => Step(Failure(e), store)
    case Success(query) =>
      match KindOf(mode.kind)
      case Standard => Step(StandardValue(rows, mode.Scale()), store)
      case Divide => Step(Ratio(rows, mode.Scale()), store)
      case Delta =>
        if |rows| == 0 then Step(Failure(MissingRow), store)
        else
          var step := Advance(store, Key(host, table, query), rows[0], now, writeTime, mode.Scale());
          Step(if step.result.Failure? then Failure(step.result.error)
               else if step.result.value.Some? then Success(step.result.value.value)
               else Success(0.0),
               step.store)
  }

  /** On a fresh key a delta query reports 0 and stores its sample; the next run reports the rate. */
  lemma {:induction false} DeltaFirstRunThenRate(mode: Mode, host: string, table: string, query: string,
                                                 v0: real, v1: real, t0: real, now1: real, t1: real, store: Store)
    requires KindOf(mode.kind) == Delta && Instantiate(mode, table) == Success(query)
    requires Key(host, table, query) !in store && t0 != 0.0 && now1 != t0
    ensures var first := Calculate(mode, host, table, [v0], store, t0, t0);
            && first.result == Success(0.0)
            && Calculate(mode, host, table, [v1], first.store, now1, t1).result
               == Success(Rate(Sample(t0, v0), v1, now1, mode.Scale()))
  {
    FirstRunThenRate(store, Key(host, table, query), v0, t0, t0, v1, now1, t1, mode.Scale());
  }

  /**
   * `execute_query`: compute, then classify.  As in the server probe the
   * thresholds are read only after the delta state has been written.
   */
  function Execute(warning: Option<string>, critical: Option<string>, mode: Mode, host: string,
                   table: string, rows: seq<real>, store: Store, now: real, writeTime: real): (r: Step<Status>)
    ensures r.store == Calculate(mode, host, table, rows, store, now, writeTime).store
    ensures var metric := Calculate(mode, host, table, rows, store, now, writeTime).result;
            metric.Success? ==> r.result == Classify(warning, critical, metric.value)
    ensures var metric := Calculate(mode, host, table, rows, store, now, writeTime).result;
            metric.Failure? ==> r.result == Failure(metric.error)
  {
    var metric := Calculate(mode, host, table, rows, store, now, writeTime);
    match metric.result
    case Failure(e) => Step(Failure(e), metric.store)
    case Success(x) => Step(Classify(warning, critical, x), metric.store)
  }

  /**
   * A run without a warning option raises, but a delta query has already
   * written its new sample by then.
   */
  lemma {:induction false} MissingWarningKeepsSample(critical: Option<string>, mode: Mode, host: string,
                                                     table: string, query: string, rows: seq<real>,
                                                     store: Store, now: real, writeTime: real)
    requires KindOf(mode.kind) == Delta && Instantiate(mode, table) == Success(query)
    requires |rows| > 0 && Key(host, table, query) !in store
    ensures var r := Execute(None, critical, mode, host, table, rows, store, now, writeTime);
            && r.result.Failure?
            && r.store[Key(host, table, query)] == Saved(Sample(writeTime, rows[0]))
  {
    var metric := Calculate(mode, host, table, rows, store, now, writeTime);
    assert metric.result.Success?;
    MissingThresholdRaises(None, critical, metric.result.value);
  }
}
