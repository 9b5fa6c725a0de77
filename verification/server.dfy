/**
 * The server-wide probe: a threshold check that never inverts, a ratio that
 * falls back to the numerator when the denominator is zero, and a delta
 * query whose first run reports `None`.
 */
module ServerProbe {
  import opened Wrappers
  import opened Py
  import opened Numerals
  import opened Ranges
  import opened Nagios
  import opened Samples
  import opened Queries

  /**
   * Whether `v` lies in the alert range of a warning or critical option.  An
   * absent or empty option never alerts; any other text must have one of the
   * five forms or the check raises.
   */
  function WithinRange(spec: Option<string>, v: PyValue): (r: Result<bool, Fault>)
    ensures !Truthy(spec) ==> r == Success(false)
    ensures r.Failure? <==> Truthy(spec) && forall f :: !Matches(spec.value, f)
    ensures r.Failure? ==> r.error == ImproperRange
  {
    if !Truthy(spec) then Success(false)
    else
      ParseAcceptsExactlyTheForms(spec.value);
      match Parse(spec.value)
      case Failure(e) => Failure(e)
      case Success(range) =>
        Success(Alerts(range, v))
  }

  /** The meaning of a range's written form, independent of how it is parsed. */
  lemma {:induction false} WithinRangeOfFormat(r: Range, v: PyValue)
    requires r.Valid()
    ensures WithinRange(Some(Format(r)), v) == Success(Alerts(r, v))
  {
    FormatParse(r);
    MatchesFormat(r);
    FormShape(Format(r), FormOf(r));
  }

  /** `N` alerts above N and below zero; a negative value always alerts. */
  lemma {:induction false} LimitMeaning(n: Numeral, x: real)
    requires n.Valid()
    ensures WithinRange(Some(n.Text()), Num(x)) == Success(x > n.Value() || x < 0.0)
  {
    WithinRangeOfFormat(Limit(n), Num(x));
  }

  /** `N:` alerts strictly below N, `~:N` strictly above N; the bound itself never alerts. */
  lemma {:induction false} OneSidedMeaning(n: Numeral, x: real)
    requires n.Valid()
    ensures WithinRange(Some(n.Text() + ":"), Num(x)) == Success(x < n.Value())
    ensures WithinRange(Some("~:" + n.Text()), Num(x)) == Success(x > n.Value())
    ensures WithinRange(Some(n.Text() + ":"), Num(n.Value())) == Success(false)
    ensures WithinRange(Some("~:" + n.Text()), Num(n.Value())) == Success(false)
  {
    WithinRangeOfFormat(LowerOnly(n), Num(x));
    WithinRangeOfFormat(UpperOnly(n), Num(x));
    WithinRangeOfFormat(LowerOnly(n), Num(n.Value()));
    WithinRangeOfFormat(UpperOnly(n), Num(n.Value()));
  }

  /**
   * `@N:M` alerts exactly when `N:M` does not, and both treat the bounds as
   * part of the interval: at N and at M only the `@` form alerts.
   */
  lemma {:induction false} InvertedSpanComplement(a: Numeral, b: Numeral, v: PyValue)
    requires a.Valid() && b.Valid()
    ensures WithinRange(Some(PairText(a, b)), v).Success?
    ensures WithinRange(Some("@" + PairText(a, b)), v) == Success(!WithinRange(Some(PairText(a, b)), v).value)
    ensures a.Value() <= b.Value() ==>
              && WithinRange(Some(PairText(a, b)), Num(a.Value())) == Success(false)
              && WithinRange(Some(PairText(a, b)), Num(b.Value())) == Success(false)
              && WithinRange(Some("@" + PairText(a, b)), Num(a.Value())) == Success(true)
              && WithinRange(Some("@" + PairText(a, b)), Num(b.Value())) == Success(true)
  {
    WithinRangeOfFormat(Span(a, b), v);
    WithinRangeOfFormat(InvertedSpan(a, b), v);
    WithinRangeOfFormat(Span(a, b), Num(a.Value()));
    WithinRangeOfFormat(Span(a, b), Num(b.Value()));
    WithinRangeOfFormat(InvertedSpan(a, b), Num(a.Value()));
    WithinRangeOfFormat(InvertedSpan(a, b), Num(b.Value()));
  }

  /** Text that is none of the five forms raises whatever the value. */
  lemma {:induction false} MalformedRaises(v: PyValue)
    ensures WithinRange(Some("abc"), v) == Failure(ImproperRange)
    ensures WithinRange(Some("+5"), v) == Failure(ImproperRange)
    ensures WithinRange(Some("@5"), v) == Failure(ImproperRange)
    ensures WithinRange(Some("5:~"), v) == Failure(ImproperRange)
  {
    RejectsMalformedNumbers();
    RejectsMalformedShapes();
  }

  /**
   * `return_nagios`: the critical range is checked first and decides alone
   * when it alerts; only otherwise is the warning range checked.
   */
  function Classify(warning: Option<string>, critical: Option<string>, v: PyValue): (r: Result<Status, Fault>)
    ensures r == Success(Critical) <==> WithinRange(critical, v) == Success(true)
    ensures r == Success(Warning) <==>
              WithinRange(critical, v) == Success(false) && WithinRange(warning, v) == Success(true)
    ensures r.Failure? <==>
              WithinRange(critical, v).Failure? ||
              (WithinRange(critical, v) == Success(false) && WithinRange(warning, v).Failure?)
  {
    var critical :- WithinRange(critical, v);
    if critical then Success(Critical)
    else
      var warning :- WithinRange(warning, v);
      Success(if warning then Warning else Ok)
  }

  /** An alerting critical range gives CRITICAL even when the warning option is malformed. */
  lemma {:induction false} CriticalFirst(n: Numeral, warning: Option<string>, x: real)
    requires n.Valid() && x > n.Value()
    ensures Classify(warning, Some(n.Text()), Num(x)) == Success(Critical)
    ensures Classify(warning, Some(n.Text()), Num(x)).value.Code() == 2
  {
    LimitMeaning(n, x);
  }

  /** Without thresholds every value is OK. */
  lemma {:induction false} NoThresholdsIsOk(v: PyValue)
    ensures Classify(None, None, v) == Success(Ok)
    ensures Classify(Some(""), Some(""), v) == Success(Ok)
  {
  }

  /**
   * Single-number thresholds with `w <= c` split the values into bands:
   * negative or above c is CRITICAL, above w is WARNING, the rest OK.
   */
  lemma {:induction false} LimitBands(w: Numeral, c: Numeral, x: real)
    requires w.Valid() && c.Valid() && w.Value() <= c.Value()
    ensures var s := Classify(Some(w.Text()), Some(c.Text()), Num(x));
            && (x < 0.0 || x > c.Value() ==> s == Success(Critical))
            && (0.0 <= x && w.Value() < x <= c.Value() ==> s == Success(Warning))
            && (0.0 <= x <= w.Value() ==> s == Success(Ok))
  {
    LimitMeaning(w, x);
    LimitMeaning(c, x);
  }

  /**
   * `MSSQLDivideQuery.calculate_result` on the first two result rows.  A
   * non-zero denominator gives the scaled quotient; a zero one falls back to
   * the scaled numerator instead of raising.
   */
  function Ratio(rows: seq<real>, modifier: real): (r: Result<real, Fault>)
    ensures r.Failure? <==> |rows| < 2
    ensures r.Failure? ==> r.error == MissingRow
    ensures r.Success? && rows[1] != 0.0 ==> r.value * rows[1] == rows[0] * modifier
    ensures r.Success? && rows[1] == 0.0 ==> r.value == rows[0] * modifier
  {
    if |rows| < 2 then Failure(MissingRow)
    else if rows[1] != 0.0 then Success(rows[0] / rows[1] * modifier)
    else Success(rows[0] * modifier)
  }

  /** A hit ratio of 45 out of 60 with modifier 100 is 75 percent; 45 out of 0 is 4500. */
  lemma {:induction false} RatioExamples()
    ensures Ratio([45.0, 60.0], 100.0) == Success(75.0)
    ensures Ratio([45.0, 0.0], 100.0) == Success(4500.0)
  {
    assert Ratio([45.0, 60.0], 100.0).value * 60.0 == 4500.0;
  }

  /** The state key of a delta query: the host string followed by the SQL text. */
  function Key(host: string, query: string): (key: string)
    ensures |key| == |host| + |query| && key[..|host|] == host && key[|host|..] == query
  {
    host + query
  }

  /** The metric a delta run reports: the rate, or `None` when there was no usable record. */
  function Reported(rate: Option<real>): (v: PyValue)
    ensures v.NoneValue? <==> rate.None?
    ensures rate.Some? ==> v == Num(rate.value)
  {
    if rate.Some? then Num(rate.value) else NoneValue
  }

  function AsValue(r: Result<real, Fault>): Result<PyValue, Fault> {
    if r.Success? then Success(Num(r.value)) else Failure(r.error)
  }

  /**
   * `MSSQLQuery.do` up to the result: read the rows, then compute by kind.
   * Only a delta query reads or writes the store; the rows are read first,
   * so a query without rows raises before the state file is touched.
   */
  function Calculate(mode: Mode, host: string, rows: seq<real>, store: Store, now: real, writeTime: real)
    : (r: Step<PyValue>)
    ensures KindOf(mode.kind) != Delta ==> r.store == store
    ensures r.result.Success? && KindOf(mode.kind) == Delta ==>
              |rows| > 0 && RecordsOnly(store, r.store, Key(host, mode.query), Sample(writeTime, rows[0]))
    ensures r.result.Failure? ==> r.store == store
    ensures r.result.Success? && r.result.value.NoneValue? ==> KindOf(mode.kind) == Delta
    ensures KindOf(mode.kind) == Standard ==> r.result == AsValue(StandardValue(rows, mode.Scale()))
    ensures KindOf(mode.kind) == Divide ==> r.result == AsValue(Ratio(rows, mode.Scale()))
    ensures KindOf(mode.kind) == Delta && |rows| == 0 ==> r.result == Failure(MissingRow)
    ensures KindOf(mode.kind) == Delta && |rows| > 0 ==>
              var key := Key(host, mode.query);
              && (r.result == Success(NoneValue) <==>
                    key !in store || store[key] == Damaged(EndOfInput) ||
                    (store[key].Saved? && store[key].sample.time == 0.0))
              && (r.result.Failure? <==>
                    key in store &&
                    ((store[key].Damaged? && store[key].failure != EndOfInput) ||
                     (store[key].Saved? && store[key].sample.time != 0.0 && store[key].sample.time == now)))
    ensures KindOf(mode.kind) == Delta && r.result.Success? && r.result.value.Num? ==>
              var key := Key(host, mode.query);
              && |rows| > 0 && key in store && store[key].Saved?
              && store[key].sample.time != now
              && r.result.value.x == Rate(store[key].sample, rows[0], now, mode.Scale())
  {
    match KindOf(mode.kind)
    case Standard =>
      Step(AsValue(StandardValue(rows, mode.Scale())), store)
    case Divide =>
      Step(AsValue(Ratio(rows, mode.Scale())), store)
    case Delta =>
      if |rows| == 0 then Step(Failure(MissingRow), store)
      else
        var step := Advance(store, Key(host, mode.query), rows[0], now, writeTime, mode.Scale());
        Step(if step.result.Success? then Success(Reported(step.result.value)) else Failure(step.result.error),
             step.store)
  }

  /**
   * `execute_query`: compute the metric, then classify it.  The thresholds
   * are read only after the delta state is written, so a malformed threshold
   * still leaves the new sample behind.
   */
  function Execute(warning: Option<string>, critical: Option<string>, mode: Mode, host: string,
                   rows: seq<real>, store: Store, now: real, writeTime: real): (r: Step<Status>)
    ensures r.store == Calculate(mode, host, rows, store, now, writeTime).store
    ensures var metric := Calculate(mode, host, rows, store, now, writeTime).result;
            metric.Success? ==> r.result == Classify(warning, critical, metric.value)
    ensures var metric := Calculate(mode, host, rows, store, now, writeTime).result;
            metric.Failure? ==> r.result == Failure(metric.error)
  {
    var metric := Calculate(mode, host, rows, store, now, writeTime);
    match metric.result
    case Failure(e) => Step(Failure(e), metric.store)
    case Success(v) => Step(Classify(warning, critical, v), metric.store)
  }

  /**
   * The first run of a delta query reports `None`, which Python 2 orders
   * below zero; a single-number critical range therefore alerts, and the run
   * is CRITICAL whatever the counter reads.
   */
  lemma {:induction false} FirstDeltaRunIsCritical(warning: Option<string>, n: Numeral, query: string, host: string,
                                                   modifier: Option<real>, rows: seq<real>, store: Store,
                                                   now: real, writeTime: real)
    requires n.Valid() && |rows| > 0 && Key(host, query) !in store
    ensures var r := Execute(warning, Some(n.Text()), Mode(query, Some("delta"), modifier), host,
                             rows, store, now, writeTime);
            r.result == Success(Critical) && r.store[Key(host, query)] == Saved(Sample(writeTime, rows[0]))
  {
    WithinRangeOfFormat(Limit(n), NoneValue);
  }

  /** Standard and ratio queries never touch the delta state, whatever the outcome. */
  lemma {:induction false} OnlyDeltaTouchesState(warning: Option<string>, critical: Option<string>, mode: Mode, host: string,
                              rows: seq<real>, store: Store, now: real, writeTime: real)
    requires KindOf(mode.kind) != Delta
    ensures Execute(warning, critical, mode, host, rows, store, now, writeTime).store == store
  {
  }

  /**
   * A malformed critical option makes the run raise, but only after a delta
   * query has stored its new sample: the next run measures against it.
   */
  lemma {:induction false} MalformedThresholdKeepsSample(query: string, host: string, modifier: Option<real>,
                                                         rows: seq<real>, store: Store, now: real, writeTime: real)
    requires |rows| > 0 && Key(host, query) !in store
    ensures var r := Execute(None, Some("abc"), Mode(query, Some("delta"), modifier), host,
                             rows, store, now, writeTime);
            && r.result == Failure(ImproperRange)
            && r.store[Key(host, query)] == Saved(Sample(writeTime, rows[0]))
  {
    RejectsMalformedNumbers();
  }
}
