/**
 * The state a delta query keeps between runs: one pickled record per key,
 * holding the time and raw counter value of the previous run.  Files are
 * modelled as a map from key to what unpickling the file produces.
 */
module Samples {
  import opened Wrappers
  import opened Py

  datatype Sample = Sample(time: real, value: real)

  /** What the unpickler raises on a file that holds no sample. */
  datatype LoadFailure =
    | EndOfInput    // EOFError: an empty (or freshly created) file
    | BadValue      // ValueError: a damaged record
    | OtherFailure  // any other unpickling error

  datatype Slot = Saved(sample: Sample) | Damaged(failure: LoadFailure)

  type Store = map<string, Slot>

  /** The outcome of one run together with the state left behind for the next. */
  datatype Step<+T> = Step(result: Result<T, Fault>, store: Store)

  /**
   * Reads the previous record.  A missing file is created empty, so it reads
   * like an empty one.  Only EOFError counts as "no previous record": the
   * handler `except EOFError, ValueError` catches EOFError alone and binds it
   * to the name ValueError, so a ValueError propagates.
   */
  function LoadPrior(store: Store, key: string): (r: Result<Option<Sample>, Fault>)
    ensures r.Failure? <==> key in store && store[key].Damaged? && store[key].failure != EndOfInput
    ensures r.Failure? ==> r.error == UnpicklingFailure
    ensures r == Success(None) <==> key !in store || store[key] == Damaged(EndOfInput)
    ensures r.Success? && r.value.Some? ==> key in store && store[key] == Saved(r.value.value)
  {
    if key !in store then Success(None)
    else match store[key]
      case Saved(s) => Success(Some(s))
      case Damaged(EndOfInput) => Success(None)
      case Damaged(_) => Failure(UnpicklingFailure)
  }

  /** A record is used only when its time is truthy, that is non-zero. */
  predicate HasBaseline(prior: Option<Sample>) {
    prior.Some? && prior.value.time != 0.0
  }

  /** The store after a successful run: the new sample under `key`, every other file as it was. */
  ghost predicate RecordsOnly(before: Store, after: Store, key: string, sample: Sample) {
    && key in after && after[key] == Saved(sample)
    && (forall k :: k != key ==> (k in after <==> k in before))
    && (forall k :: k != key && k in before ==> after[k] == before[k])
  }

  /**
   * The per-second change since `prev`, scaled by the query's modifier.
   * Stated by what it solves: multiplied by the elapsed time it gives the
   * scaled change of the counter.
   */
  function Rate(prev: Sample, value: real, now: real, modifier: real): (rate: real)
    requires now != prev.time
    ensures rate * (now - prev.time) == (value - prev.value) * modifier
  {
    (value - prev.value) / (now - prev.time) * modifier
  }

  /**
   * One delta-query run.  `now` is the clock reading taken for the rate and
   * `writeTime` the later reading stored with the new sample.  The rate is
   * computed before the new sample is written, so a run that raises leaves
   * the store as it was.  `None` means there was no usable previous record.
   */
  function Advance(store: Store, key: string, value: real, now: real, writeTime: real, modifier: real)
    : (r: Step<Option<real>>)
    ensures r.result.Failure? ==> r.store == store
    ensures r.result.Success? ==> RecordsOnly(store, r.store, key, Sample(writeTime, value))
    ensures r.result.Failure? <==>
              key in store &&
              ((store[key].Damaged? && store[key].failure != EndOfInput) ||
               (store[key].Saved? && store[key].sample.time != 0.0 && store[key].sample.time == now))
    ensures r.result == Success(None) <==>
              key !in store || store[key] == Damaged(EndOfInput) ||
              (store[key].Saved? && store[key].sample.time == 0.0)
    ensures r.result.Success? && r.result.value.Some? ==>
              key in store && store[key].Saved? &&
              var prev := store[key].sample;
              now != prev.time && r.result.value.value == Rate(prev, value, now, modifier)
  {
    match LoadPrior(store, key)
    case Failure(e) => Step(Failure(e), store)
    case Success(prior) =>
      var written := store[key := Saved(Sample(writeTime, value))];
      if HasBaseline(prior) then
        if now == prior.value.time then Step(Failure(ZeroDivision), store)
        else Step(Success(Some(Rate(prior.value, value, now, modifier))), written)
      else Step(Success(None), written)
  }

  /** A fresh key yields no rate; the next run measures against the sample the first one stored. */
  lemma {:induction false} FirstRunThenRate(store: Store, key: string, v0: real, now0: real, t0: real,
                         v1: real, now1: real, t1: real, modifier: real)
    requires key !in store
    requires t0 != 0.0 && now1 != t0
    ensures var first := Advance(store, key, v0, now0, t0, modifier);
            && first.result == Success(None)
            && var second := Advance(first.store, key, v1, now1, t1, modifier);
               second.result == Success(Some(Rate(Sample(t0, v0), v1, now1, modifier)))
  {
    var first := Advance(store, key, v0, now0, t0, modifier);
    assert first.store[key] == Saved(Sample(t0, v0));
  }

  /** A counter going from 100 to 130 over ten seconds is a rate of 3 per second. */
  lemma {:induction false} RateExample(store: Store, key: string)
    requires key !in store
    ensures var first := Advance(store, key, 100.0, 50.0, 50.0, 1.0);
            Advance(first.store, key, 130.0, 60.0, 60.0, 1.0).result == Success(Some(3.0))
  {
    FirstRunThenRate(store, key, 100.0, 50.0, 50.0, 130.0, 60.0, 60.0, 1.0);
    assert Rate(Sample(50.0, 100.0), 130.0, 60.0, 1.0) * 10.0 == 30.0;
  }

  /**
   * Two runs in the same clock tick: the second divides by zero and raises
   * before writing, so the first run's sample is still the stored one.
   */
  lemma {:induction false} ZeroElapsedKeepsPrevious(store: Store, key: string, v0: real, t0: real, v1: real, modifier: real)
    requires key !in store && t0 != 0.0
    ensures var first := Advance(store, key, v0, t0, t0, modifier);
            var second := Advance(first.store, key, v1, t0, t0, modifier);
            && second.result == Failure(ZeroDivision)
            && second.store[key] == Saved(Sample(t0, v0))
  {
    var first := Advance(store, key, v0, t0, t0, modifier);
    assert first.store[key] == Saved(Sample(t0, v0));
  }

  /**
   * A record that makes the unpickler raise ValueError is never replaced:
   * the run raises before writing, and every later run reads the same record.
   */
  lemma {:induction false} DamagedRecordPersists(store: Store, key: string, value: real, now: real, writeTime: real, modifier: real)
    requires key in store && store[key] == Damaged(BadValue)
    ensures var r := Advance(store, key, value, now, writeTime, modifier);
            r.result == Failure(UnpicklingFailure) && r.store == store
  {
  }

  /** With a positive modifier and time moving forward, a falling counter gives a negative rate. */
  lemma {:induction false} CounterResetIsNegative(store: Store, key: string, value: real, now: real, writeTime: real, modifier: real)
    requires key in store && store[key].Saved?
    requires 0.0 < store[key].sample.time < now && value < store[key].sample.value && modifier > 0.0
    ensures var r := Advance(store, key, value, now, writeTime, modifier);
            r.result.Success? && r.result.value.Some? && r.result.value.value < 0.0
  {
    var r := Advance(store, key, value, now, writeTime, modifier);
    var prev := store[key].sample;
    assert r.result.value.value * (now - prev.time) == (value - prev.value) * modifier;
    assert (value - prev.value) * modifier < 0.0;
  }
}
