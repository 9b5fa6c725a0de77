# check_mssql_collection probes, modelled in Dafny

Nagios probes for Microsoft SQL Server. `check_mssql_server.py` runs a query
against the server's `master` database. `check_mssql_database.py` runs one
against a named table and substitutes that table name into the SQL first.
A probe turns the query's result into a metric and classifies the metric
against the `-w`/`--warning` and `-c`/`--critical` range options. The
classification is OK (exit 0), WARNING (1) or CRITICAL (2). An exception
escaping the script is UNKNOWN.

The model covers the logic between the rows the database returns and the
status the probe reports:

- **Range options.** `ranges.dfy` gives the grammar of the five threshold
  forms `N`, `N:`, `~:N`, `N:M` and `@N:M` and what each one alerts on.
  `numerals.dfy` gives the number syntax `-?[0-9]+(\.[0-9]+)?`, and
  `digits.dfy` gives exact decimal values. `ServerProbe.WithinRange` and
  `DatabaseProbe.WithinRange` are the two `is_within_range` functions. The
  database one has an `invert` flag.
- **Severity.** `ServerProbe.Classify` is the server's `return_nagios`.
  `DatabaseProbe.Classify` is the database's `return_nagios`. It first decides
  whether to invert the scale by comparing the integer values of the critical
  and warning options (`DatabaseProbe.AutoInvert`).
- **Computations.** There are three:
  - the standard query: first row times the modifier;
  - the divide query: the first row over the second, times the modifier. The
    server probe falls back to the scaled numerator on a zero denominator. The
    database probe raises.
  - the delta query: a per-second rate against the sample stored by the
    previous run.
  The delta query's state is a map from state key to the unpickled content
  of its temporary file (`samples.dfy`). Its key is the host string followed
  by the SQL text, with the table name in between for the database probe.
- **Dispatch.** `execute_query` chooses the computation from the mode's
  `type`. `connect_db` builds the host string. The database probe's
  constructor substitutes the table name into the SQL (`queries.dfy`,
  `Py.Interpolate`).
- **Python 2 semantics.** `python.dfy` holds the Python 2 behaviour these
  depend on:
  - `None` orders below every number;
  - truthiness of an option;
  - `':' in s` and `s.split(':')[1]`;
  - `int()` on a string;
  - `template % argument`.

Both scripts are read as Python 2 programs. Examples: `except X, e` in the
server script, and pickle files opened in text mode.

In these places the code behaves in ways a reader may not expect, and the
model follows it:

- The server's divide query does not raise on a zero denominator. It reports
  the scaled numerator. The database's divide query raises ZeroDivisionError.
- A delta run writes its new sample only after the rate has been computed.
  A run that raises (zero elapsed time, damaged record) leaves the previous
  sample in place.
- Only EOFError counts as "no previous sample". The server's
  `except EOFError, ValueError` catches EOFError alone and binds it to the
  name `ValueError`. The database's `except EOFError as ValueError` does the
  same. Any other unpickling error escapes.
- A stored time of 0 is falsy, so it counts as no previous sample.
- On a delta query's first run the server reports `None`. Python 2 orders
  `None` below zero, so a single-number critical range makes that run
  CRITICAL. The database probe reports 0 instead.
- The thresholds are read only after a delta run has stored its sample. A
  malformed threshold raises but still leaves the sample behind.
- The database probe needs both options:
  - `':' in options.critical` is evaluated first and raises TypeError when
    critical is absent;
  - `int()` of an empty, decimal or open-range value raises ValueError.
  An empty critical option, which the range check alone would ignore,
  therefore raises.

## Model

| member | source | states |
|---|---|---|
| Py.Less | check_mssql_server.py:426-430 | Python 2 orders `None` below every number, so `None < x` always holds; a number that compares less lies below the bound |
| Py.Greater | check_mssql_server.py:426-430 | `None > x` never holds; a number that compares greater lies above the bound; `v > x` excludes `v < x`, and neither holds exactly when `v` is `x` itself |
| Py.Find | check_mssql_database.py:129 | `':' in s`: none of the characters is the separator, or the result is the first position holding it |
| Py.SecondField | check_mssql_database.py:129-131 | `split(':')[1]` fails exactly when there is no ':', and a field it returns holds no ':' |
| Py.SecondFieldOfJoin | check_mssql_database.py:129-131 | with colon-free parts, `x:y` and `x:y:z` both give `y`: the field between the first and second ':' |
| Py.TrimStart | check_mssql_database.py:134 | `int()` drops only leading white space, and all of it |
| Py.TrimEnd | check_mssql_database.py:134 | `int()` drops only trailing white space, and all of it |
| Py.ParseInt | check_mssql_database.py:134 | `int()` of a string succeeds only on a literal: white space, an optional sign followed by optional white space, at least one digit, white space; the value is the one the digits spell, with the sign |
| Py.ParseIntReads | check_mssql_database.py:134 | every such literal is read, with its value, so `int(s) == k` exactly when `s` is a literal of `k` |
| Py.ParseIntSpacedSign | check_mssql_database.py:134 | white space may follow the sign: `int("- 3")` is -3 |
| Py.ParseIntPadded | check_mssql_database.py:134 | white space may surround the literal: `int(" +7 ")` is 7 |
| Py.ParseIntTrailingSign | check_mssql_database.py:134 | a sign after the digits is no literal: `int("3 -")` raises |
| Py.ParseIntSignedText | check_mssql_database.py:134 | every integer's decimal text is read back as that integer |
| Py.ParseIntNegative | check_mssql_database.py:134 | '-' followed by digits is the negated value of the digits |
| Py.Interpolate | check_mssql_database.py:161 | `query % table` can only fail with a formatting error |
| Py.InterpolateOnePlaceholder | check_mssql_database.py:161 | literal text around one `%s` gives that text around the argument, with `%%` standing for '%' |
| Py.InterpolateWithoutPlaceholder | check_mssql_database.py:161 | a template without `%s` rejects its string argument |
| Py.InterpolateTwoPlaceholders | check_mssql_database.py:161 | a template with two `%s` has too few arguments and fails |
| Py.RenderEscaped | check_mssql_database.py:161 | escaped literal text is reproduced unchanged in front of whatever the rest renders to |
| Numerals.LeadingDigits | check_mssql_server.py:424 | the length of the longest run of digits the number pattern's `[0-9]+` can take |
| Numerals.Numeral.Value | check_mssql_server.py:426-430 | `float()` of a numeral is its exact decimal value: the integer digits give the integer part of the magnitude and the sign its sign, and moving the point past the fractional digits gives the signed integer spelled by all the digits |
| Digits.FractionScaled | check_mssql_server.py:426-430 | the digits after a decimal point are worth their whole value divided by ten to their count: moving the point past them gives that whole value |
| Numerals.LexSound | check_mssql_server.py:424-425 | a numeral read from text is well formed and is written exactly as that text |
| Numerals.LexText | check_mssql_server.py:424-425 | every well-formed numeral is read back from its text |
| Numerals.LexAcceptsNumerals | check_mssql_server.py:424-425 | the lexer accepts exactly the strings matching `-?[0-9]+(\.[0-9]+)?` |
| Numerals.NumeralAlphabet | check_mssql_server.py:424-425 | a numeral is non-empty, starts with a digit or '-', ends with a digit and uses only digits, '.' and '-' |
| Numerals.LexSignedText | check_mssql_database.py:134-137 | an integer's canonical decimal text is a single-number range whose `float()` value is that integer |
| Ranges.Alerts | check_mssql_server.py:426-430 | `N` alerts outside [0, N], `N:` below N, `~:N` above N, `N:M` outside [N, M] and `@N:M` inside [N, M]; `None` alerts under `N`, `N:` and `N:M` only |
| Ranges.FormShape | check_mssql_server.py:426-430 | the leading '~' or '@', a trailing ':' and the presence of ':' tell the five forms apart |
| Ranges.FormsExclusive | check_mssql_server.py:426-430 | no string matches two of the five patterns, so the order the patterns are tried in does not matter |
| Ranges.SplitPairMatchesSpan | check_mssql_server.py:429 | splitting at the first ':' into two numerals succeeds exactly when `N:M` matches |
| Ranges.Parse | check_mssql_server.py:431-435 | raises only the improper-format exception; an accepted option is well formed, is written exactly as the input and matches the pattern of the form it was classified as |
| Ranges.ParseComplete | check_mssql_server.py:431-434 | an option matching a pattern is accepted and classified as that pattern's form |
| Ranges.ParseAcceptsExactlyTheForms | check_mssql_server.py:426-435 | an option is accepted exactly when it matches one of the five patterns |
| Ranges.FormatParse | check_mssql_server.py:426-434 | every well-formed range is read back from its text |
| Ranges.FormatInjective | check_mssql_server.py:426-430 | two ranges written alike are the same range |
| Ranges.ColonSplitUnique | check_mssql_server.py:429-430 | `N:M` determines its two numerals |
| Ranges.RejectsMalformedNumbers | check_mssql_server.py:431-435 | "abc", "+5", ".5" and "1e3" match no pattern |
| Ranges.RejectsMalformedShapes | check_mssql_server.py:431-435 | "@5", "~:" and "5:~" match no pattern |
| ServerProbe.WithinRange | check_mssql_server.py:419-435 | an absent or empty option never alerts; otherwise it raises exactly when the option matches none of the five patterns |
| ServerProbe.WithinRangeOfFormat | check_mssql_server.py:426-434 | a well-formed range's text alerts exactly where the range's meaning says |
| ServerProbe.LimitMeaning | check_mssql_server.py:426 | `N` alerts above N and below zero |
| ServerProbe.OneSidedMeaning | check_mssql_server.py:427-428 | `N:` alerts strictly below N and `~:N` strictly above N; the bound itself never alerts |
| ServerProbe.InvertedSpanComplement | check_mssql_server.py:429-430 | `@N:M` alerts exactly where `N:M` does not; the bounds alert only under `@` |
| ServerProbe.MalformedRaises | check_mssql_server.py:435 | a malformed option raises the improper-format exception whatever the value |
| ServerProbe.Classify | check_mssql_server.py:262-271 | CRITICAL exactly when the critical range alerts; WARNING exactly when it does not and the warning range does; raises exactly when a range that is consulted is malformed |
| ServerProbe.CriticalFirst | check_mssql_server.py:263-265 | an alerting critical range decides alone, even beside a malformed warning option |
| ServerProbe.NoThresholdsIsOk | check_mssql_server.py:262-271 | without thresholds every value is OK |
| ServerProbe.LimitBands | check_mssql_server.py:262-271 | with single-number thresholds `w <= c`, negative values and values above c are CRITICAL, values above w are WARNING, the rest OK |
| ServerProbe.Ratio | check_mssql_server.py:322-326 | fewer than two rows raises; otherwise the result times the denominator is the scaled numerator, or the result is the scaled numerator when the denominator is zero |
| ServerProbe.RatioExamples | check_mssql_server.py:322-326 | 45 over 60 with modifier 100 is 75, and 45 over 0 is 4500 |
| ServerProbe.Key | check_mssql_server.py:335-338 | the state key is the host string followed by the SQL text |
| ServerProbe.Calculate | check_mssql_server.py:297-371 | a standard query reports the scaled first row and a divide query the ratio; a delta query without rows raises; with rows it reports `None` exactly when there is no usable previous sample, raises exactly on a damaged record or zero elapsed time, and otherwise reports the rate against the stored sample; only a delta query changes the state, only on success, and only by storing its new sample under its key |
| ServerProbe.Execute | check_mssql_server.py:466-477 | a run whose computation succeeds reports the classification of the computed metric, and one whose computation raises raises the same error; the state left behind is the computation's, whatever the thresholds |
| ServerProbe.FirstDeltaRunIsCritical | check_mssql_server.py:357-364 | a delta query's first run with a single-number critical range is CRITICAL whatever the counter reads |
| ServerProbe.OnlyDeltaTouchesState | check_mssql_server.py:466-477 | standard and divide queries leave the state unchanged, whatever the outcome |
| ServerProbe.MalformedThresholdKeepsSample | check_mssql_server.py:312-315 | a malformed critical option raises only after the delta sample has been stored |
| Samples.LoadPrior | check_mssql_server.py:343-355 | a missing or empty file is no previous sample, a stored record is read as stored, and any other unpickling failure raises |
| Samples.Rate | check_mssql_server.py:362 | the rate times the elapsed time is the scaled change of the counter |
| Samples.Advance | check_mssql_server.py:340-371 | raises exactly on a damaged record other than an empty file, or on zero elapsed time, and then leaves the state alone; otherwise stores the new sample and changes no other file; no rate exactly when there is no record, an empty one or one with time 0 |
| Samples.FirstRunThenRate | check_mssql_server.py:357-371 | a fresh key gives no rate; the next run measures against the sample the first run stored |
| Samples.RateExample | check_mssql_server.py:362 | a counter going from 100 to 130 over ten seconds is a rate of 3 |
| Samples.ZeroElapsedKeepsPrevious | check_mssql_server.py:362-371 | a second run in the same clock tick raises ZeroDivisionError and the first run's sample stays stored |
| Samples.DamagedRecordPersists | check_mssql_server.py:349-355 | a record the unpickler rejects with ValueError makes every run raise and is never replaced |
| Samples.CounterResetIsNegative | check_mssql_server.py:362 | a falling counter with a positive modifier gives a negative rate |
| Nagios.Status.Code | check_mssql_server.py:262-270 | the exit codes are 0, 1 and 2, with 0 exactly for OK and 2 exactly for CRITICAL |
| Nagios.Status.Prefix | check_mssql_server.py:262-270 | every status line prefix ends in ": "; it is "CRITICAL: " exactly for CRITICAL and "WARNING: " exactly for WARNING |
| Nagios.StatusDistinct | check_mssql_server.py:262-270 | the exit code and the prefix each tell the three statuses apart |
| Queries.KindOf | check_mssql_server.py:470-476 | `type` "delta" selects the delta query and "divide" the divide query, exactly |
| Queries.StandardValue | check_mssql_server.py:297-310 | raises exactly when there is no row; otherwise the result over the modifier is the first row, and a zero modifier reports 0 |
| Queries.DefaultModifierIsIdentity | check_mssql_server.py:288-310 | with the constructor's default modifier the first row is reported unchanged |
| Queries.ConnectHost | check_mssql_server.py:437-442 | the hostname, then `\instance` when an instance is given, else `:port` when a port is given; unchanged exactly when neither is given |
| Queries.InstanceWinsOverPort | check_mssql_server.py:439-442 | a port given with an instance changes nothing, and the instance always changes the host |
| DatabaseProbe.WithinRange | check_mssql_database.py:239-258 | an absent or empty option never alerts, inverted or not; otherwise raises exactly when no pattern matches |
| DatabaseProbe.InvertNegates | check_mssql_database.py:251-257 | without inversion it agrees with the server probe's check; with it a well-formed option gives the opposite answer |
| DatabaseProbe.InvertedLimitMeaning | check_mssql_database.py:246-255 | `N` inverted alerts exactly on [0, N] |
| DatabaseProbe.AutoInvert | check_mssql_database.py:124-135 | succeeds only with both options present, and an absent critical option is a TypeError; with both present it raises exactly when a compared text is no integer literal, the compared texts being the fields after the first ':' when both options contain one and the whole options otherwise |
| DatabaseProbe.SignedTextHasNoColon | check_mssql_database.py:129 | an integer option contains no ':' |
| DatabaseProbe.AutoInvertIntegers | check_mssql_database.py:129-135 | integer options invert exactly when critical < warning |
| DatabaseProbe.AutoInvertOnWhole | check_mssql_database.py:129-135 | without ':' in the critical option both options are read whole |
| DatabaseProbe.AutoInvertFields | check_mssql_database.py:129-135 | `p:w` against `q:c` inverts exactly when c < w |
| DatabaseProbe.AutoInvertOnFields | check_mssql_database.py:129-135 | with ':' in both options only the fields after the first ':' are compared |
| DatabaseProbe.AutoInvertRejectsDecimal | check_mssql_database.py:134 | a decimal critical value raises ValueError whatever the warning |
| DatabaseProbe.AutoInvertRejectsEmpty | check_mssql_database.py:129-134 | an empty critical option raises ValueError whatever the warning |
| DatabaseProbe.AutoInvertRejectsOpenRanges | check_mssql_database.py:129-134 | two open ranges `N:` leave empty fields, which raise ValueError |
| DatabaseProbe.Classify | check_mssql_database.py:123-145 | CRITICAL and WARNING exactly as the critical-then-warning rule with the derived orientation says; raises exactly when the orientation cannot be derived or a consulted range is malformed, so OK is the remaining case |
| DatabaseProbe.MissingThresholdRaises | check_mssql_database.py:125-134 | without both options every run raises, and an absent critical option is a TypeError |
| DatabaseProbe.InvertedBands | check_mssql_database.py:134-145 | integer thresholds `c < w`: [0, c] is CRITICAL, (c, w] WARNING, the rest OK |
| DatabaseProbe.UprightBands | check_mssql_database.py:134-145 | integer thresholds `w <= c` keep the usual bands, with negative values CRITICAL |
| DatabaseProbe.Ratio | check_mssql_database.py:191-192 | fewer than two rows raises; a zero denominator raises ZeroDivisionError; otherwise the result times the denominator is the scaled numerator |
| DatabaseProbe.RatioAgreesWithServer | check_mssql_database.py:191-192 | agrees with the server probe's ratio except on a zero denominator, where only the server answers |
| DatabaseProbe.Key | check_mssql_database.py:201-204 | the state key is host, table and SQL text joined in that order |
| DatabaseProbe.KeyCollision | check_mssql_database.py:203 | joining without a separator lets two host and table pairs share one state file |
| DatabaseProbe.Instantiate | check_mssql_database.py:160-161 | substituting the table name fails only with a formatting error |
| DatabaseProbe.InstantiateOnePlaceholder | check_mssql_database.py:161 | literal SQL around one `%s` gives that SQL around the table name |
| DatabaseProbe.Calculate | check_mssql_database.py:169-237 | a template that cannot take the table name raises; then a standard query reports the scaled first row and a divide query the ratio; a delta query without rows raises; with rows it raises exactly on a damaged record or zero elapsed time, reports 0 without a usable previous sample and the rate otherwise; only a delta query changes the state, and only on success |
| DatabaseProbe.DeltaFirstRunThenRate | check_mssql_database.py:223-237 | a fresh key reports 0 and stores the sample; the next run reports the rate against it |
| DatabaseProbe.Execute | check_mssql_database.py:338-349 | a run whose computation succeeds reports the classification of the computed metric, and one whose computation raises raises the same error; the state left behind is the computation's, whatever the thresholds |
| DatabaseProbe.MissingWarningKeepsSample | check_mssql_database.py:184-187 | a run without a warning option raises, after a delta query has stored its sample |

## Left out

- The database driver: connecting, cursors and `fetchone`/`fetchall`. A result is modelled as the first column of each row, in order, as a real. SQL NULL cells and non-numeric columns are left out.
- The MODES tables: their SQL texts, labels, units, help texts and modifiers. A mode is modelled as SQL text with an optional `type` and an optional modifier.
- Option parsing (`parse_args`): required options, the refusal of an instance together with a port, and the one-mode rule. The option values are parameters.
- `main`: the time-to-connect mode, the `test` mode and `run_tests`. These measure connection time or print results.
- Files and pickling: temporary file names, `tempfile`, creating a missing file, and what pickle writes. The state is a map from key to what unpickling yields. A failure to write (IOError) is not modelled.
- `hash()` of the key: the key is the string itself, so collisions of the hash are not modelled.
- Concurrent runs: two probe runs racing on the same state file are not modelled, because one store is threaded through one run at a time.
- The clock: `time.time()` readings are the parameters `now` and `writeTime`.
- Floating point: metrics and bounds are exact reals. `float()` of a numeral is its exact decimal value.
- The status line written to stdout (`str(result)`, the message template and the performance data) and the `NagiosReturn` exception that carries it. The status is returned as a value. Every mode's message template takes exactly one value.
- Python's `re` accepts a trailing newline before `$`. Options are modelled without a trailing newline.
- Py.ParseInt: reads an option as a Python 2 byte string in base 10; Unicode options and their digits are not modelled.
- Py.Interpolate: models only the `%s` and `%%` conversions, the only ones the MODES templates use.
- Exit codes: the status is returned, not raised, and an exception escaping a run (the UNKNOWN exit) is a `Failure` result naming it.
