/**
 The two verbosity levels: the `pr` console printer's level and the logger's
 level. Both are globals that start at INFO; a message of level `m` is
 emitted when `m` is at most the current level (ERROR 0 < WARN 1 < INFO 2 <
 DEBUG 3).
 */
module LogLevel {
  const Error: int := 0
  const Warn: int := 1
  const Info: int := 2
  const Debug: int := 3

  /** `pr_level` and `g_log_level`. */
  datatype Levels = Levels(pr: int, log: int)

  predicate InRange(level: int) {
    Error <= level <= Debug
  }

  function Initial(): (l: Levels)
    ensures l.pr == Info && l.log == Info
  {
    Levels(Info, Info)
  }

  /** The level `pr_set_level` stores: out-of-range requests go to the nearest end. */
  function Clamp(level: int): (r: int)
    ensures InRange(r)
    ensures InRange(level) ==> r == level
    ensures level > Debug ==> r == Debug
    ensures level < Error ==> r == Error
  {
    if level > Debug then Debug else if level < Error then Error else level
  }

  /** `pr_set_level`: store the clamped level, return the previous one. */
  function PrSetLevel(l: Levels, level: int): (r: (int, Levels))
    ensures r.0 == l.pr
    ensures InRange(r.1.pr) && r.1.log == l.log
    ensures InRange(level) ==> r.1.pr == level
    ensures !InRange(level) ==> r.1.pr == (if level > Debug then Debug else Error)
  {
    (l.pr, l.(pr := Clamp(level)))
  }

  /** The gate of the `PR` macro. */
  predicate PrEnabled(l: Levels, level: int) {
    level <= l.pr
  }

  /** `Logger::get_log_level`. */
  function GetLogLevel(l: Levels): (r: int)
    ensures r == l.log
  {
    l.log
  }

  /** `Logger::set_log_level`: the level must be in range (the original asserts
      it); store it and return the previous one. */
  function SetLogLevel(l: Levels, level: int): (r: (int, Levels))
    requires InRange(level)
    ensures r.0 == l.log
    ensures GetLogLevel(r.1) == level && r.1.pr == l.pr
  {
    (l.log, l.(log := level))
  }

  /** The gate of the `LOG_*` macros. */
  predicate LogEnabled(l: Levels, level: int) {
    level <= GetLogLevel(l)
  }

  /** Setting the level back to the value `set_log_level` returned restores
      the logger's state. */
  lemma SetLogLevelUndo(l: Levels, level: int)
    requires InRange(level) && InRange(l.log)
    ensures var r := SetLogLevel(l, level);
            SetLogLevel(r.1, r.0).1 == l
  {
  }

  /** The same for `pr_set_level`, whose level is always in range. */
  lemma PrSetLevelUndo(l: Levels, level: int)
    requires InRange(l.pr)
    ensures var r := PrSetLevel(l, level);
            PrSetLevel(r.1, r.0).1 == l
  {
  }

  /** Clamping twice is clamping once: a restatement of `Clamp`'s in-range
      clause, kept as a named fact. */
  lemma ClampIdempotent(level: int)
    ensures Clamp(Clamp(level)) == Clamp(level)
  {
  }

  /** The gate admits exactly the levels up to the current one: a more severe
      message passes whenever a less severe one does, errors always pass, and
      debug messages only at DEBUG. */
  lemma LogGateOrder(l: Levels, a: int, b: int)
    requires InRange(l.log)
    ensures LogEnabled(l, a) && b <= a ==> LogEnabled(l, b)
    ensures LogEnabled(l, Error)
    ensures LogEnabled(l, Debug) <==> l.log == Debug
  {
  }

  /** After `pr_set_level(n)` the printer emits level `m` exactly when
      `m <= clamp(n)`; any request above DEBUG enables everything. */
  lemma PrGateAfterSet(l: Levels, level: int, m: int)
    ensures PrEnabled(PrSetLevel(l, level).1, m) <==> m <= Clamp(level)
    ensures level >= Debug && InRange(m) ==> PrEnabled(PrSetLevel(l, level).1, m)
    ensures level <= Error ==> (PrEnabled(PrSetLevel(l, level).1, m) <==> m <= Error)
  {
  }
}
