/**
  The four severities of `logging::LoggerLevel`.

  The header that defines the level class is not part of this model, so its
  lookups (`getValue`, `toString`, `getLineColor`, `resetColor`) are kept
  abstract: a `LevelTable` carries one function per lookup, and every
  statement about the logger holds for every table.  The one assumption made
  about the class is that its `<=` compares `getValue` (see `AtMost`).
*/
module Levels {

  datatype Level = LogError | LogWarn | LogInfo | LogDebug

  /** The lookups a level offers: syslog value, name (`toString`), colour prefix and colour reset. */
  datatype LevelTable = LevelTable(
    value: Level -> nat,
    name: Level -> string,
    lineColor: Level -> string,
    resetColor: Level -> string)

  /** `a <= b` on levels, assumed to compare the levels' values. */
  predicate AtMost(t: LevelTable, a: Level, b: Level)
  {
    t.value(a) <= t.value(b)
  }

  /** A table whose values grow from the most severe level to the most verbose one. */
  predicate Ordered(t: LevelTable)
  {
    t.value(LogError) < t.value(LogWarn) < t.value(LogInfo) < t.value(LogDebug)
  }

  /** Position of a level, from the most severe (0) to the most verbose (3). */
  function Rank(l: Level): nat
  {
    match l
    case LogError => 0
    case LogWarn => 1
    case LogInfo => 2
    case LogDebug => 3
  }

  /** Under an ordered table the filter admits exactly the levels no more verbose than the threshold. */
  lemma FilterFollowsRank(t: LevelTable, l: Level, threshold: Level)
    requires Ordered(t)
    ensures AtMost(t, l, threshold) <==> Rank(l) <= Rank(threshold)
  {
    match l
    case LogError =>
    case LogWarn =>
    case LogInfo =>
    case LogDebug =>
  }
}
