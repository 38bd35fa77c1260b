/**
 * The part of the cron-parser library that the jobs code relies on.  The library is not
 * part of the repository, so it is a value handed to the job store rather than code.
 */
module Cron {

  /**
   * `accepts(c)`: `CronExpressionParser.parse(c)` succeeds.
   * `next(c, t)`: the first occurrence that `interval.next()` yields when parsing `c` with
   *   current date `t`.
   * `failure(c)`: the message of the error that `parse(c)` throws when it does not accept `c`.
   */
  datatype CronParser = CronParser(
    accepts: string -> bool,
    next: (string, int) -> int,
    failure: string -> string)

  /**
   * Library behaviour the repository relies on but does not show: the next occurrence of an
   * accepted expression lies strictly after the current date.  Lemmas that need it take it
   * as a hypothesis.
   */
  ghost predicate NextIsLater(p: CronParser)
  {
    forall c: string, t: int :: p.accepts(c) ==> p.next(c, t) > t
  }
}
