/** The severity levels that the managers check against. */
module Severity {
  const LVL_EMERG := 0
  const LVL_WARN := 4
  const LVL_INFO := 6
  const LVL_DEBUG := 7
  const LVL_TRACE := 8

  predicate InRange(lvl: int) {
    LVL_EMERG <= lvl <= LVL_TRACE
  }

  /** The numbers of the levels, and the levels that a setter accepts. */
  lemma Numbers(lvl: int)
    ensures LVL_EMERG == 0 && LVL_WARN == 4 && LVL_INFO == 6 && LVL_DEBUG == 7 && LVL_TRACE == 8
    ensures InRange(lvl) <==> 0 <= lvl < 9
  {
  }
}
