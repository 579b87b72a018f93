/**
 * The lifecycle of a pattern and the pending-command slot of its catalog
 * row, with the integer codes tree.py uses for them.
 */
module Lifecycle {

  // Lifecycle states (`PatternBase.state`).
  const IDLE := 0
  const GROWING := 1
  const FULL := 2
  const SHRINKING := 3

  // Pending-command codes (column 0 of a `patterns` row).
  const NO_COMMAND := -1
  const START := 1
  const GENTLE_STOP := 3
  const HARD_STOP := 4

  predicate IsState(s: int) { IDLE <= s <= SHRINKING }

  /** A state in which the tick steps the pattern. */
  predicate IsRunning(s: int) { GROWING <= s <= SHRINKING }

  predicate IsCommand(c: int) { c == NO_COMMAND || c == START || c == GENTLE_STOP || c == HARD_STOP }

  /**
   * What a pattern's own step may do to its state: keep it, finish growing
   * (growing to full) or finish shrinking (shrinking to idle).
   */
  predicate Advances(s: int, next: int)
  {
    next == s || (s == GROWING && next == FULL) || (s == SHRINKING && next == IDLE)
  }

  /** The slot after `start`: a start is recorded unless the pattern is full. */
  function StartCommand(state: int, slot: int): (c: int)
    ensures c == START || c == slot
    ensures c == START <==> state != FULL || slot == START
  {
    if state != FULL then START else slot
  }

  /** The slot after `stop`: a stop of the requested kind is recorded unless the pattern is idle. */
  function StopCommand(state: int, slot: int, hard: bool): (c: int)
    ensures state != IDLE ==> c == (if hard then HARD_STOP else GENTLE_STOP)
    ensures state == IDLE ==> c == slot
  {
    if state != IDLE then (if hard then HARD_STOP else GENTLE_STOP) else slot
  }

  /**
   * The state after the tick applies a pending slot to a pattern whose
   * (possibly stepped) state is `state`: start makes it grow, a gentle stop
   * makes it shrink, a hard stop makes it idle; no command keeps it.
   */
  function Apply(state: int, slot: int): (s: int)
    ensures slot == START ==> s == GROWING
    ensures slot == GENTLE_STOP ==> s == SHRINKING
    ensures slot == HARD_STOP ==> s == IDLE
    ensures slot != START && slot != GENTLE_STOP && slot != HARD_STOP ==> s == state
  {
    if slot == START then GROWING
    else if slot == GENTLE_STOP then SHRINKING
    else if slot == HARD_STOP then IDLE
    else state
  }

  /**
   * The state one tick produces for a row: the pattern is stepped only when
   * it is running (its step may advance it), then the pending slot is applied.
   */
  ghost predicate TickOutcome(before: int, slot: int, after: int)
  {
    exists stepped :: (if IsRunning(before) then Advances(before, stepped) else stepped == before)
                      && after == Apply(stepped, slot)
  }

  /**
   * `solo(name)` followed by one tick, when no command was pending: the named
   * pattern ends up growing or full, and every other pattern shrinking or
   * idle (idle for sure when the named pattern's full-stop flag is set).
   */
  lemma SoloSettles(before: int, after: int, named: bool, hard: bool)
    requires IsState(before)
    requires TickOutcome(before, if named then StartCommand(before, NO_COMMAND)
                                 else StopCommand(before, NO_COMMAND, hard), after)
    ensures named ==> after == GROWING || after == FULL
    ensures !named ==> after == SHRINKING || after == IDLE
    ensures !named && hard ==> after == IDLE
  {
  }

  /**
   * A start still pending on an idle pattern survives a later `solo` of
   * another pattern (`stop` leaves an idle pattern's slot alone), so that
   * pattern starts growing at the next tick.
   */
  lemma StaleStartSurvivesSolo(hard: bool)
    ensures StopCommand(IDLE, START, hard) == START
    ensures TickOutcome(IDLE, StopCommand(IDLE, START, hard), GROWING)
  {
    assert Apply(IDLE, START) == GROWING;
  }
}
