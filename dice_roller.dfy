/**
  The session state machine of `useDiceRoller`: a long-lived record whose
  fields every action overwrites. Actions run one at a time, each to
  completion, so each is a method that changes the fields from the state it
  finds to the state it leaves.

  Every method that rolls takes the draws `Math.random` would return and one
  clock reading `now`, which stamps the result and, in decimal, gives the
  history entry its id.
 */
module DiceRollerHook {
  import opened Wrappers
  import opened JsText
  import opened DiceTypes
  import opened DiceUtils

  /** The history keeps the newest ten rolls. */
  const MaxHistory: nat := 10

  /** `initialState`: a d20 selected, nothing in the pool, no modifier, no
      rolls, both panels hidden, quick mode on. */
  const InitialState: DiceRollerState :=
    DiceRollerState(D20, [], 0, "", None, [], false, false, true)

  /** `[entry, ...history.slice(0, 9)]`. */
  function PushHistory(history: seq<RollHistoryEntry>, entry: RollHistoryEntry): seq<RollHistoryEntry>
  {
    [entry] + history[..if |history| < MaxHistory - 1 then |history| else MaxHistory - 1]
  }

  /** A push puts the new entry first, keeps the older ones in order after it
      and drops what falls beyond ten. */
  lemma PushHistoryFacts(history: seq<RollHistoryEntry>, entry: RollHistoryEntry)
    ensures var h := PushHistory(history, entry);
            && |h| == (if |history| < MaxHistory then |history| + 1 else MaxHistory)
            && h[0] == entry
            && h[1..] <= history
  {
  }

  /** The history after pushing `entries` one after the other. */
  function PushAll(history: seq<RollHistoryEntry>, entries: seq<RollHistoryEntry>): seq<RollHistoryEntry>
  {
    if entries == [] then history
    else PushHistory(PushAll(history, entries[..|entries| - 1]), entries[|entries| - 1])
  }

  /** Starting from no history, `n` rolls leave the newest ten of them,
      newest first: after 15 rolls the history holds 10 entries, the 15th roll
      first and the 6th last. */
  lemma {:induction false} PushAllNewestFirst(entries: seq<RollHistoryEntry>)
    ensures var h := PushAll([], entries);
            && |h| == (if |entries| < MaxHistory then |entries| else MaxHistory)
            && forall k :: 0 <= k < |h| ==> h[k] == entries[|entries| - 1 - k]
  {
    if entries != [] {
      var init := entries[..|entries| - 1];
      PushAllNewestFirst(init);
      PushHistoryFacts(PushAll([], init), entries[|entries| - 1]);
    }
  }

  /** The modifier a pending text stands for: `parseInt`, or 0 for NaN. */
  function ModifierOf(text: string): int
  {
    match ParseInt(text)
    case Some(v) => v
    case None => 0
  }

  /** The empty text stands for 0. */
  lemma ModifierOfEmpty()
    ensures ModifierOf("") == 0
  {
    ParseIntOfEmpty();
  }

  /** How `removeFromPendingModifier` re-reads the shortened text: 0 when it
      is empty, else its `parseInt` value, 0 for NaN. That is the reading of
      every text, the empty one included. */
  function RereadModifier(text: string): (m: int)
    ensures m == ModifierOf(text)
  {
    ModifierOfEmpty();
    var value := ParseInt(text);
    if text == "" then 0 else if value.Some? then value.value else 0
  }

  /** The history entry for a result committed at `now`. */
  function HistoryEntry(result: RollResult, now: Timestamp): RollHistoryEntry
  {
    RollHistoryEntry(NatToString(now), result, FormatRollResult(result))
  }

  /** The result `rollQuickD20(quantity)` commits: that many d20s, the
      modifier, and the snapshot `[{d20, quantity}]`. */
  function QuickResult(quantity: int, modifier: int, draws: seq<real>, now: Timestamp): RollResult
    requires Count(quantity) <= |draws| && AreDraws(draws)
  {
    var rolls := RolledDice(D20, quantity, draws);
    RollResult(rolls, SumValues(rolls), modifier, SumValues(rolls) + modifier, now, [DiceGroup(D20, quantity)])
  }

  /** A quick roll is the pool roll of its own snapshot, so rerolling it rolls
      the same number of d20s with the same modifier. */
  lemma QuickResultIsPoolResult(quantity: int, modifier: int, draws: seq<real>, now: Timestamp)
    requires Count(quantity) <= |draws| && AreDraws(draws)
    ensures QuickResult(quantity, modifier, draws, now) ==
            PoolResult([DiceGroup(D20, quantity)], modifier, draws, now)
  {
    var pool := [DiceGroup(D20, quantity)];
    assert pool[..|pool| - 1] == [];
    assert draws[DiceCount([])..] == draws;
    assert PoolDice(pool, draws) == [] + RolledDice(D20, quantity, draws);
    assert [] + RolledDice(D20, quantity, draws) == RolledDice(D20, quantity, draws);
  }

  /** The number of draws a pool roll of `pool` reads, counting the single
      d20 an empty pool falls back to. */
  function DrawsForPoolRoll(pool: seq<DiceGroup>): nat
  {
    if pool == [] then 1 else DiceCount(pool)
  }

  class DiceRoller {
    /** The session record. Every action replaces it whole, as the hook's
        `setState(prev => ({...prev, ...}))` does. */
    var state: DiceRollerState

    /** Quick mode is on exactly when the pool is empty, and the history holds
        at most ten entries. */
    ghost predicate Valid()
      reads this
    {
      && state.quickMode == (state.dicePool == [])
      && |state.history| <= MaxHistory
    }

    /** No two groups of the pool share a type. */
    ghost predicate PoolTypesDistinct()
      reads this
    {
      DistinctTypes(state.dicePool)
    }

    /** The modifier is what the pending text reads as. Every key press keeps
        this; `setModifier` and `loadHistoryRoll` set the modifier without
        the text and do not. */
    ghost predicate ModifierMatchesText()
      reads this
    {
      state.modifier == ModifierOf(state.pendingModifier)
    }

    constructor ()
      ensures state == InitialState
      ensures Valid() && PoolTypesDistinct() && ModifierMatchesText()
    {
      ModifierOfEmpty();
      state := InitialState;
    }

    /** `addDice`: merges the dice into the pool, selects their type and leaves
        quick mode. */
    method AddDice(t: DieType, quantity: int)
      requires Valid()
      modifies this
      ensures Valid()
      ensures state == old(state).(dicePool := AddDiceToPool(old(state.dicePool), t, quantity),
                                   currentDieType := t, quickMode := false)
      ensures old(PoolTypesDistinct()) ==> PoolTypesDistinct()
    {
      AddDiceToPoolShape(state.dicePool, t, quantity);
      state := state.(dicePool := AddDiceToPool(state.dicePool, t, quantity),
                      currentDieType := t, quickMode := false);
    }

    /** `appendToPendingModifier`: appends the text and re-reads the modifier. */
    method AppendToPendingModifier(text: string)
      requires Valid()
      modifies this
      ensures Valid() && ModifierMatchesText()
      ensures state == old(state).(pendingModifier := old(state.pendingModifier) + text,
                                   modifier := ModifierOf(old(state.pendingModifier) + text))
    {
      var newPendingModifier := state.pendingModifier + text;
      var value := ParseInt(newPendingModifier);
      state := state.(pendingModifier := newPendingModifier,
                      modifier := if value.Some? then value.value else 0);
    }

    /** `removeFromPendingModifier`: drops the last character of the pending
        text and re-reads the modifier; nothing happens when the text is
        empty. */
    method RemoveFromPendingModifier()
      requires Valid()
      modifies this
      ensures Valid()
      ensures old(state.pendingModifier) == [] ==> state == old(state)
      ensures old(state.pendingModifier) != [] ==>
                var shorter := old(state.pendingModifier)[..|old(state.pendingModifier)| - 1];
                state == old(state).(pendingModifier := shorter, modifier := ModifierOf(shorter))
      ensures old(state.pendingModifier) != [] ==> ModifierMatchesText()
      ensures old(ModifierMatchesText()) ==> ModifierMatchesText()
    {
      if |state.pendingModifier| > 0 {
        var newPendingModifier := state.pendingModifier[..|state.pendingModifier| - 1];
        state := state.(pendingModifier := newPendingModifier,
                        modifier := RereadModifier(newPendingModifier));
      }
    }

    /** `setModifier`: the modifier becomes `value` with the sign chosen by
        `isNegative`, and the pending text is cleared. */
    method SetModifier(value: int, isNegative: bool)
      requires Valid()
      modifies this
      ensures Valid()
      ensures state == old(state).(modifier := if isNegative then -Abs(value) else Abs(value),
                                   pendingModifier := "")
    {
      state := state.(modifier := if isNegative then -Abs(value) else Abs(value),
                      pendingModifier := "");
    }

    /** `rollQuickD20`: rolls `quantity` d20s with the current modifier, records
        the roll first in the history and clears the modifier; the pool and
        quick mode are left alone. */
    method RollQuickD20(quantity: int, draws: seq<real>, now: Timestamp) returns (result: RollResult)
      requires Valid()
      requires Count(quantity) <= |draws| && AreDraws(draws)
      modifies this
      ensures Valid() && ModifierMatchesText()
      ensures result == QuickResult(quantity, old(state.modifier), draws, now)
      ensures state == old(state).(lastRoll := Some(result),
                                   history := PushHistory(old(state.history), HistoryEntry(result, now)),
                                   modifier := 0, pendingModifier := "")
      ensures old(PoolTypesDistinct()) ==> PoolTypesDistinct()
    {
      ModifierOfEmpty();
      var rolls := RollDice(D20, quantity, draws);
      var subtotal := SumValues(rolls);
      var total := subtotal + state.modifier;
      result := RollResult(rolls, subtotal, state.modifier, total, now, [DiceGroup(D20, quantity)]);
      state := state.(lastRoll := Some(result),
                      history := PushHistory(state.history, HistoryEntry(result, now)),
                      modifier := 0, pendingModifier := "");
    }

    /** `rollDicePool`: an empty pool falls back to one quick d20; otherwise the
        pool is rolled with the modifier, recorded, and the pool, modifier and
        pending text are cleared, which turns quick mode back on. */
    method RollDicePool(draws: seq<real>, now: Timestamp) returns (result: RollResult)
      requires Valid()
      requires DrawsForPoolRoll(state.dicePool) <= |draws| && AreDraws(draws)
      modifies this
      ensures Valid() && ModifierMatchesText()
      ensures old(state.dicePool) == [] ==>
                && result == QuickResult(1, old(state.modifier), draws, now)
                && state == old(state).(lastRoll := Some(result),
                                        history := PushHistory(old(state.history), HistoryEntry(result, now)),
                                        modifier := 0, pendingModifier := "")
      ensures old(state.dicePool) != [] ==>
                && result == PoolResult(old(state.dicePool), old(state.modifier), draws, now)
                && state == old(state).(lastRoll := Some(result),
                                        history := PushHistory(old(state.history), HistoryEntry(result, now)),
                                        dicePool := [], modifier := 0, pendingModifier := "",
                                        quickMode := true)
      ensures old(PoolTypesDistinct()) ==> PoolTypesDistinct()
    {
      if |state.dicePool| == 0 {
        result := RollQuickD20(1, draws, now);
        return;
      }
      ModifierOfEmpty();
      result := DiceUtils.RollDicePool(state.dicePool, state.modifier, draws, now);
      state := state.(lastRoll := Some(result),
                      history := PushHistory(state.history, HistoryEntry(result, now)),
                      dicePool := [], modifier := 0, pendingModifier := "", quickMode := true);
    }

    /** `rerollLast`: rolls the last result's pool and modifier again and
        records it; with no last roll it returns nothing and changes
        nothing. The working pool and modifier are not touched. */
    method RerollLast(draws: seq<real>, now: Timestamp) returns (result: Option<RollResult>)
      requires Valid()
      requires state.lastRoll.Some? ==> DiceCount(state.lastRoll.value.dicePool) <= |draws|
      requires AreDraws(draws)
      modifies this
      ensures Valid()
      ensures old(state.lastRoll).None? ==> result.None? && state == old(state)
      ensures old(state.lastRoll).Some? ==>
                && result == Some(PoolResult(old(state.lastRoll).value.dicePool,
                                             old(state.lastRoll).value.modifier, draws, now))
                && state == old(state).(lastRoll := result,
                                        history := PushHistory(old(state.history), HistoryEntry(result.value, now)))
      ensures old(PoolTypesDistinct()) ==> PoolTypesDistinct()
      ensures old(ModifierMatchesText()) ==> ModifierMatchesText()
    {
      if state.lastRoll.None? {
        return None;
      }
      var last := state.lastRoll.value;
      var rolled := DiceUtils.RollDicePool(last.dicePool, last.modifier, draws, now);
      state := state.(lastRoll := Some(rolled), history := PushHistory(state.history, HistoryEntry(rolled, now)));
      result := Some(rolled);
    }

    /** `clearDicePool`: empties the pool and the modifier, turning quick mode on. */
    method ClearDicePool()
      requires Valid()
      modifies this
      ensures Valid() && PoolTypesDistinct() && ModifierMatchesText()
      ensures state == old(state).(dicePool := [], modifier := 0, pendingModifier := "", quickMode := true)
    {
      ModifierOfEmpty();
      state := state.(dicePool := [], modifier := 0, pendingModifier := "", quickMode := true);
    }

    /** `removeLastDiceGroup`: drops the last group, whole; quick mode follows
        whether anything is left. Nothing happens to an empty pool. */
    method RemoveLastDiceGroup()
      requires Valid()
      modifies this
      ensures Valid()
      ensures old(state.dicePool) == [] ==> state == old(state)
      ensures old(state.dicePool) != [] ==>
                state == old(state).(dicePool := old(state.dicePool)[..|old(state.dicePool)| - 1],
                                     quickMode := |old(state.dicePool)| == 1)
      ensures old(PoolTypesDistinct()) ==> PoolTypesDistinct()
      ensures old(ModifierMatchesText()) ==> ModifierMatchesText()
    {
      var newPool := state.dicePool;
      if |newPool| > 0 {
        newPool := newPool[..|newPool| - 1];
      }
      state := state.(dicePool := newPool, quickMode := |newPool| == 0);
    }

    /** `toggleHistory`. */
    method ToggleHistory()
      requires Valid()
      modifies this
      ensures Valid()
      ensures state == old(state).(isHistoryVisible := !old(state.isHistoryVisible))
    {
      state := state.(isHistoryVisible := !state.isHistoryVisible);
    }

    /** `toggleHelp`. */
    method ToggleHelp()
      requires Valid()
      modifies this
      ensures Valid()
      ensures state == old(state).(isHelpVisible := !old(state.isHelpVisible))
      ensures old(PoolTypesDistinct()) ==> PoolTypesDistinct()
      ensures old(ModifierMatchesText()) ==> ModifierMatchesText()
    {
      state := state.(isHelpVisible := !state.isHelpVisible);
    }

    /** `setDieType`. */
    method SetDieType(t: DieType)
      requires Valid()
      modifies this
      ensures Valid()
      ensures state == old(state).(currentDieType := t)
    {
      state := state.(currentDieType := t);
    }

    /** `startModifierMode`: the pending text restarts as "-" or "", the
        modifier as 0. */
    method StartModifierMode(isNegative: bool)
      requires Valid()
      modifies this
      ensures Valid() && ModifierMatchesText()
      ensures state == old(state).(pendingModifier := if isNegative then "-" else "", modifier := 0)
    {
      state := state.(pendingModifier := if isNegative then "-" else "", modifier := 0);
    }

    /** `loadHistoryRoll`: the entry's pool and modifier become the working
        ones, without rolling; quick mode follows whether the pool is empty. */
    method LoadHistoryRoll(entry: RollHistoryEntry)
      requires Valid()
      modifies this
      ensures Valid()
      ensures state == old(state).(dicePool := entry.result.dicePool,
                                   modifier := entry.result.modifier,
                                   quickMode := entry.result.dicePool == [])
      ensures PoolTypesDistinct() <==> DistinctTypes(entry.result.dicePool)
    {
      state := state.(dicePool := entry.result.dicePool,
                      modifier := entry.result.modifier,
                      quickMode := |entry.result.dicePool| == 0);
    }

    /** `rerollFromHistory`: rolls the entry's pool and modifier again and
        records it; the working pool, modifier and text are not touched. */
    method RerollFromHistory(entry: RollHistoryEntry, draws: seq<real>, now: Timestamp)
      returns (result: RollResult)
      requires Valid()
      requires DiceCount(entry.result.dicePool) <= |draws| && AreDraws(draws)
      modifies this
      ensures Valid()
      ensures result == PoolResult(entry.result.dicePool, entry.result.modifier, draws, now)
      ensures state == old(state).(lastRoll := Some(result),
                                   history := PushHistory(old(state.history), HistoryEntry(result, now)))
      ensures old(PoolTypesDistinct()) ==> PoolTypesDistinct()
      ensures old(ModifierMatchesText()) ==> ModifierMatchesText()
    {
      result := DiceUtils.RollDicePool(entry.result.dicePool, entry.result.modifier, draws, now);
      state := state.(lastRoll := Some(result), history := PushHistory(state.history, HistoryEntry(result, now)));
    }
  }

  /** `Math.abs` on integers. */
  function Abs(x: int): (r: int)
    ensures r >= 0 && (r == x || r == -x)
  {
    if x < 0 then -x else x
  }
}
