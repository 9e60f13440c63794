/**
  The key-press dispatcher of `useKeyboardShortcuts`: which session action a
  key-down event triggers, and whether the browser's default handling of the
  key is suppressed. `Classify` is the decision; `HandleKeyPress` carries it
  out on a session.
 */
module KeyboardShortcuts {
  import opened Wrappers
  import opened JsText
  import opened DiceTypes
  import DiceUtils
  import DiceRollerHook

  /** What the dispatcher reads from a key-down event: the key name, the
      modifier flags and whether the event comes from an input or a text
      area. */
  datatype KeyEvent = KeyEvent(key: string, ctrlKey: bool, metaKey: bool, shiftKey: bool, targetIsTextField: bool)

  /** A session action the dispatcher calls, with its arguments, or a
      clipboard write of the given text. */
  datatype KeyAction =
    | NoAction
    | RollQuickD20(quantity: int)
    | RollDicePool
    | AddDice(dieType: DieType, quantity: int)
    | AppendToPendingModifier(text: string)
    | ClearDicePool
    | RemoveFromPendingModifier
    | RemoveLastDiceGroup
    | RerollLast
    | ToggleHelp
    | CopyToClipboard(text: string)

  datatype KeyOutcome = KeyOutcome(action: KeyAction, preventDefault: bool)

  /** `toLowerCase` on one character, as far as it can matter to the
      dispatcher: the ASCII capitals, and KELVIN SIGN, the one other
      character whose lower case is an ASCII letter. Every other character
      is kept; its lower case is not ASCII either, so it matches no key
      name here. */
  function LowerChar(c: char): char
  {
    if 'A' <= c <= 'Z' then (c as int + 32) as char
    else if c as int == 0x212A then 'k'
    else c
  }

  function LowerKey(key: string): (lower: string)
    ensures |lower| == |key|
    ensures forall i :: 0 <= i < |key| ==> lower[i] == LowerChar(key[i])
    ensures forall i :: 0 <= i < |lower| ==> !('A' <= lower[i] <= 'Z') && lower[i] as int != 0x212A
    ensures forall i :: 0 <= i < |key| && 'a' <= key[i] <= 'z' ==> lower[i] == key[i]
  {
    seq(|key|, i requires 0 <= i < |key| => LowerChar(key[i]))
  }

  /** Lower-casing twice is lower-casing once. */
  lemma LowerKeyIdempotent(key: string)
    ensures LowerKey(LowerKey(key)) == LowerKey(key)
  {
    var lower := LowerKey(key);
    forall i | 0 <= i < |lower|
      ensures LowerKey(lower)[i] == lower[i]
    {
      assert LowerChar(LowerChar(key[i])) == LowerChar(key[i]);
    }
  }

  /** The lower-cased key names whose default handling is suppressed. */
  const HandledKeys: seq<string> :=
    ["enter", "escape", "backspace", "r", "c", "?",
     "1", "2", "3", "4", "5", "6", "7", "8", "9", "0", "-"]

  /** The die a Ctrl or Cmd digit adds; 8, 9 and 0 add none. */
  function DigitDie(d: char): Option<DieType>
  {
    match d
    case '1' => Some(D20)
    case '2' => Some(D12)
    case '3' => Some(D10)
    case '4' => Some(D8)
    case '5' => Some(D6)
    case '6' => Some(D4)
    case '7' => Some(D100)
    case _ => None
  }

  predicate StartsWithMinus(s: string)
  {
    |s| > 0 && s[0] == '-'
  }

  /** The `switch` on the lower-cased key. */
  function KeyActionOf(key: string, isCtrl: bool, state: DiceRollerState, clipboardAvailable: bool): KeyAction
  {
    if key == "enter" then
      if state.quickMode && |state.dicePool| == 0 then RollQuickD20(1) else RollDicePool
    else if |key| == 1 && IsDigit(key[0]) then
      if isCtrl then
        match DigitDie(key[0])
        case Some(t) => AddDice(t, 1)
        case None => NoAction
      else AppendToPendingModifier(key)
    else if key == "-" then
      if state.pendingModifier == "" || !StartsWithMinus(state.pendingModifier) then AppendToPendingModifier("-")
      else NoAction
    else if key == "escape" then ClearDicePool
    else if key == "backspace" then
      if state.quickMode && |state.dicePool| == 0 && state.pendingModifier != "" then RemoveFromPendingModifier
      else RemoveLastDiceGroup
    else if key == "r" then RerollLast
    else if key == "?" then ToggleHelp
    else if key == "c" then
      if state.lastRoll.Some? && clipboardAvailable then CopyToClipboard(IntToString(state.lastRoll.value.total))
      else NoAction
    else NoAction
  }

  /** `handleKeyPress` as a decision: events from text fields are left alone;
      otherwise the key is lower-cased, Ctrl and Cmd count alike, and the
      key decides both the action and the suppression of the default. */
  function Classify(ev: KeyEvent, state: DiceRollerState, clipboardAvailable: bool): KeyOutcome
  {
    if ev.targetIsTextField then KeyOutcome(NoAction, false)
    else
      var key := LowerKey(ev.key);
      KeyOutcome(KeyActionOf(key, ev.ctrlKey || ev.metaKey, state, clipboardAvailable), key in HandledKeys)
  }

  // ---------------------------------------------------------------------
  // Properties of the decision

  /** Typing in an input or a text area triggers nothing and suppresses
      nothing, whatever the key. */
  lemma TextFieldIgnored(ev: KeyEvent, state: DiceRollerState, clipboardAvailable: bool)
    requires ev.targetIsTextField
    ensures Classify(ev, state, clipboardAvailable).action.NoAction?
    ensures !Classify(ev, state, clipboardAvailable).preventDefault
  {
  }

  /** Every key that triggers something has its default suppressed: no
      action leaks a key press to the page. */
  lemma ActionImpliesPreventDefault(ev: KeyEvent, state: DiceRollerState, clipboardAvailable: bool)
    ensures !Classify(ev, state, clipboardAvailable).action.NoAction? ==>
              Classify(ev, state, clipboardAvailable).preventDefault
  {
    var key := LowerKey(ev.key);
    if !ev.targetIsTextField && |key| == 1 && IsDigit(key[0]) {
      DigitKeyHandled(key);
    }
  }

  /** Every digit key is a handled key. */
  lemma DigitKeyHandled(key: string)
    requires |key| == 1 && IsDigit(key[0])
    ensures key in HandledKeys
  {
    assert key == [key[0]];
    match key[0]
    case '1' => assert HandledKeys[6] == key;
    case '2' => assert HandledKeys[7] == key;
    case '3' => assert HandledKeys[8] == key;
    case '4' => assert HandledKeys[9] == key;
    case '5' => assert HandledKeys[10] == key;
    case '6' => assert HandledKeys[11] == key;
    case '7' => assert HandledKeys[12] == key;
    case '8' => assert HandledKeys[13] == key;
    case '9' => assert HandledKeys[14] == key;
    case '0' => assert HandledKeys[15] == key;
  }

  /** The dispatcher is blind to letter case: a key and its lower case
      trigger the same thing ("Enter", "ENTER" and "enter"; "R" and "r"). */
  lemma {:induction false} CaseInsensitive(ev: KeyEvent, state: DiceRollerState, clipboardAvailable: bool)
    ensures Classify(ev.(key := LowerKey(ev.key)), state, clipboardAvailable) == Classify(ev, state, clipboardAvailable)
  {
    LowerKeyIdempotent(ev.key);
  }

  /** The Ctrl or Cmd digit that adds a die of type `t`. */
  function DieDigit(t: DieType): char
  {
    match t
    case D20 => '1'
    case D12 => '2'
    case D10 => '3'
    case D8 => '4'
    case D6 => '5'
    case D4 => '6'
    case D100 => '7'
  }

  /** Ctrl or Cmd with 1 to 7 adds one die of d20, d12, d10, d8, d6, d4 and
      d100: every die type is reached by exactly one digit, and 8, 9 and 0
      reach none. */
  lemma CtrlDigitsCoverDieTypes()
    ensures forall t: DieType :: '1' <= DieDigit(t) <= '7' && DigitDie(DieDigit(t)) == Some(t)
    ensures forall d :: DigitDie(d).Some? ==> DieDigit(DigitDie(d).value) == d
    ensures forall d :: DigitDie(d).Some? <==> '1' <= d <= '7'
  {
  }

  /** A digit adds a die with Ctrl or Cmd (when it names one) and otherwise
      goes to the pending modifier text, whatever the state. */
  lemma DigitRule(ev: KeyEvent, d: char, state: DiceRollerState, clipboardAvailable: bool)
    requires !ev.targetIsTextField && ev.key == [d] && IsDigit(d)
    ensures var outcome := Classify(ev, state, clipboardAvailable);
            && outcome.preventDefault
            && (ev.ctrlKey || ev.metaKey ==>
                  outcome.action == (if DigitDie(d).Some? then AddDice(DigitDie(d).value, 1) else NoAction))
            && (!ev.ctrlKey && !ev.metaKey ==> outcome.action == AppendToPendingModifier([d]))
  {
    assert LowerKey(ev.key) == [d];
    ActionImpliesPreventDefault(ev.(ctrlKey := false, metaKey := false), state, clipboardAvailable);
  }

  /** On a session where quick mode means an empty pool, Enter rolls a single
      quick d20 exactly when the pool is empty, and the pool otherwise;
      Backspace edits the pending text exactly when the pool is empty and the
      text is not, and drops the last group otherwise. */
  lemma EnterAndBackspaceRules(ev: KeyEvent, state: DiceRollerState, clipboardAvailable: bool)
    requires !ev.targetIsTextField && state.quickMode == (state.dicePool == [])
    ensures LowerKey(ev.key) == "enter" ==>
              Classify(ev, state, clipboardAvailable).action ==
                (if state.dicePool == [] then RollQuickD20(1) else RollDicePool)
    ensures LowerKey(ev.key) == "backspace" ==>
              Classify(ev, state, clipboardAvailable).action ==
                (if state.dicePool == [] && state.pendingModifier != "" then RemoveFromPendingModifier
                 else RemoveLastDiceGroup)
  {
  }

  /** '-' is appended exactly when the pending text does not already start
      with one, so "5" becomes "5-" but "-3" stays. */
  lemma MinusRule(ev: KeyEvent, state: DiceRollerState, clipboardAvailable: bool)
    requires !ev.targetIsTextField && ev.key == "-"
    ensures Classify(ev, state, clipboardAvailable).action ==
              (if StartsWithMinus(state.pendingModifier) then NoAction else AppendToPendingModifier("-"))
  {
    assert LowerKey(ev.key) == "-";
  }

  /** 'c' copies the last total in decimal when there is a last roll and a
      clipboard, and does nothing otherwise. */
  lemma CopyRule(ev: KeyEvent, state: DiceRollerState, clipboardAvailable: bool)
    requires !ev.targetIsTextField && LowerKey(ev.key) == "c"
    ensures Classify(ev, state, clipboardAvailable).action ==
              (if state.lastRoll.Some? && clipboardAvailable
               then CopyToClipboard(IntToString(state.lastRoll.value.total)) else NoAction)
    ensures Classify(ev, state, clipboardAvailable).action.CopyToClipboard? ==>
              ParseInt(Classify(ev, state, clipboardAvailable).action.text) == Some(state.lastRoll.value.total)
  {
    if state.lastRoll.Some? {
      ParseIntOfIntToString(state.lastRoll.value.total);
    }
  }

  // ---------------------------------------------------------------------
  // Carrying the decision out

  /** What every key press keeps true of a session: the modifier is what the
      pending text reads as, that text is digits and dashes with at most one
      dash in front, and no two pool groups share a type. */
  ghost predicate KeyboardInvariant(state: DiceRollerState)
  {
    && state.modifier == DiceRollerHook.ModifierOf(state.pendingModifier)
    && IsModifierText(state.pendingModifier)
    && !(|state.pendingModifier| >= 2 && state.pendingModifier[0] == '-' && state.pendingModifier[1] == '-')
    && DiceUtils.DistinctTypes(state.dicePool)
  }

  lemma InitialStateKeyboardInvariant()
    ensures KeyboardInvariant(DiceRollerHook.InitialState)
  {
    DiceRollerHook.ModifierOfEmpty();
  }

  /** Under the invariant the modifier is the pending text read as an
      optional '-' and the digits after it, or 0 when there are none: "-"
      counts as 0 and "5-" as 5. */
  lemma KeyboardModifierReading(state: DiceRollerState)
    requires KeyboardInvariant(state)
    ensures state.modifier == (match KeyboardModifierValue(state.pendingModifier)
                               case Some(v) => v
                               case None => 0)
  {
    ParseIntOfModifierText(state.pendingModifier);
  }

  /** The number of random draws the key press may read. */
  function DrawsNeeded(state: DiceRollerState): nat
  {
    var forPool := DiceRollerHook.DrawsForPoolRoll(state.dicePool);
    var forLast := if state.lastRoll.Some? then DiceUtils.DiceCount(state.lastRoll.value.dicePool) else 0;
    if forPool < forLast then forLast else forPool
  }

  /** The session a key action leaves behind: what the hook action it calls
      does to the session record. The rolls read `draws` and are stamped
      `now`. */
  function Step(state: DiceRollerState, action: KeyAction, draws: seq<real>, now: Timestamp): DiceRollerState
    requires KeyboardAction(action, state)
    requires DrawsNeeded(state) <= |draws| && DiceUtils.AreDraws(draws)
  {
    match action
    case NoAction => state
    case CopyToClipboard(_) => state
    case RollQuickD20(quantity) =>
      var result := DiceRollerHook.QuickResult(quantity, state.modifier, draws, now);
      Recorded(state, result, now).(modifier := 0, pendingModifier := "")
    case RollDicePool =>
      if state.dicePool == [] then
        var result := DiceRollerHook.QuickResult(1, state.modifier, draws, now);
        Recorded(state, result, now).(modifier := 0, pendingModifier := "")
      else
        var result := DiceUtils.PoolResult(state.dicePool, state.modifier, draws, now);
        Recorded(state, result, now).(dicePool := [], modifier := 0, pendingModifier := "", quickMode := true)
    case AddDice(t, quantity) =>
      state.(dicePool := DiceUtils.AddDiceToPool(state.dicePool, t, quantity), currentDieType := t, quickMode := false)
    case AppendToPendingModifier(text) =>
      var pending := state.pendingModifier + text;
      state.(pendingModifier := pending, modifier := DiceRollerHook.ModifierOf(pending))
    case ClearDicePool =>
      state.(dicePool := [], modifier := 0, pendingModifier := "", quickMode := true)
    case RemoveFromPendingModifier =>
      var shorter := state.pendingModifier[..|state.pendingModifier| - 1];
      state.(pendingModifier := shorter, modifier := DiceRollerHook.ModifierOf(shorter))
    case RemoveLastDiceGroup =>
      if state.dicePool == [] then state
      else state.(dicePool := state.dicePool[..|state.dicePool| - 1], quickMode := |state.dicePool| == 1)
    case RerollLast =>
      if state.lastRoll.None? then state
      else
        var last := state.lastRoll.value;
        Recorded(state, DiceUtils.PoolResult(last.dicePool, last.modifier, draws, now), now)
    case ToggleHelp =>
      state.(isHelpVisible := !state.isHelpVisible)
  }

  /** A roll made the last roll and pushed onto the history. */
  function Recorded(state: DiceRollerState, result: RollResult, now: Timestamp): DiceRollerState
  {
    state.(lastRoll := Some(result),
           history := DiceRollerHook.PushHistory(state.history, DiceRollerHook.HistoryEntry(result, now)))
  }

  /** Every key action keeps the keyboard invariant: the text stays digits
      and dashes with at most one in front, the modifier stays its reading,
      and the pool types stay distinct. */
  lemma StepKeepsKeyboardInvariant(state: DiceRollerState, action: KeyAction, draws: seq<real>, now: Timestamp)
    requires KeyboardAction(action, state)
    requires DrawsNeeded(state) <= |draws| && DiceUtils.AreDraws(draws)
    requires KeyboardInvariant(state)
    ensures KeyboardInvariant(Step(state, action, draws, now))
  {
    DiceRollerHook.ModifierOfEmpty();
    match action
    case AddDice(t, quantity) =>
      DiceUtils.AddDiceToPoolShape(state.dicePool, t, quantity);
    case AppendToPendingModifier(text) =>
      AppendKeepsShape(state.pendingModifier, text);
    case RemoveFromPendingModifier =>
      RemoveKeepsShape(state.pendingModifier);
    case _ =>
  }

  /** Every key action keeps quick mode meaning an empty pool, and the history
      at most ten entries long. */
  lemma StepKeepsValid(state: DiceRollerState, action: KeyAction, draws: seq<real>, now: Timestamp)
    requires KeyboardAction(action, state)
    requires DrawsNeeded(state) <= |draws| && DiceUtils.AreDraws(draws)
    requires state.quickMode == (state.dicePool == []) && |state.history| <= DiceRollerHook.MaxHistory
    ensures var next := Step(state, action, draws, now);
            next.quickMode == (next.dicePool == []) && |next.history| <= DiceRollerHook.MaxHistory
  {
    match action
    case AddDice(t, quantity) =>
      DiceUtils.AddDiceToPoolShape(state.dicePool, t, quantity);
    case _ =>
  }

  /** A roll key, on any session, rolls the pool with the modifier (one d20
      for an empty pool), makes it the last roll and clears pool, modifier
      and text; a key without an action, or the copy key, changes nothing. */
  lemma StepRollFacts(state: DiceRollerState, action: KeyAction, draws: seq<real>, now: Timestamp)
    requires KeyboardAction(action, state)
    requires DrawsNeeded(state) <= |draws| && DiceUtils.AreDraws(draws)
    ensures action.NoAction? || action.CopyToClipboard? ==> Step(state, action, draws, now) == state
    ensures action.RollQuickD20? || action.RollDicePool? ==>
              var next := Step(state, action, draws, now);
              && next.dicePool == [] && next.pendingModifier == "" && next.modifier == 0
              && next.lastRoll.Some?
              && next.lastRoll.value.dicePool == (if state.dicePool == [] then [DiceGroup(D20, 1)] else state.dicePool)
              && next.lastRoll.value.modifier == state.modifier
              && next.history[0].result == next.lastRoll.value
  {
    if action.RollDicePool? && state.dicePool != [] {
      DiceUtils.PoolResultFacts(state.dicePool, state.modifier, draws, now);
    }
  }

  /** `handleKeyPress`: classifies the event against the session and calls
      the chosen action. The clipboard write is not part of the model. */
  method HandleKeyPress(roller: DiceRollerHook.DiceRoller, ev: KeyEvent, clipboardAvailable: bool,
                        draws: seq<real>, now: Timestamp)
    returns (outcome: KeyOutcome)
    requires roller.Valid()
    requires DrawsNeeded(roller.state) <= |draws| && DiceUtils.AreDraws(draws)
    modifies roller
    ensures outcome == Classify(ev, old(roller.state), clipboardAvailable)
    ensures roller.Valid()
    ensures KeyboardAction(outcome.action, old(roller.state))
    ensures roller.state == Step(old(roller.state), outcome.action, draws, now)
    ensures old(KeyboardInvariant(roller.state)) ==> KeyboardInvariant(roller.state)
    ensures outcome.action.NoAction? || outcome.action.CopyToClipboard? ==> roller.state == old(roller.state)
    ensures outcome.action.RollQuickD20? || outcome.action.RollDicePool? ==>
              && roller.state.dicePool == [] && roller.state.pendingModifier == "" && roller.state.modifier == 0
              && roller.state.lastRoll.Some?
              && roller.state.lastRoll.value.dicePool ==
                   (if old(roller.state.dicePool) == [] then [DiceGroup(D20, 1)] else old(roller.state.dicePool))
              && roller.state.lastRoll.value.modifier == old(roller.state.modifier)
  {
    outcome := Classify(ev, roller.state, clipboardAvailable);
    ClassifyIsKeyboardAction(ev, roller.state, clipboardAvailable);
    Perform(roller, outcome.action, draws, now);
  }

  /** What the dispatcher can choose on a session: a quick roll only of one
      d20 and only on an empty pool, dice one at a time, a digit or a leading
      '-' for the text, and a text edit only when there is text. */
  predicate KeyboardAction(action: KeyAction, state: DiceRollerState)
  {
    match action
    case RollQuickD20(quantity) => quantity == 1 && state.dicePool == []
    case AddDice(_, quantity) => quantity == 1
    case AppendToPendingModifier(text) =>
      (|text| == 1 && IsDigit(text[0])) || (text == "-" && !StartsWithMinus(state.pendingModifier))
    case RemoveFromPendingModifier => state.pendingModifier != ""
    case _ => true
  }

  lemma ClassifyIsKeyboardAction(ev: KeyEvent, state: DiceRollerState, clipboardAvailable: bool)
    requires state.quickMode == (state.dicePool == [])
    ensures KeyboardAction(Classify(ev, state, clipboardAvailable).action, state)
  {
  }

  /** Calls the session action a key chose. */
  method Perform(roller: DiceRollerHook.DiceRoller, action: KeyAction, draws: seq<real>, now: Timestamp)
    requires roller.Valid() && KeyboardAction(action, roller.state)
    requires DrawsNeeded(roller.state) <= |draws| && DiceUtils.AreDraws(draws)
    modifies roller
    ensures roller.Valid()
    ensures roller.state == Step(old(roller.state), action, draws, now)
    ensures old(KeyboardInvariant(roller.state)) ==> KeyboardInvariant(roller.state)
    ensures action.NoAction? || action.CopyToClipboard? ==> roller.state == old(roller.state)
    ensures action.RollQuickD20? || action.RollDicePool? ==>
              && roller.state.dicePool == [] && roller.state.pendingModifier == "" && roller.state.modifier == 0
              && roller.state.lastRoll.Some?
              && roller.state.lastRoll.value.dicePool ==
                   (if old(roller.state.dicePool) == [] then [DiceGroup(D20, 1)] else old(roller.state.dicePool))
              && roller.state.lastRoll.value.modifier == old(roller.state.modifier)
  {
    ghost var before := roller.state;
    match action {
    case NoAction =>
    case RollQuickD20(quantity) =>
      var _ := roller.RollQuickD20(quantity, draws, now);
    case RollDicePool =>
      var _ := roller.RollDicePool(draws, now);
    case AddDice(t, quantity) =>
      roller.AddDice(t, quantity);
    case AppendToPendingModifier(text) =>
      roller.AppendToPendingModifier(text);
    case ClearDicePool =>
      roller.ClearDicePool();
    case RemoveFromPendingModifier =>
      roller.RemoveFromPendingModifier();
    case RemoveLastDiceGroup =>
      roller.RemoveLastDiceGroup();
    case RerollLast =>
      var _ := roller.RerollLast(draws, now);
    case ToggleHelp =>
      roller.ToggleHelp();
    case CopyToClipboard(_) =>
    }
    if KeyboardInvariant(before) {
      StepKeepsKeyboardInvariant(before, action, draws, now);
    }
    StepRollFacts(before, action, draws, now);
  }

  /** The keyboard only ever appends a digit, or a '-' to text that does not
      start with one; either keeps the text digits and dashes with at most
      one dash in front. */
  lemma AppendKeepsShape(pending: string, text: string)
    requires (|text| == 1 && IsDigit(text[0])) || (text == "-" && !StartsWithMinus(pending))
    ensures IsModifierText(pending) ==> IsModifierText(pending + text)
    ensures !(|pending| >= 2 && pending[0] == '-' && pending[1] == '-') ==>
            var p := pending + text; !(|p| >= 2 && p[0] == '-' && p[1] == '-')
  {
    var p := pending + text;
    if |pending| == 1 {
      assert p[1] == text[0];
    }
  }

  /** Dropping the last character keeps the shape of the pending text. */
  lemma RemoveKeepsShape(pending: string)
    requires pending != []
    ensures IsModifierText(pending) ==> IsModifierText(pending[..|pending| - 1])
    ensures !(|pending| >= 2 && pending[0] == '-' && pending[1] == '-') ==>
            var p := pending[..|pending| - 1]; !(|p| >= 2 && p[0] == '-' && p[1] == '-')
  {
  }
}
