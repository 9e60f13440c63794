# does-20-hit, modelled in Dafny

does-20-hit is a keyboard-driven dice roller for tabletop games. The user
builds a dice pool of polyhedral dice (d4, d6, d8, d10, d12, d20, d100),
types a modifier, and rolls. Each roll is stored as the last roll and put at
the front of a ten-entry history. The `Kbd` key-cap component, given a
string label and the `compound` flag, splits the label into separate keys
with `parseCompoundKeys`.

This project models the core of the roller:

- `lib/dice-types.ts` becomes `DiceTypes` (dice_types.dfy): the records and
  the face table.
- `lib/dice-utils.ts` becomes `DiceUtils` (dice_utils.dfy):
  - rolling a die, a batch of dice and a pool;
  - formatting a pool and a roll;
  - the total;
  - grouping by type;
  - adding dice to a pool and removing them.

  The loops of `rollDice`, `rollDicePool` and `groupDiceByType` are methods
  with loops. Each is proved against a function that states what it
  computes.
- The display texts have an inverse, a parser written for the model in
  `RollText` (roll_text.dfy). Proving that the parser undoes the
  formatting shows that the text of a pool, or of a roll, names it
  without ambiguity.
- `hooks/useDiceRoller.ts` becomes `DiceRollerHook` (dice_roller.dfy). It
  is a class `DiceRoller` with one method per action. The hook keeps the
  session record in one piece of state and replaces it whole on every
  action (`setState(prev => ({...prev, ...}))`). So the class has one
  field, `state`, which every method reassigns. Every method states the
  whole new state in terms of the old one.
- `hooks/useKeyboardShortcuts.ts` becomes `KeyboardShortcuts`
  (keyboard_shortcuts.dfy):
  - `Classify` is the pure decision: event and state give an action and a
    preventDefault flag.
  - `HandleKeyPress` carries the decision out on a `DiceRoller`. Its
    result is stated by `Step`, the session each action leaves.
- `parseCompoundKeys` from `components/ui/kbd.tsx` becomes `Kbd` (kbd.dfy).
- `JsText` (js_text.dfy) holds the JavaScript built-ins the code relies on:
  - `parseInt`;
  - `Number.prototype.toString` for integers;
  - `split` with a one-character separator;
  - `join`;
  - `trim`.
- `Wrappers` (wrappers.dfy) holds `Option`, which stands for `null` and
  for the `NaN` of `parseInt`.

Inputs the program takes from its environment are parameters of the model:

- The values `Math.random` returns are `draws`, a sequence of reals in
  [0, 1), consumed in order.
- The clock is one reading, `now`, in milliseconds. It stamps the result,
  and its decimal text is the history entry's id.
- Whether the clipboard exists is `clipboardAvailable`.

The pool is a list of groups, one per type: adding a type that is already
present grows its group. Backspace, when no modifier is being typed, drops
the whole last group (`removeLastDiceGroup`).

The modifier equals the reading of the pending text only while keyboard
input drives the session (`KeyboardShortcuts.KeyboardInvariant`):
`setModifier` and `loadHistoryRoll` set the modifier without touching the
text.

## Model

| member | source | states |
|---|---|---|
| DiceTypes.AllDieTypesComplete | lib/dice-types.ts:1 | there are exactly seven die types, each listed once |
| DiceTypes.Faces | lib/dice-types.ts:51-59 | DIE_FACES: the face count of each die; specified by FacesStrictlyIncrease and DieNameIsFaces |
| DiceTypes.FacesStrictlyIncrease | lib/dice-types.ts:51-59 | face counts strictly increase d4 < … < d100; every die has at least 4 faces; no two dice share a face count |
| DiceTypes.DieNameIsFaces | lib/dice-types.ts:1-59 | each die's name is "d" followed by its face count in decimal |
| DiceUtils.RollSingleDie | lib/dice-utils.ts:3-6 | a die shows a value in 1..faces for every draw in [0,1) |
| DiceUtils.RollSingleDieUniform | lib/dice-utils.ts:3-6 | a die shows v exactly when the draw lies in [(v-1)/faces, v/faces), so each face has an interval of draws of equal width |
| DiceUtils.RollDice | lib/dice-utils.ts:8-26 | returns max(quantity, 0) rolls, none for a non-positive quantity; each has the requested type, a value in 1..faces, isCrit iff the top face and isFail iff 1 |
| DiceUtils.PoolResult | lib/dice-utils.ts:28-47 | the RollResult rollDicePool builds: the groups' rolls in pool order, their sum, the modifier, the total, the time and a copy of the pool; specified by PoolResultFacts and PoolDiceFacts, and RollDicePool is proved equal to it |
| DiceUtils.RollDicePool | lib/dice-utils.ts:28-47 | the loop over the groups returns the pool result: the groups' rolls concatenated in pool order, their sum as subtotal, the total with the modifier, the pool as snapshot |
| DiceUtils.PoolResultFacts | lib/dice-utils.ts:28-47 | a pool result has one fair die per die in the pool (the sum of positive quantities); it keeps the modifier, the pool and the time; its total is calculateTotal of the dice and the modifier, between count + modifier and the pool's largest sum + modifier; an empty pool gives no dice and total = modifier |
| DiceUtils.PoolDiceFacts | lib/dice-utils.ts:28-47 | every die of a pool roll is fair, and the subtotal lies between the number of dice and the pool's largest possible sum |
| DiceUtils.RolledSumBounds | lib/dice-utils.ts:68-71 | the sum of n fair dice of one type lies between n and n·faces |
| DiceUtils.SumValuesAppend | lib/dice-utils.ts:36 | the sum of concatenated rolls is the sum of the sums |
| DiceUtils.CalculateTotal | lib/dice-utils.ts:68-71 | calculateTotal: the sum of the roll values plus the modifier; PoolResultFacts proves a pool result's total is this, and RolledSumBounds bounds it |
| DiceUtils.FindIndex | lib/dice-utils.ts:89 | findIndex, a scan from the front, gives the first group of the type, or -1 exactly when there is none |
| DiceUtils.AddDiceToPool | lib/dice-utils.ts:87-101 | addDiceToPool: the type's first group grows by the quantity, or a new group is appended; specified by AddDiceToPoolShape, AddDiceQuantities and TypesAfterAdd, and undone by RemoveDiceFromPool (RemoveUndoesAdd) |
| DiceUtils.RemoveDiceFromPool | lib/dice-utils.ts:103-120 | removeDiceFromPool: the type's first group shrinks by the quantity, or is spliced out when it would reach 0 or less; an absent type changes nothing; specified by RemoveDiceFromPoolShape, RemoveDiceKeepsDistinct, RemoveDiceQuantity and RemoveDiceOtherQuantities |
| DiceUtils.AddDiceToPoolShape | lib/dice-utils.ts:87-101 | a present type grows its group in place with length unchanged, other groups untouched; an absent type is appended as one new group; pools with distinct types stay distinct |
| DiceUtils.AddDiceQuantities | lib/dice-utils.ts:87-101 | adding raises the count of that type, and the total count, by the quantity; other types keep their counts |
| DiceUtils.TypesAfterAdd | lib/dice-utils.ts:87-101 | the type list of the pool gains the type at the end when it was absent and is unchanged otherwise |
| DiceUtils.RemoveDiceFromPoolShape | lib/dice-utils.ts:103-120 | an absent type leaves the pool as it is; a group whose quantity would drop to 0 or below is removed; otherwise it shrinks in place and other groups are untouched |
| DiceUtils.RemoveDiceKeepsDistinct | lib/dice-utils.ts:103-120 | removing keeps distinct types distinct |
| DiceUtils.RemoveDiceQuantity | lib/dice-utils.ts:103-120 | on a distinct pool holding the type, the type's count becomes max(count − quantity, 0) |
| DiceUtils.RemoveDiceOtherQuantities | lib/dice-utils.ts:103-120 | removing one type leaves the count of every other type unchanged |
| DiceUtils.RemoveUndoesAdd | lib/dice-utils.ts:87-120 | on a pool of positive quantities, removing what was just added gives the pool back |
| DiceUtils.GroupDiceByType | lib/dice-utils.ts:73-85 | the map loop yields one group per type, in first-appearance order, with the summed quantity of each type |
| DiceUtils.GroupedByType | lib/dice-utils.ts:73-85 | the value groupDiceByType returns, as a fold over the pool; specified by the GroupedByType lemmas below, and GroupDiceByType's Map loop is proved equal to it |
| DiceUtils.GroupedByTypeDistinct | lib/dice-utils.ts:73-85 | the grouped pool has distinct types |
| DiceUtils.GroupedByTypeOrder | lib/dice-utils.ts:73-85 | its types are the input's types in order of first appearance |
| DiceUtils.GroupedByTypeQuantities | lib/dice-utils.ts:73-85 | each type's count, and the total count, are preserved |
| DiceUtils.GroupedByTypeOfDistinct | lib/dice-utils.ts:73-85 | grouping a pool with distinct types gives it back unchanged |
| DiceUtils.GroupedByTypeIdempotent | lib/dice-utils.ts:73-85 | grouping twice is grouping once |
| RollText.DieTypeOfName | lib/dice-types.ts:1 | a die name read back names the die it came from |
| DiceUtils.FormatDicePool | lib/dice-utils.ts:49-57 | formatDicePool: "Empty" for [], otherwise each group as its type (quantity 1) or quantity then type, joined with " + "; specified by FormatDicePoolTokens, ParseDicePoolInverse and FormatDicePoolInjective |
| DiceUtils.FormatRollResult | lib/dice-utils.ts:59-66 | formatRollResult: pool text, then " +m" or " -m" for a non-zero modifier, then " = total"; specified by FormatRollResultTokens, ParseRollTextInverse and FormatRollResultInjective |
| RollText.ParseGroupTextInverse | lib/dice-utils.ts:52-54 | a group's text ("d20" for quantity 1, otherwise quantity then type) reads back as that group |
| RollText.FormatDicePoolTokens | lib/dice-utils.ts:49-57 | formatDicePool is "Empty" for [], otherwise the group texts joined with " + " |
| RollText.ParseDicePoolInverse | lib/dice-utils.ts:49-57 | reading the pool text back gives the pool |
| RollText.FormatDicePoolInjective | lib/dice-utils.ts:49-57 | the pool text is "Empty" exactly for the empty pool, and different pools have different texts |
| RollText.ModifierTokenValue | lib/dice-utils.ts:61-63 | a non-zero modifier is written as "+m" or "-m", which parseInt reads back as m |
| RollText.FormatRollResultTokens | lib/dice-utils.ts:59-66 | a roll's text is the pool text, then " +m"/" m" for a non-zero modifier, then " = total" |
| RollText.ParseRollTextInverse | lib/dice-utils.ts:59-66 | reading a roll's text back gives its pool, modifier and total |
| RollText.FormatRollResultInjective | lib/dice-utils.ts:59-66 | rolls with the same text have the same pool, modifier and total |
| JsText.NatToString | hooks/useDiceRoller.ts:82 | the decimal text of a number is non-empty and all digits, with no leading zero |
| JsText.IntToString | hooks/useKeyboardShortcuts.ts:123 | the text of an integer starts with '-' exactly when it is negative |
| JsText.ParseInt | hooks/useDiceRoller.ts:32 | parseInt with no radix: leading white space skipped, an optional sign, then the longest run of decimal digits (hexadecimal after 0x or 0X), NaN (None) when there is none; specified by ParseIntOfIntToString and ParseIntOfModifierText |
| JsText.NatToStringValue | hooks/useDiceRoller.ts:82 | the decimal text of n has value n |
| JsText.ParseIntOfIntToString | lib/dice-utils.ts:62-65 | parseInt reads the text of every integer back as that integer |
| JsText.ParseIntOfModifierText | hooks/useDiceRoller.ts:29-40 | on text made of digits and '-', parseInt is an optional leading '-' then the leading digits; "" and "-" are NaN and "5-" is 5 |
| JsText.Trim | components/ui/kbd.tsx:38 | trim removes white space from the ends only: s is lead + result + trail with lead and trail all white space, and the result neither starts nor ends with white space; a string with no white space is unchanged |
| JsText.Split | components/ui/kbd.tsx:33 | split gives at least one piece, no piece holds the separator, and joining the pieces gives the string back |
| JsText.SplitJoin | components/ui/kbd.tsx:33 | splitting a join of separator-free pieces gives those pieces |
| DiceRollerHook.DiceRoller.constructor | hooks/useDiceRoller.ts:5-15 | the session starts as initialState: a d20 selected, empty pool, modifier 0, no text, no roll, empty history, panels hidden, quick mode on |
| DiceRollerHook.DiceRoller.AddDice | hooks/useDiceRoller.ts:20-27 | the pool becomes addDiceToPool(pool, type, quantity), the type is selected and quick mode ends; nothing else changes |
| DiceRollerHook.DiceRoller.AppendToPendingModifier | hooks/useDiceRoller.ts:29-40 | the text grows by the argument and the modifier is its parseInt reading, 0 for NaN |
| DiceRollerHook.DiceRoller.RemoveFromPendingModifier | hooks/useDiceRoller.ts:42-57 | the last character is dropped and the text re-read, 0 when it becomes empty; empty text changes nothing |
| DiceRollerHook.DiceRoller.SetModifier | hooks/useDiceRoller.ts:59-65 | the modifier becomes ±abs(value) by the sign flag and the text is cleared |
| DiceRollerHook.DiceRoller.RollQuickD20 | hooks/useDiceRoller.ts:67-96 | quantity d20s are rolled with the current modifier and the snapshot [{d20, quantity}]; the roll becomes the last roll and the head of the history; the modifier and text are reset; the pool and quick mode are kept |
| DiceRollerHook.DiceRoller.RollDicePool | hooks/useDiceRoller.ts:98-122 | an empty pool rolls one quick d20; otherwise the pool is rolled and recorded, and pool, modifier and text are cleared with quick mode back on |
| DiceRollerHook.DiceRoller.RerollLast | hooks/useDiceRoller.ts:124-142 | with no last roll nothing changes and nothing is returned; otherwise the last pool and modifier are rolled again and recorded, and only the last roll and the history change |
| DiceRollerHook.DiceRoller.ClearDicePool | hooks/useDiceRoller.ts:144-152 | pool, modifier and text are emptied and quick mode is on |
| DiceRollerHook.DiceRoller.RemoveLastDiceGroup | hooks/useDiceRoller.ts:154-164 | the last group is dropped whole and quick mode follows whether any group is left; an empty pool is unchanged |
| DiceRollerHook.DiceRoller.ToggleHistory | hooks/useDiceRoller.ts:166-171 | only the history panel flag flips |
| DiceRollerHook.DiceRoller.ToggleHelp | hooks/useDiceRoller.ts:173-178 | only the help panel flag flips |
| DiceRollerHook.DiceRoller.SetDieType | hooks/useDiceRoller.ts:180-185 | only the selected die type changes |
| DiceRollerHook.DiceRoller.StartModifierMode | hooks/useDiceRoller.ts:187-193 | the text restarts as "-" or "" and the modifier as 0 |
| DiceRollerHook.DiceRoller.LoadHistoryRoll | hooks/useDiceRoller.ts:195-202 | the entry's pool and modifier become the working ones, with quick mode set iff that pool is empty, and no roll is made |
| DiceRollerHook.DiceRoller.RerollFromHistory | hooks/useDiceRoller.ts:204-220 | the entry's pool and modifier are rolled and recorded; only the last roll and the history change |
| DiceRollerHook.PushHistoryFacts | hooks/useDiceRoller.ts:90 | a push puts the entry first, keeps older entries in order behind it, and the history never grows past ten |
| DiceRollerHook.PushHistory | hooks/useDiceRoller.ts:90 | `[entry, ...history.slice(0, 9)]`; specified by PushHistoryFacts and PushAllNewestFirst |
| DiceRollerHook.PushAllNewestFirst | hooks/useDiceRoller.ts:90 | from an empty history, n rolls leave the newest min(n, 10), newest first |
| DiceRollerHook.RereadModifier | hooks/useDiceRoller.ts:42-57 | re-reading the shortened text (0 when empty, parseInt otherwise, 0 for NaN) is the same reading every other action uses |
| DiceRollerHook.QuickResultIsPoolResult | hooks/useDiceRoller.ts:67-96 | a quick roll equals the pool roll of its own snapshot, so a reroll rolls the same dice with the same modifier |
| KeyboardShortcuts.LowerKey | hooks/useKeyboardShortcuts.ts:27 | toLowerCase keeps the length, leaves no ASCII capital and no KELVIN SIGN, and keeps lower-case letters |
| KeyboardShortcuts.LowerKeyIdempotent | hooks/useKeyboardShortcuts.ts:27 | lower-casing an already lower-cased key changes nothing |
| KeyboardShortcuts.KeyActionOf | hooks/useKeyboardShortcuts.ts:42-126 | the `switch` on the lower-cased key: which hook action a key calls, and with what; specified by DigitRule, EnterAndBackspaceRules, MinusRule, CopyRule and CtrlDigitsCoverDieTypes |
| KeyboardShortcuts.Classify | hooks/useKeyboardShortcuts.ts:21-126 | handleKeyPress as a decision: text-field events are ignored, else the lower-cased key gives the action and preventDefault iff it is in handledKeys; specified by TextFieldIgnored, ActionImpliesPreventDefault and CaseInsensitive |
| KeyboardShortcuts.TextFieldIgnored | hooks/useKeyboardShortcuts.ts:22-25 | events from inputs and text areas trigger nothing and suppress nothing |
| KeyboardShortcuts.ActionImpliesPreventDefault | hooks/useKeyboardShortcuts.ts:31-126 | every key that triggers an action has its default suppressed |
| KeyboardShortcuts.CaseInsensitive | hooks/useKeyboardShortcuts.ts:27 | a key and its lower case trigger the same thing |
| KeyboardShortcuts.CtrlDigitsCoverDieTypes | hooks/useKeyboardShortcuts.ts:64-77 | Ctrl/Cmd 1..7 add d20, d12, d10, d8, d6, d4, d100: each type by exactly one digit, 8/9/0 by none |
| KeyboardShortcuts.DigitRule | hooks/useKeyboardShortcuts.ts:53-82 | with Ctrl/Cmd a digit adds one die of its type (or nothing); without, the digit is appended to the text; either way the default is suppressed |
| KeyboardShortcuts.EnterAndBackspaceRules | hooks/useKeyboardShortcuts.ts:44-50 | Enter rolls one quick d20 iff the pool is empty and the pool otherwise; Backspace edits the text iff the pool is empty and the text is not, and drops the last group otherwise |
| KeyboardShortcuts.MinusRule | hooks/useKeyboardShortcuts.ts:85-90 | '-' is appended iff the text does not already start with '-' |
| KeyboardShortcuts.CopyRule | hooks/useKeyboardShortcuts.ts:121-125 | 'c' copies the decimal text of the last total (which parseInt reads back as the total) iff there is a last roll and a clipboard |
| KeyboardShortcuts.InitialStateKeyboardInvariant | hooks/useDiceRoller.ts:5-15 | the initial session satisfies the keyboard invariant |
| KeyboardShortcuts.KeyboardModifierReading | hooks/useKeyboardShortcuts.ts:80-88 | under keyboard input the modifier is the text read as optional '-' then digits: "5-3" counts as 5 |
| KeyboardShortcuts.HandleKeyPress | hooks/useKeyboardShortcuts.ts:21-127 | the action taken is Classify's, and the new session is Step of the old one under that action, for every key; quick mode still means an empty pool; the keyboard invariant is kept; no-action keys change nothing; Enter always rolls the pool (or one d20) with the modifier and clears it |
| KeyboardShortcuts.Perform | hooks/useKeyboardShortcuts.ts:44-125 | calling the hook action a key chose leaves exactly the session Step gives, and keeps quick mode meaning an empty pool |
| KeyboardShortcuts.Step | hooks/useKeyboardShortcuts.ts:44-125 | the session each dispatched action leaves, as useDiceRoller.ts's actions write it: rolls recorded and cleared, dice added, text edited and re-read, pool cleared or its last group dropped, the last roll rolled again, the help panel flipped; nothing for a key without an action or the copy key |
| KeyboardShortcuts.StepKeepsKeyboardInvariant | hooks/useKeyboardShortcuts.ts:44-125 | every key action keeps the modifier equal to the text's reading, the text digits and dashes with at most one leading dash, and the pool's types distinct |
| KeyboardShortcuts.StepKeepsValid | hooks/useKeyboardShortcuts.ts:44-125 | every key action keeps quick mode meaning an empty pool, and the history at most ten long |
| KeyboardShortcuts.StepRollFacts | hooks/useKeyboardShortcuts.ts:44-50 | a roll key rolls the pool (one d20 when empty) with the modifier, makes it the last roll and the head of the history, and clears pool, modifier and text; no-action and copy keys change nothing |
| KeyboardShortcuts.AppendKeepsShape | hooks/useKeyboardShortcuts.ts:80-88 | appending a digit, or '-' to text without a leading '-', keeps the text digits and dashes with at most one leading dash |
| KeyboardShortcuts.RemoveKeepsShape | hooks/useKeyboardShortcuts.ts:99-103 | dropping the last character keeps that shape |
| Kbd.KeysOfChildren | components/ui/kbd.tsx:28-47 | a non-string child gives [], a string at least one key |
| Kbd.ParseCompoundKeys | components/ui/kbd.tsx:28-47 | parseCompoundKeys: a letter chain splits at '-', else a label with '+' splits at '+' and each piece is trimmed, else a label with spaces whose pieces are at most 3 long splits at ' ', else the label is one key; specified by the Kbd rows below |
| Kbd.LetterChainKeys | components/ui/kbd.tsx:31-34 | a label matching ^[A-Z](-[A-Z])+$ splits into its letters: two or more single capitals, in order |
| Kbd.ChainJoin | components/ui/kbd.tsx:31-34 | a letter chain is its letters joined with '-' |
| Kbd.LetterChainRoundTrip | components/ui/kbd.tsx:31-34 | two or more capitals joined with '-' split back into those letters |
| Kbd.PlusKeys | components/ui/kbd.tsx:36-39 | a label with '+' splits at every '+' into at least two keys, each trimmed and without '+' |
| Kbd.PlusRoundTrip | components/ui/kbd.tsx:36-39 | trimmed keys without '+' joined with '+' split back into those keys |
| Kbd.SpaceKeys | components/ui/kbd.tsx:41-44 | otherwise a label with spaces whose pieces are all at most 3 long splits into at least two keys that join back with spaces to the label |
| Kbd.WholeLabel | components/ui/kbd.tsx:46 | a label no rule applies to is one key, as written |

## Left out

- Favorites and the hotbar: the state type declares them, but the session hook neither initialises nor changes them. The dispatcher has no key for them either.
- `Math.random` and the clock are inputs (`draws`, `now`). The floating-point multiply-and-floor is modelled on exact reals.
- `new Date()` and `Date.now()` are one clock reading per roll. In the program they are two readings that may differ by a millisecond.
- The clipboard write itself is I/O; the model only decides the text to copy.
- React plumbing is not modelled: `useState`, `useCallback`, `useEffect`, the listener, and the context provider that wires the hooks together. Actions run one at a time, each on the state the previous one left. So `rollQuickD20` reading a modifier from an older render is not modelled.
- JavaScript numbers are unbounded integers here. Precision beyond 2^53, exponent notation in `toString`, and `-0` (from the text "-0") are not modelled.
- `parseCompoundKeys` counts length in characters, not UTF-16 code units, so a piece with characters outside the Basic Multilingual Plane may be counted shorter than the program counts it.
- KeyboardShortcuts.LowerKey: lower-cases only the ASCII capitals and KELVIN SIGN; other characters are kept. No other character lowers to something a handled key name contains, so the decision is the same.
- The view components (help screen, history list, sidebar, pool displays) and the `Kbd` rendering around `parseCompoundKeys` are not part of this model.
- The rolling methods of `DiceRoller` and `HandleKeyPress` require enough draws for the dice they roll, because the program's random source never runs dry.
