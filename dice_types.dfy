/**
  The records of the dice roller: die types and their face counts, dice
  groups, single die rolls, committed roll results, history entries and the
  session state.
 */
module DiceTypes {
  import opened Wrappers
  import opened JsText

  /** The seven polyhedral dice. */
  datatype DieType = D4 | D6 | D8 | D10 | D12 | D20 | D100

  /** Every die type, in declaration order. */
  const AllDieTypes: seq<DieType> := [D4, D6, D8, D10, D12, D20, D100]

  /** The `DIE_FACES` table. */
  function Faces(t: DieType): nat
  {
    match t
    case D4 => 4
    case D6 => 6
    case D8 => 8
    case D10 => 10
    case D12 => 12
    case D20 => 20
    case D100 => 100
  }

  /** The string literal that names the die in the source ("d4" … "d100"). */
  function DieName(t: DieType): string
  {
    match t
    case D4 => "d4"
    case D6 => "d6"
    case D8 => "d8"
    case D10 => "d10"
    case D12 => "d12"
    case D20 => "d20"
    case D100 => "d100"
  }

  /** `{type, quantity}`: some dice of one type. The source does not restrict
      the quantity, so it is any integer here. */
  datatype DiceGroup = DiceGroup(dieType: DieType, quantity: int)

  /** The outcome of one die. */
  datatype DieRoll = DieRoll(dieType: DieType, value: int, isCrit: bool, isFail: bool)

  /** Milliseconds on the host clock; the clock itself is an input. */
  type Timestamp = nat

  /** A committed roll: the dice, their sum, the modifier, the total and the
      pool that produced it. */
  datatype RollResult = RollResult(
    dice: seq<DieRoll>,
    subtotal: int,
    modifier: int,
    total: int,
    timestamp: Timestamp,
    dicePool: seq<DiceGroup>)

  /** One line of the roll history. */
  datatype RollHistoryEntry = RollHistoryEntry(id: string, result: RollResult, displayText: string)

  /** The session record `DiceRollerState`, without the favorites and hotbar
      slots that no action of the session touches. */
  datatype DiceRollerState = DiceRollerState(
    currentDieType: DieType,
    dicePool: seq<DiceGroup>,
    modifier: int,
    pendingModifier: string,
    lastRoll: Option<RollResult>,
    history: seq<RollHistoryEntry>,
    isHistoryVisible: bool,
    isHelpVisible: bool,
    quickMode: bool)

  /** The list of die types is exactly the seven variants, each once. */
  lemma AllDieTypesComplete()
    ensures |AllDieTypes| == 7
    ensures forall t: DieType :: t in AllDieTypes
    ensures forall i, j :: 0 <= i < j < |AllDieTypes| ==> AllDieTypes[i] != AllDieTypes[j]
  {
    forall t: DieType ensures t in AllDieTypes {
      match t
      case D4 => assert AllDieTypes[0] == t;
      case D6 => assert AllDieTypes[1] == t;
      case D8 => assert AllDieTypes[2] == t;
      case D10 => assert AllDieTypes[3] == t;
      case D12 => assert AllDieTypes[4] == t;
      case D20 => assert AllDieTypes[5] == t;
      case D100 => assert AllDieTypes[6] == t;
    }
  }

  /** Face counts grow strictly in declaration order, so no two dice share a
      face count, and every die has at least four faces, so its top face and
      1 are different values. */
  lemma FacesStrictlyIncrease()
    ensures forall i, j :: 0 <= i < j < |AllDieTypes| ==> Faces(AllDieTypes[i]) < Faces(AllDieTypes[j])
    ensures forall t: DieType :: Faces(t) >= 4
    ensures forall t, u: DieType :: Faces(t) == Faces(u) ==> t == u
  {
  }

  /** Each die's name is "d" followed by its face count in decimal. */
  lemma DieNameIsFaces(t: DieType)
    ensures DieName(t) == "d" + NatToString(Faces(t))
  {
    assert NatToString(1) == "1" && NatToString(2) == "2";
    assert NatToString(10) == NatToString(1) + "0";
    assert NatToString(12) == NatToString(1) + "2";
    assert NatToString(20) == NatToString(2) + "0";
    assert NatToString(100) == NatToString(10) + "0";
  }
}
