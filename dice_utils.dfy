/**
  Rolling dice, rendering pools and results as text, and the pool algebra
  (adding, removing and grouping dice by type).

  `Math.random` is an input here: a roll reads its draws, reals in [0, 1),
  from a sequence, one draw per die, in the order the source asks for them.
 */
module DiceUtils {
  import opened Wrappers
  import opened JsText
  import opened DiceTypes

  // =====================================================================
  // Rolling

  /** A value `Math.random` can return. */
  predicate IsDraw(u: real) {
    0.0 <= u < 1.0
  }

  predicate AreDraws(draws: seq<real>) {
    forall i :: 0 <= i < |draws| ==> IsDraw(draws[i])
  }

  lemma ScaledDrawBounds(u: real, faces: nat)
    requires IsDraw(u) && faces >= 1
    ensures 0.0 <= u * faces as real < faces as real
  {
    assert u * faces as real < 1.0 * faces as real;
  }

  /** `rollSingleDie`: `Math.floor(Math.random() * faces) + 1`. */
  function RollSingleDie(t: DieType, u: real): (v: int)
    requires IsDraw(u)
    ensures 1 <= v <= Faces(t)
  {
    ScaledDrawBounds(u, Faces(t));
    (u * Faces(t) as real).Floor + 1
  }

  /** Each face `v` comes from exactly the draws in [(v-1)/faces, v/faces), an
      interval of width 1/faces: a uniform draw gives a uniform face. */
  lemma RollSingleDieUniform(t: DieType, u: real, v: int)
    requires IsDraw(u) && 1 <= v <= Faces(t)
    ensures RollSingleDie(t, u) == v <==>
            (v - 1) as real / Faces(t) as real <= u < v as real / Faces(t) as real
  {
    var f := Faces(t) as real;
    var x := u * f;
    assert (v - 1) as real <= x <==> (v - 1) as real / f <= u;
    assert x < v as real <==> u < v as real / f;
  }

  /** How many times `for (let i = 0; i < quantity; i++)` runs. */
  function Count(quantity: int): nat {
    if quantity > 0 then quantity else 0
  }

  /** One die showing `value`, flagged as the source flags it. */
  function MakeRoll(t: DieType, value: int): DieRoll {
    DieRoll(t, value, value == Faces(t), value == 1)
  }

  /** A roll that a fair die of its type can show, with the crit flag set
      exactly on the top face and the fail flag exactly on 1. */
  predicate IsFairRoll(r: DieRoll) {
    && 1 <= r.value <= Faces(r.dieType)
    && (r.isCrit <==> r.value == Faces(r.dieType))
    && (r.isFail <==> r.value == 1)
  }

  /** What `rollDice(t, quantity)` returns when the draws are `draws`. */
  function RolledDice(t: DieType, quantity: int, draws: seq<real>): seq<DieRoll>
    requires Count(quantity) <= |draws| && AreDraws(draws)
  {
    seq(Count(quantity), i requires 0 <= i < Count(quantity) => MakeRoll(t, RollSingleDie(t, draws[i])))
  }

  /** `rollDice`: exactly `quantity` dice of the type (none when it is not
      positive), each fair. */
  method RollDice(t: DieType, quantity: int, draws: seq<real>) returns (rolls: seq<DieRoll>)
    requires Count(quantity) <= |draws| && AreDraws(draws)
    ensures rolls == RolledDice(t, quantity, draws)
    ensures |rolls| == Count(quantity)
    ensures forall i :: 0 <= i < |rolls| ==> rolls[i].dieType == t && IsFairRoll(rolls[i])
  {
    rolls := [];
    var faces := Faces(t);
    var i := 0;
    while i < quantity
      invariant 0 <= i <= Count(quantity)
      invariant |rolls| == i
      invariant forall k :: 0 <= k < i ==> rolls[k] == MakeRoll(t, RollSingleDie(t, draws[k]))
    {
      var value := RollSingleDie(t, draws[i]);
      var isCrit := value == faces;
      var isFail := value == 1;
      rolls := rolls + [DieRoll(t, value, isCrit, isFail)];
      i := i + 1;
    }
  }

  /** The number of dice a pool rolls. */
  function DiceCount(pool: seq<DiceGroup>): nat
  {
    if pool == [] then 0 else DiceCount(pool[..|pool| - 1]) + Count(pool[|pool| - 1].quantity)
  }

  lemma {:induction false} DiceCountPrefix(pool: seq<DiceGroup>, i: nat)
    requires i <= |pool|
    ensures DiceCount(pool[..i]) <= DiceCount(pool)
    decreases |pool|
  {
    if i < |pool| {
      assert pool[..|pool| - 1][..i] == pool[..i];
      DiceCountPrefix(pool[..|pool| - 1], i);
    } else {
      assert pool[..i] == pool;
    }
  }

  lemma DrawsSuffix(draws: seq<real>, k: nat)
    requires AreDraws(draws) && k <= |draws|
    ensures AreDraws(draws[k..])
  {
    forall i | 0 <= i < |draws[k..]| ensures IsDraw(draws[k..][i]) {
      assert draws[k..][i] == draws[k + i];
    }
  }

  /** The dice of a pool roll: the groups' rolls one after the other, in group
      order, each group reading the draws the groups before it left. */
  function PoolDice(pool: seq<DiceGroup>, draws: seq<real>): seq<DieRoll>
    requires DiceCount(pool) <= |draws| && AreDraws(draws)
  {
    if pool == [] then []
    else
      var init := pool[..|pool| - 1];
      var last := pool[|pool| - 1];
      DrawsSuffix(draws, DiceCount(init));
      PoolDice(init, draws) + RolledDice(last.dieType, last.quantity, draws[DiceCount(init)..])
  }

  /** The sum of the dice values (`reduce((sum, roll) => sum + roll.value, 0)`). */
  function SumValues(rolls: seq<DieRoll>): int
  {
    if rolls == [] then 0 else SumValues(rolls[..|rolls| - 1]) + rolls[|rolls| - 1].value
  }

  /** `calculateTotal`. */
  function CalculateTotal(rolls: seq<DieRoll>, modifier: int): int
  {
    SumValues(rolls) + modifier
  }

  /** The result `rollDicePool(pool, modifier)` commits at time `now`. */
  function PoolResult(pool: seq<DiceGroup>, modifier: int, draws: seq<real>, now: Timestamp): RollResult
    requires DiceCount(pool) <= |draws| && AreDraws(draws)
  {
    var dice := PoolDice(pool, draws);
    RollResult(dice, SumValues(dice), modifier, SumValues(dice) + modifier, now, pool)
  }

  /** A pool result has one fair die per die in the pool, keeps the pool and
      the modifier, and its total is the dice's sum plus the modifier, so it
      lies between the number of dice and the pool's highest sum, shifted by
      the modifier; an empty pool rolls nothing and totals the modifier. */
  lemma PoolResultFacts(pool: seq<DiceGroup>, modifier: int, draws: seq<real>, now: Timestamp)
    requires DiceCount(pool) <= |draws| && AreDraws(draws)
    ensures var r := PoolResult(pool, modifier, draws, now);
            && |r.dice| == DiceCount(pool)
            && (forall k :: 0 <= k < |r.dice| ==> IsFairRoll(r.dice[k]))
            && r.total == CalculateTotal(r.dice, modifier)
            && DiceCount(pool) + modifier <= r.total <= MaxSum(pool) + modifier
            && r.modifier == modifier && r.dicePool == pool && r.timestamp == now
            && (pool == [] ==> r.dice == [] && r.total == modifier)
  {
    PoolDiceFacts(pool, draws);
  }

  /** `rollDicePool`: rolls every group in order; the subtotal is the sum of
      the dice, the total adds the modifier, and the pool is kept as the
      result's snapshot. */
  method RollDicePool(pool: seq<DiceGroup>, modifier: int, draws: seq<real>, now: Timestamp)
    returns (result: RollResult)
    requires DiceCount(pool) <= |draws| && AreDraws(draws)
    ensures result == PoolResult(pool, modifier, draws, now)
  {
    var allRolls: seq<DieRoll> := [];
    var used := 0;
    for i := 0 to |pool|
      invariant used == DiceCount(pool[..i]) <= DiceCount(pool)
      invariant allRolls == PoolDice(pool[..i], draws)
    {
      var group := pool[i];
      assert pool[..i + 1][..i] == pool[..i];
      DiceCountPrefix(pool, i + 1);
      DrawsSuffix(draws, used);
      var rolls := RollDice(group.dieType, group.quantity, draws[used..]);
      allRolls := allRolls + rolls;
      used := used + Count(group.quantity);
    }
    assert pool[..|pool|] == pool;
    PoolDiceFacts(pool, draws);
    var subtotal := SumValues(allRolls);
    result := RollResult(allRolls, subtotal, modifier, subtotal + modifier, now, pool);
  }

  /** A pool roll has one die per die in the pool, every one of them fair, so
      its subtotal lies between the number of dice and the highest sum the
      pool can show. */
  lemma {:induction false} PoolDiceFacts(pool: seq<DiceGroup>, draws: seq<real>)
    requires DiceCount(pool) <= |draws| && AreDraws(draws)
    ensures |PoolDice(pool, draws)| == DiceCount(pool)
    ensures forall k :: 0 <= k < |PoolDice(pool, draws)| ==> IsFairRoll(PoolDice(pool, draws)[k])
    ensures DiceCount(pool) <= SumValues(PoolDice(pool, draws)) <= MaxSum(pool)
  {
    if pool != [] {
      var init := pool[..|pool| - 1];
      var last := pool[|pool| - 1];
      PoolDiceFacts(init, draws);
      DrawsSuffix(draws, DiceCount(init));
      var rest := draws[DiceCount(init)..];
      var a := PoolDice(init, draws);
      var b := RolledDice(last.dieType, last.quantity, rest);
      assert PoolDice(pool, draws) == a + b;
      assert forall k :: 0 <= k < |b| ==> IsFairRoll(b[k]) && b[k].dieType == last.dieType;
      RolledSumBounds(b, last.dieType);
      SumValuesAppend(a, b);
    }
  }

  /** The highest sum a pool can show: every die on its top face. */
  function MaxSum(pool: seq<DiceGroup>): int
  {
    if pool == [] then 0
    else MaxSum(pool[..|pool| - 1]) + Count(pool[|pool| - 1].quantity) * Faces(pool[|pool| - 1].dieType)
  }

  lemma {:induction false} RolledSumBounds(rolls: seq<DieRoll>, t: DieType)
    requires forall k :: 0 <= k < |rolls| ==> IsFairRoll(rolls[k]) && rolls[k].dieType == t
    ensures |rolls| <= SumValues(rolls) <= |rolls| * Faces(t)
  {
    if rolls != [] {
      var init := rolls[..|rolls| - 1];
      RolledSumBounds(init, t);
      assert (|rolls| - 1) * Faces(t) + Faces(t) == |rolls| * Faces(t);
    }
  }

  lemma {:induction false} SumValuesAppend(a: seq<DieRoll>, b: seq<DieRoll>)
    ensures SumValues(a + b) == SumValues(a) + SumValues(b)
    decreases |b|
  {
    if b != [] {
      assert (a + b)[..|a + b| - 1] == a + b[..|b| - 1];
      SumValuesAppend(a, b[..|b| - 1]);
    } else {
      assert a + b == a;
    }
  }

  // =====================================================================
  // Text

  /** One group as text: the bare die name for a single die, otherwise the
      quantity in decimal before it. */
  function GroupText(g: DiceGroup): string
  {
    if g.quantity == 1 then DieName(g.dieType) else IntToString(g.quantity) + DieName(g.dieType)
  }

  /** `dicePool.map(...)`: the text of every group, in order. */
  function GroupTexts(pool: seq<DiceGroup>): seq<string>
  {
    seq(|pool|, i requires 0 <= i < |pool| => GroupText(pool[i]))
  }

  /** `formatDicePool`: "Empty" for no groups, otherwise the groups' texts
      joined with " + ". */
  function FormatDicePool(pool: seq<DiceGroup>): string
  {
    if |pool| == 0 then "Empty" else Join(GroupTexts(pool), " + ")
  }

  /** The modifier part of a result's text: " +m", " m" for a negative one,
      nothing for 0. */
  function ModifierText(modifier: int): string
  {
    if modifier != 0 then " " + (if modifier > 0 then "+" else "") + IntToString(modifier) else ""
  }

  /** `formatRollResult`: pool text, modifier text, then " = " and the total. */
  function FormatRollResult(result: RollResult): string
  {
    FormatDicePool(result.dicePool) + ModifierText(result.modifier) + " = " + IntToString(result.total)
  }

  // =====================================================================
  // Pool algebra

  /** `findIndex(group => group.type === t)`: the first group of type `t`, or -1. */
  function FindIndex(pool: seq<DiceGroup>, t: DieType): (i: int)
    ensures -1 <= i < |pool|
    ensures i >= 0 ==> pool[i].dieType == t && forall k :: 0 <= k < i ==> pool[k].dieType != t
    ensures i == -1 <==> forall k :: 0 <= k < |pool| ==> pool[k].dieType != t
  {
    FindIndexFrom(pool, t, 0)
  }

  /** The scan of `findIndex` from index `from` on. */
  function FindIndexFrom(pool: seq<DiceGroup>, t: DieType, from: nat): (i: int)
    requires from <= |pool|
    ensures i == -1 || from <= i < |pool|
    ensures i >= 0 ==> pool[i].dieType == t && forall k :: from <= k < i ==> pool[k].dieType != t
    ensures i == -1 <==> forall k :: from <= k < |pool| ==> pool[k].dieType != t
    decreases |pool| - from
  {
    if from == |pool| then -1
    else if pool[from].dieType == t then from
    else FindIndexFrom(pool, t, from + 1)
  }

  predicate HasType(pool: seq<DiceGroup>, t: DieType) {
    exists k :: 0 <= k < |pool| && pool[k].dieType == t
  }

  /** No two groups of the pool have the same type. */
  predicate DistinctTypes(pool: seq<DiceGroup>) {
    forall i, j :: 0 <= i < j < |pool| ==> pool[i].dieType != pool[j].dieType
  }

  /** `addDiceToPool`: merges the dice into the first group of their type;
      a type not in the pool gets a new group. */
  function AddDiceToPool(pool: seq<DiceGroup>, t: DieType, quantity: int): seq<DiceGroup>
  {
    var i := FindIndex(pool, t);
    if i >= 0 then pool[i := DiceGroup(t, pool[i].quantity + quantity)]
    else pool + [DiceGroup(t, quantity)]
  }

  /** Adding to a type the pool has raises that group's quantity in place and
      keeps the length; a new type gets one group at the end; every other
      group stays as it was, and distinct types stay distinct. */
  lemma AddDiceToPoolShape(pool: seq<DiceGroup>, t: DieType, quantity: int)
    ensures var r := AddDiceToPool(pool, t, quantity);
            HasType(pool, t) ==>
              && |r| == |pool|
              && var i := FindIndex(pool, t);
                 && r[i] == DiceGroup(t, pool[i].quantity + quantity)
                 && forall k :: 0 <= k < |pool| && k != i ==> r[k] == pool[k]
    ensures !HasType(pool, t) ==> AddDiceToPool(pool, t, quantity) == pool + [DiceGroup(t, quantity)]
    ensures DistinctTypes(pool) ==> DistinctTypes(AddDiceToPool(pool, t, quantity))
  {
  }

  /** `removeDiceFromPool`: takes dice from the first group of their type,
      dropping the group when nothing positive would be left. */
  function RemoveDiceFromPool(pool: seq<DiceGroup>, t: DieType, quantity: int): seq<DiceGroup>
  {
    var i := FindIndex(pool, t);
    if i >= 0 then
      var newQuantity := pool[i].quantity - quantity;
      if newQuantity <= 0 then pool[..i] + pool[i + 1..]
      else pool[i := DiceGroup(t, newQuantity)]
    else pool
  }

  /** Removing a type the pool lacks changes nothing; otherwise its group is
      deleted when its quantity would drop to 0 or below and decremented in
      place when not; other groups keep their order and values. */
  lemma RemoveDiceFromPoolShape(pool: seq<DiceGroup>, t: DieType, quantity: int)
    ensures !HasType(pool, t) ==> RemoveDiceFromPool(pool, t, quantity) == pool
    ensures HasType(pool, t) ==>
              var r := RemoveDiceFromPool(pool, t, quantity);
              var i := FindIndex(pool, t);
              if pool[i].quantity - quantity <= 0 then r == pool[..i] + pool[i + 1..]
              else
                && |r| == |pool| && r[i] == DiceGroup(t, pool[i].quantity - quantity)
                && forall k :: 0 <= k < |pool| && k != i ==> r[k] == pool[k]
  {
  }

  /** Removing dice keeps a pool's types distinct. */
  lemma RemoveDiceKeepsDistinct(pool: seq<DiceGroup>, t: DieType, quantity: int)
    requires DistinctTypes(pool)
    ensures DistinctTypes(RemoveDiceFromPool(pool, t, quantity))
  {
    var r := RemoveDiceFromPool(pool, t, quantity);
    var i := FindIndex(pool, t);
    if i >= 0 && pool[i].quantity - quantity <= 0 {
      assert |r| == |pool| - 1;
      forall a, b | 0 <= a < b < |r| ensures r[a].dieType != r[b].dieType {
        var a' := if a < i then a else a + 1;
        var b' := if b < i then b else b + 1;
        assert r[a] == pool[a'] && r[b] == pool[b'];
      }
    }
  }

  /** Groups of the pool in which every group holds at least one die, as the
      keyboard builds them. */
  predicate PositiveQuantities(pool: seq<DiceGroup>) {
    forall k :: 0 <= k < |pool| ==> pool[k].quantity >= 1
  }

  /** The first group of type `t` is at index `i`. */
  lemma FindIndexAt(pool: seq<DiceGroup>, t: DieType, i: nat)
    requires i < |pool| && pool[i].dieType == t
    requires forall k :: 0 <= k < i ==> pool[k].dieType != t
    ensures FindIndex(pool, t) == i
  {
    var j := FindIndex(pool, t);
    assert j >= 0;
    assert !(j < i) && !(i < j);
  }

  /** Removing what was just added gives the pool back, provided the group
      it merged into held at least one die. */
  lemma RemoveUndoesAdd(pool: seq<DiceGroup>, t: DieType, quantity: int)
    requires PositiveQuantities(pool)
    ensures RemoveDiceFromPool(AddDiceToPool(pool, t, quantity), t, quantity) == pool
  {
    var i := FindIndex(pool, t);
    if i >= 0 {
      RemoveUndoesMerge(pool, t, quantity, i);
    } else {
      RemoveUndoesAppend(pool, t, quantity);
    }
  }

  /** The merging case of `RemoveUndoesAdd`: the group at `i` takes the dice
      and gives them back. */
  lemma RemoveUndoesMerge(pool: seq<DiceGroup>, t: DieType, quantity: int, i: nat)
    requires i < |pool| && FindIndex(pool, t) == i && pool[i].quantity >= 1
    ensures RemoveDiceFromPool(AddDiceToPool(pool, t, quantity), t, quantity) == pool
  {
    var grown := DiceGroup(t, pool[i].quantity + quantity);
    var added := pool[i := grown];
    assert AddDiceToPool(pool, t, quantity) == added;
    FindIndexOfMerged(pool, t, quantity, i);
    assert pool[i] == DiceGroup(t, grown.quantity - quantity);
    assert RemoveDiceFromPool(added, t, quantity) == added[i := pool[i]];
    UpdateBack(pool, i, grown);
  }

  /** Writing a group's old value back over a new one restores the pool. */
  lemma UpdateBack(pool: seq<DiceGroup>, i: nat, g: DiceGroup)
    requires i < |pool|
    ensures pool[i := g][i := pool[i]] == pool
  {
  }

  /** Merging into the first group of a type leaves it the first of its type. */
  lemma FindIndexOfMerged(pool: seq<DiceGroup>, t: DieType, quantity: int, i: nat)
    requires i < |pool| && FindIndex(pool, t) == i
    ensures FindIndex(pool[i := DiceGroup(t, pool[i].quantity + quantity)], t) == i
  {
    FindIndexAt(pool[i := DiceGroup(t, pool[i].quantity + quantity)], t, i);
  }

  /** The appending case of `RemoveUndoesAdd`: the new last group is the one
      taken away again. */
  lemma RemoveUndoesAppend(pool: seq<DiceGroup>, t: DieType, quantity: int)
    requires FindIndex(pool, t) == -1
    ensures RemoveDiceFromPool(AddDiceToPool(pool, t, quantity), t, quantity) == pool
  {
    FindIndexOfAppended(pool, t, quantity);
    DeleteAppended(pool, DiceGroup(t, quantity));
  }

  /** A type the pool lacks is found in the group appended for it. */
  lemma FindIndexOfAppended(pool: seq<DiceGroup>, t: DieType, quantity: int)
    requires FindIndex(pool, t) == -1
    ensures FindIndex(pool + [DiceGroup(t, quantity)], t) == |pool|
  {
    FindIndexAt(pool + [DiceGroup(t, quantity)], t, |pool|);
  }

  /** Deleting an appended group leaves the groups before it. */
  lemma DeleteAppended(pool: seq<DiceGroup>, group: DiceGroup)
    ensures (pool + [group])[..|pool|] + (pool + [group])[|pool| + 1..] == pool
  {
    assert (pool + [group])[..|pool|] == pool;
  }

  /** The number of dice of type `t` the groups of a pool add up to. */
  function QuantityOf(pool: seq<DiceGroup>, t: DieType): int
  {
    if pool == [] then 0
    else
      var last := pool[|pool| - 1];
      QuantityOf(pool[..|pool| - 1], t) + (if last.dieType == t then last.quantity else 0)
  }

  /** The sum of all the pool's quantities. */
  function TotalQuantity(pool: seq<DiceGroup>): int
  {
    if pool == [] then 0 else TotalQuantity(pool[..|pool| - 1]) + pool[|pool| - 1].quantity
  }

  lemma {:induction false} QuantityOfUpdate(pool: seq<DiceGroup>, i: nat, g: DiceGroup, t: DieType)
    requires i < |pool| && g.dieType == pool[i].dieType
    ensures QuantityOf(pool[i := g], t) ==
            QuantityOf(pool, t) + (if g.dieType == t then g.quantity - pool[i].quantity else 0)
    ensures TotalQuantity(pool[i := g]) == TotalQuantity(pool) + g.quantity - pool[i].quantity
  {
    var updated := pool[i := g];
    if i < |pool| - 1 {
      assert updated[..|pool| - 1] == pool[..|pool| - 1][i := g];
      QuantityOfUpdate(pool[..|pool| - 1], i, g, t);
    } else {
      assert updated[..|pool| - 1] == pool[..|pool| - 1];
    }
  }

  /** Adding `quantity` dice of type `t` raises the count of `t` by exactly
      that much and leaves every other type's count alone. */
  lemma AddDiceQuantities(pool: seq<DiceGroup>, t: DieType, quantity: int, u: DieType)
    ensures QuantityOf(AddDiceToPool(pool, t, quantity), u) ==
            QuantityOf(pool, u) + (if u == t then quantity else 0)
    ensures TotalQuantity(AddDiceToPool(pool, t, quantity)) == TotalQuantity(pool) + quantity
  {
    var i := FindIndex(pool, t);
    if i >= 0 {
      QuantityOfUpdate(pool, i, DiceGroup(t, pool[i].quantity + quantity), u);
    } else {
      var r := pool + [DiceGroup(t, quantity)];
      assert r[..|r| - 1] == pool;
    }
  }

  /** In a pool of distinct types the count of a type is its group's quantity,
      and 0 when it has no group. */
  lemma {:induction false} QuantityOfDistinct(pool: seq<DiceGroup>, t: DieType)
    requires DistinctTypes(pool)
    ensures QuantityOf(pool, t) == (if HasType(pool, t) then pool[FindIndex(pool, t)].quantity else 0)
  {
    if pool != [] {
      var init := pool[..|pool| - 1];
      QuantityOfDistinct(init, t);
      var i := FindIndex(pool, t);
      if i >= 0 && i < |pool| - 1 {
        assert init[i].dieType == t;
        assert FindIndex(init, t) == i;
      } else if i == |pool| - 1 {
        assert !HasType(init, t);
      } else {
        assert !HasType(init, t);
      }
    }
  }

  /** On a pool of distinct types, removing `quantity` dice of a type it
      holds leaves `max(count - quantity, 0)` of that type. */
  lemma RemoveDiceQuantity(pool: seq<DiceGroup>, t: DieType, quantity: int)
    requires DistinctTypes(pool) && HasType(pool, t)
    ensures var before := QuantityOf(pool, t);
            QuantityOf(RemoveDiceFromPool(pool, t, quantity), t) ==
            if before - quantity <= 0 then 0 else before - quantity
  {
    var i := FindIndex(pool, t);
    QuantityOfDistinct(pool, t);
    RemovedQuantity(pool, t, quantity, i);
  }

  /** Removing dice from the group at `i`, the first of type `t`, takes
      them off the count of `t`, down to no group at all. */
  lemma RemovedQuantity(pool: seq<DiceGroup>, t: DieType, quantity: int, i: nat)
    requires i < |pool| && FindIndex(pool, t) == i
    ensures var left := pool[i].quantity - quantity;
            QuantityOf(RemoveDiceFromPool(pool, t, quantity), t) ==
            QuantityOf(pool, t) - pool[i].quantity + (if left <= 0 then 0 else left)
  {
    if pool[i].quantity - quantity <= 0 {
      assert RemoveDiceFromPool(pool, t, quantity) == pool[..i] + pool[i + 1..];
      QuantityOfDelete(pool, i, t);
    } else {
      var shrunk := DiceGroup(t, pool[i].quantity - quantity);
      assert RemoveDiceFromPool(pool, t, quantity) == pool[i := shrunk];
      QuantityOfUpdate(pool, i, shrunk, t);
    }
  }

  /** Deleting a group takes its quantity off the count of its type. */
  lemma QuantityOfDelete(pool: seq<DiceGroup>, i: nat, u: DieType)
    requires i < |pool|
    ensures QuantityOf(pool[..i] + pool[i + 1..], u) ==
            QuantityOf(pool, u) - (if pool[i].dieType == u then pool[i].quantity else 0)
  {
    var front, back := pool[..i], pool[i + 1..];
    SplitAround(pool, i);
    QuantityOfConcat(front, back, u);
    QuantityOfConcat([pool[i]], back, u);
    QuantityOfConcat(front, [pool[i]] + back, u);
    QuantityOfSingle(pool[i], u);
  }

  /** A pool is the groups before `i`, the group at `i`, and those after it. */
  lemma SplitAround(pool: seq<DiceGroup>, i: nat)
    requires i < |pool|
    ensures pool == pool[..i] + ([pool[i]] + pool[i + 1..])
  {
  }

  lemma QuantityOfSingle(g: DiceGroup, u: DieType)
    ensures QuantityOf([g], u) == if g.dieType == u then g.quantity else 0
  {
    assert [g][..0] == [];
  }

  /** Counts add up over concatenated pools. */
  lemma {:induction false} QuantityOfConcat(a: seq<DiceGroup>, b: seq<DiceGroup>, u: DieType)
    ensures QuantityOf(a + b, u) == QuantityOf(a, u) + QuantityOf(b, u)
  {
    if b == [] {
      assert a + b == a;
    } else {
      QuantityOfConcat(a, b[..|b| - 1], u);
      assert (a + b)[..|a + b| - 1] == a + b[..|b| - 1];
    }
  }

  /** Removing dice of one type leaves the count of every other type alone. */
  lemma RemoveDiceOtherQuantities(pool: seq<DiceGroup>, t: DieType, quantity: int, u: DieType)
    requires u != t
    ensures QuantityOf(RemoveDiceFromPool(pool, t, quantity), u) == QuantityOf(pool, u)
  {
    var i := FindIndex(pool, t);
    if i >= 0 && pool[i].quantity - quantity <= 0 {
      assert RemoveDiceFromPool(pool, t, quantity) == pool[..i] + pool[i + 1..];
      QuantityOfDelete(pool, i, u);
    } else if i >= 0 {
      assert RemoveDiceFromPool(pool, t, quantity) == pool[i := DiceGroup(t, pool[i].quantity - quantity)];
      QuantityOfUpdate(pool, i, DiceGroup(t, pool[i].quantity - quantity), u);
    } else {
      assert RemoveDiceFromPool(pool, t, quantity) == pool;
    }
  }

  // ---------------------------------------------------------------------
  // groupDiceByType

  /** What `groupDiceByType` computes, stated as folding `addDiceToPool` over
      the groups: a type's first group fixes its place, later groups add to
      its quantity. */
  function GroupedByType(pool: seq<DiceGroup>): seq<DiceGroup>
  {
    if pool == [] then []
    else
      var last := pool[|pool| - 1];
      AddDiceToPool(GroupedByType(pool[..|pool| - 1]), last.dieType, last.quantity)
  }

  /** The types of a pool's groups, in order. */
  function Types(pool: seq<DiceGroup>): (ts: seq<DieType>)
    ensures |ts| == |pool| && forall k :: 0 <= k < |pool| ==> ts[k] == pool[k].dieType
  {
    seq(|pool|, k requires 0 <= k < |pool| => pool[k].dieType)
  }

  /** The elements of `s` in the order they first appear, each once. */
  function FirstAppearances(s: seq<DieType>): seq<DieType>
  {
    if s == [] then []
    else
      var seen := FirstAppearances(s[..|s| - 1]);
      if s[|s| - 1] in seen then seen else seen + [s[|s| - 1]]
  }

  /** Adding dice keeps the types in place and appends a new type at the end. */
  lemma TypesAfterAdd(pool: seq<DiceGroup>, t: DieType, quantity: int)
    ensures Types(AddDiceToPool(pool, t, quantity)) ==
            if t in Types(pool) then Types(pool) else Types(pool) + [t]
  {
    var r := AddDiceToPool(pool, t, quantity);
    if t in Types(pool) {
      var k :| 0 <= k < |pool| && Types(pool)[k] == t;
      assert pool[k].dieType == t;
      assert Types(r) == Types(pool);
    } else {
      assert !HasType(pool, t);
      assert Types(r) == Types(pool) + [t];
    }
  }

  /** The groups `groupDiceByType` returns have distinct types. */
  lemma {:induction false} GroupedByTypeDistinct(pool: seq<DiceGroup>)
    ensures DistinctTypes(GroupedByType(pool))
  {
    if pool != [] {
      var last := pool[|pool| - 1];
      GroupedByTypeDistinct(pool[..|pool| - 1]);
      AddDiceToPoolShape(GroupedByType(pool[..|pool| - 1]), last.dieType, last.quantity);
    }
  }

  /** `groupDiceByType` keeps the types in the order they first appear. */
  lemma {:induction false} GroupedByTypeOrder(pool: seq<DiceGroup>)
    ensures Types(GroupedByType(pool)) == FirstAppearances(Types(pool))
  {
    if pool != [] {
      var init := pool[..|pool| - 1];
      var last := pool[|pool| - 1];
      GroupedByTypeOrder(init);
      assert Types(pool)[..|pool| - 1] == Types(init);
      TypesAfterAdd(GroupedByType(init), last.dieType, last.quantity);
    }
  }

  /** Each group `groupDiceByType` returns holds the summed quantity of its
      type, so no die is lost or gained. */
  lemma {:induction false} GroupedByTypeQuantities(pool: seq<DiceGroup>, t: DieType)
    ensures QuantityOf(GroupedByType(pool), t) == QuantityOf(pool, t)
    ensures TotalQuantity(GroupedByType(pool)) == TotalQuantity(pool)
  {
    if pool != [] {
      var last := pool[|pool| - 1];
      GroupedByTypeQuantities(pool[..|pool| - 1], t);
      AddDiceQuantities(GroupedByType(pool[..|pool| - 1]), last.dieType, last.quantity, t);
    }
  }

  /** A pool whose types are already distinct is its own grouping. */
  lemma {:induction false} GroupedByTypeOfDistinct(pool: seq<DiceGroup>)
    requires DistinctTypes(pool)
    ensures GroupedByType(pool) == pool
  {
    if pool != [] {
      var init := pool[..|pool| - 1];
      var last := pool[|pool| - 1];
      GroupedByTypeOfDistinct(init);
      assert !HasType(init, last.dieType);
      assert init + [last] == pool;
    }
  }

  /** Grouping twice is grouping once. */
  lemma GroupedByTypeIdempotent(pool: seq<DiceGroup>)
    ensures GroupedByType(GroupedByType(pool)) == GroupedByType(pool)
  {
    GroupedByTypeDistinct(pool);
    GroupedByTypeOfDistinct(GroupedByType(pool));
  }

  /** The insertion-ordered key list and the quantity map stand for the
      groups `g`. */
  ghost predicate Represents(g: seq<DiceGroup>, order: seq<DieType>, quantities: map<DieType, int>) {
    && (forall t :: t in quantities <==> t in order)
    && |order| == |g|
    && (forall k :: 0 <= k < |order| ==> order[k] in quantities && g[k] == DiceGroup(order[k], quantities[order[k]]))
    && DistinctTypes(g)
  }

  /** One iteration of the grouping loop adds the group to what the key list
      and map stand for, as `addDiceToPool` would. */
  lemma MapStep(g: seq<DiceGroup>, order: seq<DieType>, quantities: map<DieType, int>, group: DiceGroup)
    requires Represents(g, order, quantities)
    ensures var existing := if group.dieType in quantities then quantities[group.dieType] else 0;
            var order' := if group.dieType in quantities then order else order + [group.dieType];
            Represents(AddDiceToPool(g, group.dieType, group.quantity),
                       order', quantities[group.dieType := existing + group.quantity])
  {
    if group.dieType in quantities {
      MapStepKnown(g, order, quantities, group.dieType, group.quantity);
    } else {
      MapStepNew(g, order, quantities, group.dieType, group.quantity);
    }
  }

  /** A type already in the map: its group, at the type's place in the key
      list, takes the dice. */
  lemma MapStepKnown(g: seq<DiceGroup>, order: seq<DieType>, quantities: map<DieType, int>, t: DieType, quantity: int)
    requires Represents(g, order, quantities) && t in quantities
    ensures Represents(AddDiceToPool(g, t, quantity), order, quantities[t := quantities[t] + quantity])
  {
    var k :| 0 <= k < |order| && order[k] == t;
    assert g[k].dieType == t;
    FindIndexAt(g, t, k);
    var grown := DiceGroup(t, g[k].quantity + quantity);
    var r := g[k := grown];
    assert AddDiceToPool(g, t, quantity) == r;
    UpdateKeepsDistinct(g, k, grown);
    var q' := quantities[t := quantities[t] + quantity];
    forall j | 0 <= j < |order|
      ensures order[j] in q' && r[j] == DiceGroup(order[j], q'[order[j]])
    {
      if j != k {
        assert g[j].dieType != g[k].dieType;
      }
    }
  }

  /** Replacing a group by one of the same type keeps the types distinct. */
  lemma UpdateKeepsDistinct(g: seq<DiceGroup>, k: nat, group: DiceGroup)
    requires DistinctTypes(g) && k < |g| && group.dieType == g[k].dieType
    ensures DistinctTypes(g[k := group])
  {
    var r := g[k := group];
    forall a, b | 0 <= a < b < |r| ensures r[a].dieType != r[b].dieType {
      assert r[a].dieType == g[a].dieType && r[b].dieType == g[b].dieType;
    }
  }

  /** A type not in the map: it goes last in the key list, and its group
      last in the pool. */
  lemma MapStepNew(g: seq<DiceGroup>, order: seq<DieType>, quantities: map<DieType, int>, t: DieType, quantity: int)
    requires Represents(g, order, quantities) && t !in quantities
    ensures Represents(AddDiceToPool(g, t, quantity), order + [t], quantities[t := 0 + quantity])
  {
    assert FindIndex(g, t) == -1 by {
      forall k | 0 <= k < |g| ensures g[k].dieType != t {
        assert order[k] in quantities;
      }
    }
    var r := g + [DiceGroup(t, quantity)];
    assert AddDiceToPool(g, t, quantity) == r;
  }

  /** The loop of `groupDiceByType` after `i + 1` groups. */
  lemma GroupStep(pool: seq<DiceGroup>, i: nat, order: seq<DieType>, quantities: map<DieType, int>)
    requires i < |pool| && Represents(GroupedByType(pool[..i]), order, quantities)
    ensures var t := pool[i].dieType;
            var existing := if t in quantities then quantities[t] else 0;
            var order' := if t in quantities then order else order + [t];
            Represents(GroupedByType(pool[..i + 1]), order', quantities[t := existing + pool[i].quantity])
  {
    assert pool[..i + 1][..i] == pool[..i];
    MapStep(GroupedByType(pool[..i]), order, quantities, pool[i]);
  }

  /** The groups read back from the key list and map, in key order. */
  lemma GroupsOfRepresentation(g: seq<DiceGroup>, order: seq<DieType>, quantities: map<DieType, int>)
    requires Represents(g, order, quantities)
    ensures seq(|order|, k requires 0 <= k < |order| => DiceGroup(order[k], quantities[order[k]])) == g
  {
  }

  /** `groupDiceByType`, with the JavaScript `Map` as a key list in insertion
      order beside a map of quantities. */
  method GroupDiceByType(pool: seq<DiceGroup>) returns (grouped: seq<DiceGroup>)
    ensures grouped == GroupedByType(pool)
    ensures DistinctTypes(grouped)
    ensures Types(grouped) == FirstAppearances(Types(pool))
    ensures forall t :: QuantityOf(grouped, t) == QuantityOf(pool, t)
  {
    var order: seq<DieType> := [];
    var quantities: map<DieType, int> := map[];
    for i := 0 to |pool|
      invariant Represents(GroupedByType(pool[..i]), order, quantities)
    {
      GroupStep(pool, i, order, quantities);
      var group := pool[i];
      var existing := if group.dieType in quantities then quantities[group.dieType] else 0;
      if group.dieType !in quantities {
        order := order + [group.dieType];
      }
      quantities := quantities[group.dieType := existing + group.quantity];
    }
    assert pool[..|pool|] == pool;
    GroupsOfRepresentation(GroupedByType(pool), order, quantities);
    grouped := seq(|order|, k requires 0 <= k < |order| => DiceGroup(order[k], quantities[order[k]]));
    GroupedByTypeOrder(pool);
    forall t ensures QuantityOf(grouped, t) == QuantityOf(pool, t) {
      GroupedByTypeQuantities(pool, t);
    }
  }
}
