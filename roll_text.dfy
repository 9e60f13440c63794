/**
  Reading the display text of a pool or a roll back. The source only writes
  these texts; the parser here is their inverse, and proving that it undoes
  the formatting shows that the text of a roll names its pool, its modifier
  and its total without ambiguity.
 */
module RollText {
  import opened Wrappers
  import opened JsText
  import opened DiceTypes
  import opened DiceUtils

  /** The die type a name such as "d20" stands for. */
  function DieTypeOfName(name: string): (r: Option<DieType>)
    ensures r.Some? ==> DieName(r.value) == name
  {
    if name == "d4" then Some(D4)
    else if name == "d6" then Some(D6)
    else if name == "d8" then Some(D8)
    else if name == "d10" then Some(D10)
    else if name == "d12" then Some(D12)
    else if name == "d20" then Some(D20)
    else if name == "d100" then Some(D100)
    else None
  }

  /** A group's text: an optional quantity, then the die's name from its `d`
      on. */
  function ParseGroupText(text: string): Option<DiceGroup>
  {
    if 'd' !in text then None
    else
      var i := IndexOf(text, 'd');
      match DieTypeOfName(text[i..])
      case None => None
      case Some(t) =>
        if i == 0 then Some(DiceGroup(t, 1))
        else match ParseInt(text[..i])
          case None => None
          case Some(q) => Some(DiceGroup(t, q))
  }

  lemma ParseGroupTextInverse(g: DiceGroup)
    ensures ParseGroupText(GroupText(g)) == Some(g)
  {
    var name := DieName(g.dieType);
    var prefix := if g.quantity == 1 then "" else IntToString(g.quantity);
    assert GroupText(g) == prefix + name;
    assert 'd' !in prefix;
    DieNameInverse(g.dieType);
    IndexOfAfterPrefix(prefix, name, 'd');
    assert (prefix + name)[|prefix|..] == name && (prefix + name)[..|prefix|] == prefix;
    if g.quantity != 1 {
      ParseIntOfIntToString(g.quantity);
    }
  }

  lemma DieNameInverse(t: DieType)
    ensures DieTypeOfName(DieName(t)) == Some(t)
    ensures |DieName(t)| >= 2 && DieName(t)[0] == 'd'
  {
    match t
    case D4 => case D6 => case D8 => case D10 => case D12 => case D20 => case D100 =>
  }

  /** The first `c` of `prefix + rest` is the first of `rest` when `prefix`
      has none. */
  lemma IndexOfAfterPrefix(prefix: string, rest: string, c: char)
    requires c !in prefix && rest != [] && rest[0] == c
    ensures c in prefix + rest && IndexOf(prefix + rest, c) == |prefix|
  {
    var s := prefix + rest;
    assert s[|prefix|] == c;
    assert s[..|prefix|] == prefix;
  }

  /** A group's text has no space and holds a `d`. */
  lemma GroupTextShape(g: DiceGroup)
    ensures ' ' !in GroupText(g) && 'd' in GroupText(g)
  {
    var name := DieName(g.dieType);
    var prefix := if g.quantity == 1 then "" else IntToString(g.quantity);
    assert GroupText(g) == prefix + name;
    assert ' ' !in prefix;
    assert ' ' !in name && name[0] == 'd';
    assert GroupText(g)[|prefix|] == 'd';
  }

  // ---------------------------------------------------------------------
  // Tokens: the display text cut at its spaces

  /** The texts with a "+" token between each two. */
  function Interleave(texts: seq<string>): seq<string>
    requires |texts| >= 1
  {
    if |texts| == 1 then texts else [texts[0], "+"] + Interleave(texts[1..])
  }

  lemma {:induction false} JoinAppend(a: seq<string>, b: seq<string>, sep: string)
    requires |a| >= 1 && |b| >= 1
    ensures Join(a + b, sep) == Join(a, sep) + sep + Join(b, sep)
  {
    if |a| > 1 {
      assert (a + b)[1..] == a[1..] + b;
      JoinAppend(a[1..], b, sep);
    }
  }

  /** Joining with " + " is joining the interleaved tokens with a space. */
  lemma {:induction false} JoinPlus(texts: seq<string>)
    requires |texts| >= 1
    ensures Join(texts, " + ") == Join(Interleave(texts), " ")
  {
    if |texts| > 1 {
      JoinPlus(texts[1..]);
      var rest := Interleave(texts[1..]);
      assert Interleave(texts) == [texts[0]] + (["+"] + rest);
      JoinAppend([texts[0]], ["+"] + rest, " ");
      JoinAppend(["+"], rest, " ");
    }
  }

  /** The tokens of a pool's text. */
  function PoolTokens(pool: seq<DiceGroup>): seq<string>
  {
    if pool == [] then ["Empty"] else Interleave(GroupTexts(pool))
  }

  /** The token of a nonzero modifier ("+3", "-2"); none for 0. */
  function ModifierTokens(modifier: int): seq<string>
  {
    if modifier == 0 then [] else [(if modifier > 0 then "+" else "") + IntToString(modifier)]
  }

  /** The tokens of a roll's text. */
  function RollTokens(result: RollResult): seq<string>
  {
    PoolTokens(result.dicePool) + ModifierTokens(result.modifier) + ["=", IntToString(result.total)]
  }

  lemma FormatDicePoolTokens(pool: seq<DiceGroup>)
    ensures FormatDicePool(pool) == Join(PoolTokens(pool), " ")
  {
    if pool != [] {
      JoinPlus(GroupTexts(pool));
    }
  }

  lemma FormatRollResultTokens(result: RollResult)
    ensures FormatRollResult(result) == Join(RollTokens(result), " ")
  {
    var total := IntToString(result.total);
    assert Join(["=", total], " ") == "= " + total by {
      assert Join(["=", total][1..], " ") == total;
    }
    FormatDicePoolTokens(result.dicePool);
    PoolTokensShape(result.dicePool);
    if result.modifier == 0 {
      RollTextWithoutModifier(result);
    } else {
      RollTextWithModifier(result);
    }
  }

  lemma RollTextWithoutModifier(result: RollResult)
    requires result.modifier == 0 && |PoolTokens(result.dicePool)| >= 1
    requires FormatDicePool(result.dicePool) == Join(PoolTokens(result.dicePool), " ")
    requires Join(["=", IntToString(result.total)], " ") == "= " + IntToString(result.total)
    ensures FormatRollResult(result) == Join(RollTokens(result), " ")
  {
    var p := PoolTokens(result.dicePool);
    var tail := ["=", IntToString(result.total)];
    assert RollTokens(result) == p + tail;
    JoinAppend(p, tail, " ");
  }

  lemma RollTextWithModifier(result: RollResult)
    requires result.modifier != 0 && |PoolTokens(result.dicePool)| >= 1
    requires FormatDicePool(result.dicePool) == Join(PoolTokens(result.dicePool), " ")
    requires Join(["=", IntToString(result.total)], " ") == "= " + IntToString(result.total)
    ensures FormatRollResult(result) == Join(RollTokens(result), " ")
  {
    var p := PoolTokens(result.dicePool);
    var m := ModifierTokens(result.modifier);
    var tail := ["=", IntToString(result.total)];
    assert RollTokens(result) == (p + m) + tail;
    JoinAppend(p + m, tail, " ");
    JoinAppend(p, m, " ");
    assert Join(m, " ") == m[0];
    assert ModifierText(result.modifier) == " " + m[0];
  }

  lemma {:induction false} InterleaveShape(texts: seq<string>)
    requires |texts| >= 1
    requires forall i :: 0 <= i < |texts| ==> ' ' !in texts[i]
    ensures forall i :: 0 <= i < |Interleave(texts)| ==> ' ' !in Interleave(texts)[i]
    ensures |Interleave(texts)| == 2 * |texts| - 1
    ensures Interleave(texts)[|Interleave(texts)| - 1] == texts[|texts| - 1]
  {
    if |texts| > 1 {
      InterleaveShape(texts[1..]);
    }
  }

  lemma PoolTokensShape(pool: seq<DiceGroup>)
    ensures |PoolTokens(pool)| >= 1
    ensures forall i :: 0 <= i < |PoolTokens(pool)| ==> ' ' !in PoolTokens(pool)[i]
    ensures var last := PoolTokens(pool)[|PoolTokens(pool)| - 1];
            last == "Empty" || 'd' in last
  {
    if pool != [] {
      var texts := GroupTexts(pool);
      forall i | 0 <= i < |texts| ensures ' ' !in texts[i] {
        GroupTextShape(pool[i]);
      }
      InterleaveShape(texts);
      GroupTextShape(pool[|pool| - 1]);
    }
  }

  // ---------------------------------------------------------------------
  // The parsers

  /** Group tokens separated by "+" tokens. */
  function ParseGroupTokens(tokens: seq<string>): Option<seq<DiceGroup>>
    decreases |tokens|
  {
    if tokens == [] then None
    else match ParseGroupText(tokens[0])
      case None => None
      case Some(g) =>
        if |tokens| == 1 then Some([g])
        else if |tokens| >= 3 && tokens[1] == "+" then
          match ParseGroupTokens(tokens[2..])
          case None => None
          case Some(rest) => Some([g] + rest)
        else None
  }

  function ParsePoolTokens(tokens: seq<string>): Option<seq<DiceGroup>>
  {
    if tokens == ["Empty"] then Some([]) else ParseGroupTokens(tokens)
  }

  /** Reads a pool back from its display text. */
  function ParseDicePool(text: string): Option<seq<DiceGroup>>
  {
    ParsePoolTokens(Split(text, ' '))
  }

  lemma {:induction false} ParseGroupTokensInverse(pool: seq<DiceGroup>)
    requires pool != []
    ensures ParseGroupTokens(Interleave(GroupTexts(pool))) == Some(pool)
  {
    ParseGroupTextInverse(pool[0]);
    var texts := GroupTexts(pool);
    var tokens := Interleave(texts);
    assert tokens[0] == GroupText(pool[0]);
    if |pool| > 1 {
      assert texts[1..] == GroupTexts(pool[1..]);
      assert tokens[1] == "+" && tokens[2..] == Interleave(GroupTexts(pool[1..]));
      ParseGroupTokensInverse(pool[1..]);
      assert [pool[0]] + pool[1..] == pool;
    } else {
      assert |tokens| == 1;
      assert [pool[0]] == pool;
    }
  }

  lemma PoolTokensInverse(pool: seq<DiceGroup>)
    ensures ParsePoolTokens(PoolTokens(pool)) == Some(pool)
  {
    if pool != [] {
      ParseGroupTokensInverse(pool);
      GroupTextShape(pool[0]);
      assert PoolTokens(pool)[0] == GroupText(pool[0]);
      assert 'd' !in "Empty";
    }
  }

  /** `formatDicePool` loses nothing: its text reads back as the same pool. */
  lemma ParseDicePoolInverse(pool: seq<DiceGroup>)
    ensures ParseDicePool(FormatDicePool(pool)) == Some(pool)
  {
    FormatDicePoolTokens(pool);
    PoolTokensShape(pool);
    SplitJoin(PoolTokens(pool), ' ');
    PoolTokensInverse(pool);
  }

  /** Only the empty pool is shown as "Empty", and two pools with the same
      text are the same pool. */
  lemma FormatDicePoolInjective(a: seq<DiceGroup>, b: seq<DiceGroup>)
    ensures FormatDicePool(a) == "Empty" <==> a == []
    ensures FormatDicePool(a) == FormatDicePool(b) ==> a == b
  {
    ParseDicePoolInverse(a);
    ParseDicePoolInverse(b);
    ParseDicePoolInverse([]);
  }

  /** What the text of a roll says. */
  datatype RollSummary = RollSummary(dicePool: seq<DiceGroup>, modifier: int, total: int)

  /** A modifier token is any token before "=" that is neither a group nor
      "Empty". */
  predicate IsModifierToken(token: string) {
    'd' !in token && token != "Empty"
  }

  /** Reads pool, modifier and total back from a roll's display text. */
  function ParseRollText(text: string): Option<RollSummary>
  {
    var tokens := Split(text, ' ');
    var n := |tokens|;
    if n < 2 || tokens[n - 2] != "=" then None
    else
      var head := tokens[..n - 2];
      var hasModifier := |head| >= 2 && IsModifierToken(head[|head| - 1]);
      var poolTokens := if hasModifier then head[..|head| - 1] else head;
      var modifier := if hasModifier then ParseInt(head[|head| - 1]) else Some(0);
      match (ParsePoolTokens(poolTokens), modifier, ParseInt(tokens[n - 1]))
      case (Some(pool), Some(m), Some(total)) => Some(RollSummary(pool, m, total))
      case _ => None
  }

  lemma ModifierTokenValue(modifier: int)
    requires modifier != 0
    ensures ParseInt(ModifierTokens(modifier)[0]) == Some(modifier)
    ensures IsModifierToken(ModifierTokens(modifier)[0]) && ' ' !in ModifierTokens(modifier)[0]
  {
    var digits := IntToString(modifier);
    var token := ModifierTokens(modifier)[0];
    if modifier > 0 {
      assert token == "+" + digits;
      ParseIntOfPlusSigned(modifier);
    } else {
      assert token == digits;
      ParseIntOfIntToString(modifier);
    }
    assert token[0] == '+' || token[0] == '-';
    assert forall k :: 0 <= k < |token| ==> token[k] == '+' || IsDigit(token[k]) || token[k] == '-';
  }

  /** Cutting a roll's text at its spaces gives its tokens. */
  lemma SplitRollText(result: RollResult)
    ensures Split(FormatRollResult(result), ' ') == RollTokens(result)
  {
    var tokens := RollTokens(result);
    FormatRollResultTokens(result);
    PoolTokensShape(result.dicePool);
    if result.modifier != 0 {
      ModifierTokenValue(result.modifier);
    }
    assert ' ' !in "=" && ' ' !in IntToString(result.total);
    forall i | 0 <= i < |tokens| ensures ' ' !in tokens[i] {
    }
    SplitJoin(tokens, ' ');
  }

  /** The token parser reads a roll's tokens back. */
  lemma ParseRollTokens(result: RollResult)
    ensures var tokens := RollTokens(result);
            var n := |tokens|;
            && n >= 2 && tokens[n - 2] == "="
            && var head := tokens[..n - 2];
               var hasModifier := |head| >= 2 && IsModifierToken(head[|head| - 1]);
               && hasModifier == (result.modifier != 0)
               && ParsePoolTokens(if hasModifier then head[..|head| - 1] else head) == Some(result.dicePool)
               && (hasModifier ==> ParseInt(head[|head| - 1]) == Some(result.modifier))
               && ParseInt(tokens[n - 1]) == Some(result.total)
  {
    var tokens := RollTokens(result);
    var n := |tokens|;
    PoolTokensShape(result.dicePool);
    PoolTokensInverse(result.dicePool);
    ParseIntOfIntToString(result.total);
    assert tokens[n - 2] == "=" && tokens[n - 1] == IntToString(result.total);
    if result.modifier == 0 {
      RollHeadWithoutModifier(result);
    } else {
      RollHeadWithModifier(result);
    }
  }

  lemma RollHeadWithoutModifier(result: RollResult)
    requires result.modifier == 0
    requires |PoolTokens(result.dicePool)| >= 1
    requires var last := PoolTokens(result.dicePool)[|PoolTokens(result.dicePool)| - 1];
             last == "Empty" || 'd' in last
    ensures var tokens := RollTokens(result);
            tokens[..|tokens| - 2] == PoolTokens(result.dicePool)
  {
    var tokens := RollTokens(result);
    assert tokens == PoolTokens(result.dicePool) + ["=", IntToString(result.total)];
  }

  lemma RollHeadWithModifier(result: RollResult)
    requires result.modifier != 0
    requires |PoolTokens(result.dicePool)| >= 1
    ensures var tokens := RollTokens(result);
            var head := tokens[..|tokens| - 2];
            && |head| >= 2 && head[|head| - 1] == ModifierTokens(result.modifier)[0]
            && head[..|head| - 1] == PoolTokens(result.dicePool)
            && IsModifierToken(head[|head| - 1])
            && ParseInt(head[|head| - 1]) == Some(result.modifier)
  {
    var p := PoolTokens(result.dicePool);
    var m := ModifierTokens(result.modifier);
    var tokens := RollTokens(result);
    assert tokens == (p + m) + ["=", IntToString(result.total)];
    var head := tokens[..|tokens| - 2];
    assert head == p + m;
    assert head[..|head| - 1] == p;
    ModifierTokenValue(result.modifier);
  }

  /** `formatRollResult` loses nothing of the pool, the modifier and the total:
      its text reads back as all three. */
  lemma ParseRollTextInverse(result: RollResult)
    ensures ParseRollText(FormatRollResult(result)) ==
            Some(RollSummary(result.dicePool, result.modifier, result.total))
  {
    SplitRollText(result);
    ParseRollTokens(result);
  }

  /** Two rolls with the same display text agree on pool, modifier and total. */
  lemma FormatRollResultInjective(a: RollResult, b: RollResult)
    requires FormatRollResult(a) == FormatRollResult(b)
    ensures a.dicePool == b.dicePool && a.modifier == b.modifier && a.total == b.total
  {
    ParseRollTextInverse(a);
    ParseRollTextInverse(b);
  }
}
