/**
  How a key-cap label is cut into the keys it names (`parseCompoundKeys`):
  "Q-W-E" into single letters, "Ctrl + K" at the plus signs, "⌘ K" at the
  spaces when every piece is short, anything else left whole.
 */
module Kbd {
  import opened Wrappers
  import opened JsText

  /** The children of a key cap: a string, or any other node. */
  datatype Children = Text(s: string) | Element

  predicate IsUpper(c: char)
  {
    'A' <= c <= 'Z'
  }

  /** `/^[A-Z](-[A-Z])+$/`: two or more capital letters, each pair joined by
      one dash. */
  predicate IsLetterChain(s: string)
  {
    && |s| >= 3 && |s| % 2 == 1
    && forall i :: 0 <= i < |s| ==> if i % 2 == 0 then IsUpper(s[i]) else s[i] == '-'
  }

  predicate AllShort(parts: seq<string>)
  {
    forall i :: 0 <= i < |parts| ==> |parts[i]| <= 3
  }

  /** `parts.map(k => k.trim())`. */
  function TrimAll(parts: seq<string>): (trimmed: seq<string>)
    ensures |trimmed| == |parts|
    ensures forall i :: 0 <= i < |parts| ==> trimmed[i] == Trim(parts[i])
  {
    seq(|parts|, i requires 0 <= i < |parts| => Trim(parts[i]))
  }

  /** The three splitting rules, in priority order, then the whole label. */
  function ParseCompoundKeys(children: Children): seq<string>
  {
    match children
    case Element => []
    case Text(s) =>
      if '-' in s && IsLetterChain(s) then Split(s, '-')
      else if '+' in s then TrimAll(Split(s, '+'))
      else if ' ' in s && AllShort(Split(s, ' ')) then Split(s, ' ')
      else [s]
  }

  /** A non-string child gives no keys; a string gives at least one. */
  lemma KeysOfChildren(children: Children)
    ensures children.Element? ==> ParseCompoundKeys(children) == []
    ensures children.Text? ==> |ParseCompoundKeys(children)| >= 1
  {
  }

  /** The letters of a chain of `n` capitals joined by dashes. */
  function ChainLetters(s: string): (letters: seq<string>)
    requires IsLetterChain(s)
    ensures |letters| == (|s| + 1) / 2
    ensures forall k :: 0 <= k < |letters| ==> letters[k] == [s[2 * k]]
  {
    seq((|s| + 1) / 2, k requires 0 <= k < (|s| + 1) / 2 => [s[2 * k]])
  }

  /** A letter chain is cut into its letters: at least two keys, each a single
      capital, in order. */
  lemma LetterChainKeys(s: string)
    requires IsLetterChain(s)
    ensures ParseCompoundKeys(Text(s)) == ChainLetters(s)
    ensures |ParseCompoundKeys(Text(s))| >= 2
    ensures forall k :: 0 <= k < |ParseCompoundKeys(Text(s))| ==>
              |ParseCompoundKeys(Text(s))[k]| == 1 && IsUpper(ParseCompoundKeys(Text(s))[k][0])
  {
    assert s[1] == '-';
    ChainJoin(s);
    SplitJoin(ChainLetters(s), '-');
  }

  /** A chain is its letters joined with dashes. */
  lemma {:induction false} ChainJoin(s: string)
    requires IsLetterChain(s)
    ensures Join(ChainLetters(s), "-") == s
    decreases |s|
  {
    var letters := ChainLetters(s);
    if |s| == 3 {
      assert letters == [[s[0]], [s[2]]];
      assert Join(letters, "-") == [s[0]] + "-" + Join([[s[2]]], "-");
    } else {
      var rest := s[2..];
      assert IsLetterChain(rest) by {
        forall i | 0 <= i < |rest|
          ensures if i % 2 == 0 then IsUpper(rest[i]) else rest[i] == '-'
        {
          assert rest[i] == s[i + 2];
          assert (i + 2) % 2 == i % 2;
        }
      }
      ChainJoin(rest);
      assert letters[1..] == ChainLetters(rest);
      assert s == [s[0]] + "-" + rest;
    }
  }

  /** The letters joined with dashes form a chain that cuts back into those
      letters. */
  lemma LetterChainRoundTrip(letters: seq<char>)
    requires |letters| >= 2 && forall k :: 0 <= k < |letters| ==> IsUpper(letters[k])
    ensures var keys := seq(|letters|, k requires 0 <= k < |letters| => [letters[k]]);
            ParseCompoundKeys(Text(Join(keys, "-"))) == keys
  {
    var keys := seq(|letters|, k requires 0 <= k < |letters| => [letters[k]]);
    JoinedLettersChain(letters);
    LetterChainKeys(Join(keys, "-"));
  }

  /** Two or more capitals joined with dashes form a chain of those letters. */
  lemma JoinedLettersChain(letters: seq<char>)
    requires |letters| >= 2 && forall k :: 0 <= k < |letters| ==> IsUpper(letters[k])
    ensures var keys := seq(|letters|, k requires 0 <= k < |letters| => [letters[k]]);
            IsLetterChain(Join(keys, "-")) && ChainLetters(Join(keys, "-")) == keys
  {
    var keys := seq(|letters|, k requires 0 <= k < |letters| => [letters[k]]);
    var s := Join(keys, "-");
    JoinSingles(letters);
    assert IsLetterChain(s);
    assert ChainLetters(s) == keys;
  }

  /** Single characters joined with dashes: the characters at the even
      places, dashes between. */
  lemma {:induction false} JoinSingles(letters: seq<char>)
    requires |letters| >= 1
    ensures var s := Join(seq(|letters|, k requires 0 <= k < |letters| => [letters[k]]), "-");
            && |s| == 2 * |letters| - 1
            && forall i :: 0 <= i < |s| ==> s[i] == if i % 2 == 0 then letters[i / 2] else '-'
  {
    var keys := seq(|letters|, k requires 0 <= k < |letters| => [letters[k]]);
    if |letters| > 1 {
      var tail := letters[1..];
      JoinSingles(tail);
      var tailKeys := seq(|tail|, k requires 0 <= k < |tail| => [tail[k]]);
      assert keys[1..] == tailKeys;
      var s := Join(keys, "-");
      var t := Join(tailKeys, "-");
      assert s == [letters[0]] + "-" + t;
      forall i | 2 <= i < |s|
        ensures s[i] == if i % 2 == 0 then letters[i / 2] else '-'
      {
        assert s[i] == t[i - 2];
        assert (i - 2) % 2 == i % 2;
      }
    } else {
      assert Join(keys, "-") == [letters[0]];
    }
  }

  /** A label with a plus sign is cut at every plus sign, and each piece
      loses its surrounding white space. */
  lemma PlusKeys(s: string)
    requires '+' in s
    ensures var keys := ParseCompoundKeys(Text(s));
            && |keys| >= 2
            && keys == TrimAll(Split(s, '+'))
            && forall k :: 0 <= k < |keys| ==>
                 '+' !in keys[k] && (keys[k] != [] ==> !IsJsWhitespace(keys[k][0]) && !IsJsWhitespace(keys[k][|keys[k]| - 1]))
  {
    NotLetterChain(s, '+');
    SplitInTwo(s, '+');
    var parts := Split(s, '+');
    forall k | 0 <= k < |parts|
      ensures '+' !in Trim(parts[k])
    {
      var t := Trim(parts[k]);
      var lead, trail :| parts[k] == lead + t + trail;
      assert forall c :: c in t ==> c in parts[k];
    }
  }

  /** A label holding a character other than a capital or a dash is no
      letter chain. */
  lemma NotLetterChain(s: string, c: char)
    requires c in s && c != '-' && !IsUpper(c)
    ensures !IsLetterChain(s)
  {
    var i :| 0 <= i < |s| && s[i] == c;
  }

  /** A label holding the separator splits into two pieces or more. */
  lemma SplitInTwo(s: string, sep: char)
    requires sep in s
    ensures |Split(s, sep)| >= 2
  {
  }

  /** Keys with no plus sign and no white space at their ends, joined with
      " + " as a label, cut back into the same keys. */
  lemma PlusRoundTrip(keys: seq<string>)
    requires |keys| >= 2
    requires forall k :: 0 <= k < |keys| ==> '+' !in keys[k]
    requires forall k :: 0 <= k < |keys| ==> keys[k] != [] ==> !IsJsWhitespace(keys[k][0]) && !IsJsWhitespace(keys[k][|keys[k]| - 1])
    ensures ParseCompoundKeys(Text(Join(keys, "+"))) == keys
  {
    var s := Join(keys, "+");
    SeparatorInJoin(keys, '+');
    NotLetterChain(s, '+');
    SplitJoin(keys, '+');
    forall k | 0 <= k < |keys|
      ensures Trim(keys[k]) == keys[k]
    {
      TrimOfTrimmed(keys[k]);
    }
    assert TrimAll(keys) == keys;
  }

  /** Two pieces or more joined with a separator hold it. */
  lemma SeparatorInJoin(parts: seq<string>, sep: char)
    requires |parts| >= 2
    ensures sep in Join(parts, [sep])
  {
    var s := Join(parts, [sep]);
    assert s == parts[0] + [sep] + Join(parts[1..], [sep]);
    assert s[|parts[0]|] == sep;
  }

  lemma TrimOfTrimmed(s: string)
    requires s != [] ==> !IsJsWhitespace(s[0]) && !IsJsWhitespace(s[|s| - 1])
    ensures Trim(s) == s
  {
    TrimStartOfUnspaced(s);
  }

  /** Otherwise a label with a space whose pieces are all at most three
      characters long is cut at every space, and joining the keys with
      spaces gives the label back. */
  lemma SpaceKeys(s: string)
    requires '+' !in s && ' ' in s && AllShort(Split(s, ' '))
    ensures var keys := ParseCompoundKeys(Text(s));
            && |keys| >= 2
            && Join(keys, " ") == s
            && forall k :: 0 <= k < |keys| ==> |keys[k]| <= 3 && ' ' !in keys[k]
  {
    NotLetterChain(s, ' ');
    SplitInTwo(s, ' ');
  }

  /** A label none of the rules applies to is one key, as written. */
  lemma WholeLabel(s: string)
    requires !('-' in s && IsLetterChain(s)) && '+' !in s && !(' ' in s && AllShort(Split(s, ' ')))
    ensures ParseCompoundKeys(Text(s)) == [s]
  {
  }
}
