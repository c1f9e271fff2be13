/** The reference semantics of the mnemonic generator: the ordered list of
    every word a digit string spells on the keypad, and what that list is
    characterised by (which words it holds, how many, in what order, of
    what length). Both helper implementations are proved to produce it. */
module Spelling {
  import opened Keypad
  import opened Words

  /** Each letter of `letters` in turn, followed by each of `tails` in turn:
      the words produced by trying every letter of one button and, for each,
      every continuation. */
  function Extend(letters: string, tails: seq<string>): (r: seq<string>)
    decreases |letters|
  {
    if |letters| == 0 then []
    else Extend(letters[..|letters| - 1], tails) + Prepend([letters[|letters| - 1]], tails)
  }

  /** Depth-first enumeration of the words `ds` spells, left to right: a digit
      without letters contributes nothing, any other digit contributes each of
      its letters in keypad order. */
  function Spellings(ds: string): (r: seq<string>)
    requires AllDigits(ds)
    decreases |ds|
  {
    if |ds| == 0 then [""]
    else if HasNoLetters(ds[0]) then Spellings(ds[1..])
    else Extend(Letters(ds[0]), Spellings(ds[1..]))
  }

  /** The words one call of the backtracking recursion appends: with
      `prefix` built so far and digits `ds` left, every word `ds` spells,
      each preceded by `prefix`, in the order the recursion finds them. */
  function Expansion(prefix: string, ds: string): seq<string>
    requires AllDigits(ds)
    decreases |ds|, 0
  {
    if |ds| == 0 then [prefix]
    else if HasNoLetters(ds[0]) then Expansion(prefix, ds[1..])
    else ExpandLetters(prefix, Letters(ds[0]), ds[1..])
  }

  /** The words appended by trying `letters` in turn after `prefix`, with
      digits `ds` left after the current one. */
  function ExpandLetters(prefix: string, letters: string, ds: string): seq<string>
    requires AllDigits(ds)
    decreases |ds|, |letters|
  {
    if |letters| == 0 then []
    else ExpandLetters(prefix, letters[..|letters| - 1], ds) + Expansion(prefix + [letters[|letters| - 1]], ds)
  }

  /** Trying one more letter appends the words it starts. */
  lemma ExpandLettersStep(prefix: string, letters: string, i: nat, ds: string)
    requires AllDigits(ds) && i < |letters|
    ensures ExpandLetters(prefix, letters[..i + 1], ds)
            == ExpandLetters(prefix, letters[..i], ds) + Expansion(prefix + [letters[i]], ds)
  {
    assert letters[..i + 1][..i] == letters[..i];
  }

  /** The number of digits of `ds` that have no letters ('0' and '1'). */
  function CountNoLetters(ds: string): (n: nat)
    ensures n <= |ds|
    decreases |ds|
  {
    if |ds| == 0 then 0
    else (if HasNoLetters(ds[0]) then 1 else 0) + CountNoLetters(ds[1..])
  }

  /** The letter sets of the digits of `ds` that have letters, in order:
      slot `j` constrains character `j` of every word. */
  function Slots(ds: string): (r: seq<string>)
    requires AllDigits(ds)
    ensures |r| == |ds| - CountNoLetters(ds)
    ensures forall j :: 0 <= j < |r| ==> |r[j]| > 0
    decreases |ds|
  {
    if |ds| == 0 then []
    else if HasNoLetters(ds[0]) then Slots(ds[1..])
    else [Letters(ds[0])] + Slots(ds[1..])
  }

  /** `w` is a word `ds` spells: one character per slot, each taken from its
      slot's letters. */
  predicate Spells(ds: string, w: string)
    requires AllDigits(ds)
  {
    var slots := Slots(ds);
    |w| == |slots| && forall j :: 0 <= j < |w| ==> w[j] in slots[j]
  }

  /** How many choices digit `c` offers: its number of letters, or one (the
      empty contribution) for a digit without letters. */
  function Choices(c: char): (n: nat)
    requires IsDigit(c)
  {
    if HasNoLetters(c) then 1 else |Letters(c)|
  }

  /** The product of the choices of all digits of `ds`. */
  function Product(ds: string): (n: nat)
    requires AllDigits(ds)
    decreases |ds|
  {
    if |ds| == 0 then 1 else Choices(ds[0]) * Product(ds[1..])
  }

  /** One more letter tried: the words it starts follow those of the letters
      before it, so appending them to the list produced so far gives the list
      for one more letter. */
  lemma ExtendStep(results: seq<string>, prefix: string, letters: string, i: nat,
                   tails: seq<string>, before: seq<string>, after: seq<string>)
    requires i < |letters|
    requires before == results + Prepend(prefix, Extend(letters[..i], tails))
    requires after == before + Prepend(prefix + [letters[i]], tails)
    ensures after == results + Prepend(prefix, Extend(letters[..i + 1], tails))
  {
    assert letters[..i + 1][..i] == letters[..i];
    PrependPrepend(prefix, [letters[i]], tails);
    PrependConcat(prefix, Extend(letters[..i], tails), Prepend([letters[i]], tails));
  }

  lemma {:induction false} ExtendMembership(letters: string, tails: seq<string>, w: string)
    ensures w in Extend(letters, tails) <==> |w| > 0 && w[0] in letters && w[1..] in tails
    decreases |letters|
  {
    if |letters| > 0 {
      var init, last := letters[..|letters| - 1], letters[|letters| - 1];
      ExtendMembership(init, tails, w);
      PrependCharMembership(last, tails, w);
      assert letters == init + [last];
    }
  }

  lemma {:induction false} ExtendLength(letters: string, tails: seq<string>)
    ensures |Extend(letters, tails)| == |letters| * |tails|
    decreases |letters|
  {
    if |letters| > 0 {
      ExtendLength(letters[..|letters| - 1], tails);
      PrependIndex([letters[|letters| - 1]], tails);
      assert |letters| * |tails| == (|letters| - 1) * |tails| + |tails|;
    }
  }

  /** Letters in keypad order and sorted continuations give a sorted list. */
  lemma {:induction false} ExtendSorted(letters: string, tails: seq<string>)
    requires Increasing(letters)
    requires StrictlySorted(tails)
    ensures StrictlySorted(Extend(letters, tails))
    decreases |letters|
  {
    if |letters| > 0 {
      var init, last := letters[..|letters| - 1], letters[|letters| - 1];
      ExtendSorted(init, tails);
      PrependCharSorted(last, tails);
      forall x, y | x in Extend(init, tails) && y in Prepend([last], tails)
        ensures Less(x, y)
      {
        ExtendMembership(init, tails, x);
        PrependCharMembership(last, tails, y);
        var k :| 0 <= k < |init| && init[k] == x[0];
        assert x[0] < y[0];
      }
      SortedConcat(Extend(init, tails), Prepend([last], tails));
    }
  }

  /** A word spelled by a digit with letters followed by `ds[1..]`. */
  lemma SpellsCons(ds: string, w: string)
    requires AllDigits(ds) && |ds| > 0 && !HasNoLetters(ds[0])
    ensures Spells(ds, w) <==> |w| > 0 && w[0] in Letters(ds[0]) && Spells(ds[1..], w[1..])
  {
    var slots, rest := Slots(ds), Slots(ds[1..]);
    assert slots == [Letters(ds[0])] + rest;
    if Spells(ds, w) {
      forall j | 0 <= j < |w| - 1
        ensures w[1..][j] in rest[j]
      {
        assert w[j + 1] in slots[j + 1];
      }
    }
    if |w| > 0 && w[0] in Letters(ds[0]) && Spells(ds[1..], w[1..]) {
      forall j | 0 <= j < |w|
        ensures w[j] in slots[j]
      {
        if j > 0 {
          assert w[1..][j - 1] in rest[j - 1];
        }
      }
    }
  }

  /** The backtracking recursion appends exactly the reference words, each
      preceded by the prefix it was given. */
  lemma {:induction false} ExpansionIsPrepend(prefix: string, ds: string)
    requires AllDigits(ds)
    ensures Expansion(prefix, ds) == Prepend(prefix, Spellings(ds))
    decreases |ds|, 0
  {
    if |ds| == 0 {
      assert prefix + "" == prefix;
    } else if HasNoLetters(ds[0]) {
      ExpansionIsPrepend(prefix, ds[1..]);
    } else {
      ExpandLettersIsPrepend(prefix, Letters(ds[0]), ds[1..]);
    }
  }

  lemma {:induction false} ExpandLettersIsPrepend(prefix: string, letters: string, ds: string)
    requires AllDigits(ds)
    ensures ExpandLetters(prefix, letters, ds) == Prepend(prefix, Extend(letters, Spellings(ds)))
    decreases |ds|, |letters|
  {
    if |letters| > 0 {
      var init, last := letters[..|letters| - 1], letters[|letters| - 1];
      var tails := Spellings(ds);
      ExpandLettersIsPrepend(prefix, init, ds);
      ExpansionIsPrepend(prefix + [last], ds);
      PrependPrepend(prefix, [last], tails);
      PrependConcat(prefix, Extend(init, tails), Prepend([last], tails));
    }
  }

  /** Soundness and completeness: the enumeration holds exactly the words
      `ds` spells. */
  lemma {:induction false} SpellingsExact(ds: string)
    requires AllDigits(ds)
    ensures forall w :: w in Spellings(ds) <==> Spells(ds, w)
    decreases |ds|
  {
    if |ds| > 0 {
      SpellingsExact(ds[1..]);
      if !HasNoLetters(ds[0]) {
        forall w
          ensures w in Spellings(ds) <==> Spells(ds, w)
        {
          ExtendMembership(Letters(ds[0]), Spellings(ds[1..]), w);
          SpellsCons(ds, w);
        }
      }
    }
  }

  /** Every word has one character per digit with letters. */
  lemma {:induction false} SpellingsLength(ds: string)
    requires AllDigits(ds)
    ensures forall w :: w in Spellings(ds) ==> |w| == |ds| - CountNoLetters(ds)
    decreases |ds|
  {
    if |ds| > 0 {
      SpellingsLength(ds[1..]);
      if !HasNoLetters(ds[0]) {
        forall w | w in Spellings(ds)
          ensures |w| == |ds| - CountNoLetters(ds)
        {
          ExtendMembership(Letters(ds[0]), Spellings(ds[1..]), w);
        }
      }
    }
  }

  /** The number of words is the product of the digits' choices. */
  lemma {:induction false} SpellingsCount(ds: string)
    requires AllDigits(ds)
    ensures |Spellings(ds)| == Product(ds)
    decreases |ds|
  {
    if |ds| > 0 {
      SpellingsCount(ds[1..]);
      if !HasNoLetters(ds[0]) {
        ExtendLength(Letters(ds[0]), Spellings(ds[1..]));
      }
    }
  }

  /** The words come out in strictly increasing lexicographic order. */
  lemma {:induction false} SpellingsSorted(ds: string)
    requires AllDigits(ds)
    ensures StrictlySorted(Spellings(ds))
    decreases |ds|
  {
    if |ds| > 0 {
      SpellingsSorted(ds[1..]);
      if !HasNoLetters(ds[0]) {
        ExtendSorted(Letters(ds[0]), Spellings(ds[1..]));
      }
    }
  }

  /** Every word `ds` spells appears exactly once. */
  lemma SpellingsOnce(ds: string)
    requires AllDigits(ds)
    ensures forall w :: Spells(ds, w) ==> w in Spellings(ds)
    ensures Distinct(Spellings(ds))
  {
    SpellingsExact(ds);
    SpellingsSorted(ds);
    SortedDistinct(Spellings(ds));
  }

  /** The reference list is the only strictly sorted list of exactly the
      words `ds` spells. */
  lemma SpellingsUnique(ds: string, ws: seq<string>)
    requires AllDigits(ds)
    requires StrictlySorted(ws)
    requires forall w :: w in ws <==> Spells(ds, w)
    ensures ws == Spellings(ds)
  {
    SpellingsExact(ds);
    SpellingsSorted(ds);
    SortedUnique(ws, Spellings(ds));
  }

  /** Digits without letters only: the single empty word. */
  lemma {:induction false} OnlyNoLetters(ds: string)
    requires AllDigits(ds)
    requires CountNoLetters(ds) == |ds|
    ensures Spellings(ds) == [""]
    decreases |ds|
  {
    if |ds| > 0 {
      assert CountNoLetters(ds[1..]) <= |ds| - 1;
      OnlyNoLetters(ds[1..]);
    }
  }
}
