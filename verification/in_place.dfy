/** `phoneMnemonicHelper`: the version that writes letters into a buffer
    allocated once with seven characters.

    A digit with letters overwrites the buffer at the next character index
    for each of its letters in turn; a digit without letters shrinks the
    buffer by one character and never restores it. That is correct only when
    no digit without letters follows a digit with letters, i.e. when the
    digits '0' and '1' all come first (`NoLettersFirst`); this model demands
    it. The buffer (`resultStr`) and result vector are C++ references: each is
    passed in and its final value returned. */
module InPlace {
  import opened Keypad
  import opened Words
  import opened Spelling

  /** The number of digits the helper consumes before it emits a word. */
  const DigitTotal := 7

  /** No digit without letters comes after a digit with letters. */
  predicate NoLettersFirst(ds: string)
    decreases |ds|
  {
    |ds| == 0 || (if HasNoLetters(ds[0]) then NoLettersFirst(ds[1..]) else CountNoLetters(ds) == 0)
  }

  /** No digit of `ds` is '0' or '1' exactly when none is counted. */
  lemma {:induction false} CountNoLettersZero(ds: string)
    ensures CountNoLetters(ds) == 0 <==> forall k :: 0 <= k < |ds| ==> !HasNoLetters(ds[k])
    decreases |ds|
  {
    if |ds| > 0 {
      CountNoLettersZero(ds[1..]);
      assert forall k :: 0 < k < |ds| ==> ds[k] == ds[1..][k - 1];
    }
  }

  /** `NoLettersFirst` says what its name does: whenever a later digit has
      no letters, neither has any earlier one. */
  lemma {:induction false} NoLettersFirstMeaning(ds: string)
    ensures NoLettersFirst(ds)
            <==> forall i, j :: 0 <= i < j < |ds| && HasNoLetters(ds[j]) ==> HasNoLetters(ds[i])
    decreases |ds|
  {
    if |ds| > 0 {
      NoLettersFirstMeaning(ds[1..]);
      CountNoLettersZero(ds);
      assert forall k :: 0 < k < |ds| ==> ds[k] == ds[1..][k - 1];
    }
  }

  /** One pass of the letter loop on the buffer: writing `c` at index `n`
      extends the first `n` characters by `c`, and a recursive call that keeps
      the first `n + 1` characters also keeps the first `n`. */
  lemma WriteStep(before: string, written: string, n: nat, c: char, after: string)
    requires n < |before| && before[..n] == written
    requires n < |after| && after[..n + 1] == before[n := c][..n + 1]
    ensures before[n := c][..n + 1] == written + [c]
    ensures after[..n] == written
  {
    assert after[..n] == after[..n + 1][..n];
  }

  /** All seven digits consumed: appending the buffer is appending the one
      word the empty rest of the number expands to. */
  lemma FinishedWord(resultStr: string, results: seq<string>)
    ensures results + [resultStr] == results + Expansion(resultStr[..|resultStr|], [])
  {
    assert resultStr[..|resultStr|] == resultStr;
    assert resultStr + "" == resultStr;
  }

  /** The buffer cut by one character keeps its first `n` characters. */
  lemma Shrink(buffer: string, n: nat, after: string)
    requires n < |buffer| && n <= |after|
    requires after[..n] == buffer[..|buffer| - 1][..n]
    ensures after[..n] == buffer[..n]
  {
  }

  /** What consuming digit `digitCount` does to the digits left: the order
      condition still holds, the count of digits without letters drops by
      this digit's share, and the words split by this digit's letters. */
  lemma NextDigit(phoneNumber: string, digitCount: nat, prefix: string)
    requires AllDigits(phoneNumber) && digitCount < |phoneNumber|
    requires NoLettersFirst(phoneNumber[digitCount..])
    ensures NoLettersFirst(phoneNumber[digitCount + 1..])
    ensures HasNoLetters(phoneNumber[digitCount]) ==>
              && CountNoLetters(phoneNumber[digitCount..]) == 1 + CountNoLetters(phoneNumber[digitCount + 1..])
              && Expansion(prefix, phoneNumber[digitCount..]) == Expansion(prefix, phoneNumber[digitCount + 1..])
    ensures !HasNoLetters(phoneNumber[digitCount]) ==>
              && CountNoLetters(phoneNumber[digitCount..]) == 0
              && CountNoLetters(phoneNumber[digitCount + 1..]) == 0
              && Expansion(prefix, phoneNumber[digitCount..])
                 == ExpandLetters(prefix, Letters(phoneNumber[digitCount]), phoneNumber[digitCount + 1..])
  {
    var ds := phoneNumber[digitCount..];
    var tail := phoneNumber[digitCount + 1..];
    assert ds[0] == phoneNumber[digitCount] && ds[1..] == tail;
  }

  /** With `digitCount` digits consumed and `newCharacterIndex` characters
      written, appends to `results` every word the remaining digits spell,
      each preceded by the characters already written, in depth-first order.
      The buffer comes back with those characters unchanged and one character
      shorter for each remaining digit without letters. */
  method Helper(phoneNumber: string, resultStr: string, digitCount: nat,
                newCharacterIndex: nat, results: seq<string>)
    returns (results': seq<string>, resultStr': string)
    requires |phoneNumber| == DigitTotal && AllDigits(phoneNumber)
    requires digitCount <= DigitTotal
    requires NoLettersFirst(phoneNumber[digitCount..])
    requires |resultStr| == newCharacterIndex + (DigitTotal - digitCount)
    ensures |resultStr'| == |resultStr| - CountNoLetters(phoneNumber[digitCount..])
    ensures resultStr'[..newCharacterIndex] == resultStr[..newCharacterIndex]
    ensures results' == results + Expansion(resultStr[..newCharacterIndex], phoneNumber[digitCount..])
    decreases DigitTotal - digitCount, 1
  {
    if digitCount == DigitTotal {
      FinishedWord(resultStr, results);
      return results + [resultStr], resultStr;
    }

    var nextNumber := phoneNumber[digitCount];
    var possibleLetters := KeyValsArr[nextNumber as int - 48];
    NextDigit(phoneNumber, digitCount, resultStr[..newCharacterIndex]);

    if |possibleLetters| > 0 {
      results', resultStr' := TryLetters(phoneNumber, resultStr, digitCount + 1, newCharacterIndex,
                                         possibleLetters, results);
    } else {
      var shrunk := resultStr[..|resultStr| - 1];
      results', resultStr' := Helper(phoneNumber, shrunk, digitCount + 1, newCharacterIndex, results);
      Shrink(resultStr, newCharacterIndex, resultStr');
    }
  }

  /** The loop over the letters of the digit just consumed (the digit before
      `digitCount`): writes each letter at `newCharacterIndex` and recurses.
      Appends the words of every letter in turn and leaves the buffer's
      length and its first `newCharacterIndex` characters as they were. */
  method TryLetters(phoneNumber: string, resultStr: string, digitCount: nat,
                    newCharacterIndex: nat, possibleLetters: string, results: seq<string>)
    returns (results': seq<string>, resultStr': string)
    requires |phoneNumber| == DigitTotal && AllDigits(phoneNumber)
    requires 0 < digitCount <= DigitTotal
    requires CountNoLetters(phoneNumber[digitCount..]) == 0
    requires |resultStr| == newCharacterIndex + 1 + (DigitTotal - digitCount)
    ensures |resultStr'| == |resultStr|
    ensures resultStr'[..newCharacterIndex] == resultStr[..newCharacterIndex]
    ensures results' == results + ExpandLetters(resultStr[..newCharacterIndex], possibleLetters, phoneNumber[digitCount..])
    decreases DigitTotal - digitCount + 1, 0
  {
    ghost var written := resultStr[..newCharacterIndex];
    resultStr' := resultStr;
    results' := results;
    var i := 0;
    while i < |possibleLetters|
      invariant 0 <= i <= |possibleLetters|
      invariant |resultStr'| == |resultStr|
      invariant resultStr'[..newCharacterIndex] == written
      invariant results' == results + ExpandLetters(written, possibleLetters[..i], phoneNumber[digitCount..])
    {
      var c := possibleLetters[i];
      ghost var before, bufferBefore := results', resultStr';
      resultStr' := resultStr'[newCharacterIndex := c];
      results', resultStr' := Helper(phoneNumber, resultStr', digitCount, newCharacterIndex + 1, results');
      WriteStep(bufferBefore, written, newCharacterIndex, c, resultStr');
      ExpandLettersStep(written, possibleLetters, i, phoneNumber[digitCount..]);
      i := i + 1;
    }
    assert possibleLetters[..i] == possibleLetters;
  }
}
