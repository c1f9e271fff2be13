/** `phoneMnemonicHelperLessEfficient`: the backtracking recursion that
    appends a letter to the word built so far, recurses, and erases it again.

    The C++ helper takes the word so far (`strSoFar`) and the result vector by
    reference and mutates them; here each is passed in and its final value is
    returned. The digits consumed so far (`phoneNumberSoFar`) are passed by
    value, as in the C++ code. */
module Backtracking {
  import opened Keypad
  import opened Words
  import opened Spelling

  /** Appends to `results`, in depth-first order, `strSoFar` followed by every
      word the not yet consumed digits spell, and hands `strSoFar` back as it
      received it. */
  method HelperLessEfficient(phoneNumber: string, phoneNumberSoFar: string,
                             strSoFar: string, results: seq<string>)
    returns (results': seq<string>, strSoFar': string)
    requires AllDigits(phoneNumber)
    requires phoneNumberSoFar <= phoneNumber
    ensures strSoFar' == strSoFar
    ensures results' == results + Prepend(strSoFar, Spellings(phoneNumber[|phoneNumberSoFar|..]))
    decreases |phoneNumber| - |phoneNumberSoFar|
  {
    if phoneNumber == phoneNumberSoFar {
      assert phoneNumber[|phoneNumberSoFar|..] == [];
      assert strSoFar + "" == strSoFar;
      return results + [strSoFar], strSoFar;
    }

    var nextNumber := phoneNumber[|phoneNumberSoFar|];
    TablesAgree();
    var possibleLetters := KeyVals[nextNumber as int - 48];
    assert possibleLetters == Letters(nextNumber);
    var soFar := phoneNumberSoFar + [nextNumber];
    ghost var rest := phoneNumber[|phoneNumberSoFar|..];
    ghost var tails := Spellings(phoneNumber[|soFar|..]);
    assert rest[0] == nextNumber && rest[1..] == phoneNumber[|soFar|..];

    var str := strSoFar;
    results' := results;
    if |possibleLetters| > 0 {
      var i := 0;
      while i < |possibleLetters|
        invariant 0 <= i <= |possibleLetters|
        invariant str == strSoFar
        invariant results' == results + Prepend(strSoFar, Extend(possibleLetters[..i], tails))
      {
        var c := possibleLetters[i];
        ghost var before := results';
        str := str + [c];
        results', str := HelperLessEfficient(phoneNumber, soFar, str, results');
        str := str[..|str| - 1];
        ExtendStep(results, strSoFar, possibleLetters, i, tails, before, results');
        i := i + 1;
      }
      assert possibleLetters[..i] == possibleLetters;
    } else {
      results', str := HelperLessEfficient(phoneNumber, soFar, str, results');
    }
    strSoFar' := str;
  }
}
