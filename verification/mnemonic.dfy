/** `phoneMnemonic`: checks that the phone number has seven characters and
    dispatches to one of the two helpers. The C++ code throws a string for a
    number of the wrong length; here that is the `Failure` of a result. */
module Mnemonic {
  import opened Keypad
  import opened Words
  import opened Spelling
  import Backtracking
  import InPlace

  /** The one way the generator can fail. */
  datatype Error = InvalidPhoneNumber

  datatype Result<T> = Success(value: T) | Failure(error: Error)

  const PhoneLength := 7

  /** What the generator promises for a phone number: a wrong length is an
      error; otherwise the words it spells, each once, in increasing order,
      each one character shorter than seven per '0' or '1' digit, as many as
      the product of the digits' choices. */
  function Mnemonics(phoneNumber: string): (r: Result<seq<string>>)
    requires |phoneNumber| == PhoneLength ==> AllDigits(phoneNumber)
    ensures r.Failure? <==> |phoneNumber| != PhoneLength
    ensures r.Success? ==> forall w :: w in r.value <==> Spells(phoneNumber, w)
    ensures r.Success? ==> forall w :: w in r.value ==> |w| == PhoneLength - CountNoLetters(phoneNumber)
    ensures r.Success? ==> |r.value| == Product(phoneNumber)
    ensures r.Success? ==> StrictlySorted(r.value) && Distinct(r.value)
  {
    if |phoneNumber| != PhoneLength then Failure(InvalidPhoneNumber)
    else
      SpellingsProperties(phoneNumber);
      Success(Spellings(phoneNumber))
  }

  /** The reference enumeration's properties, gathered for one number. */
  lemma SpellingsProperties(ds: string)
    requires AllDigits(ds)
    ensures forall w :: w in Spellings(ds) <==> Spells(ds, w)
    ensures forall w :: w in Spellings(ds) ==> |w| == |ds| - CountNoLetters(ds)
    ensures |Spellings(ds)| == Product(ds)
    ensures StrictlySorted(Spellings(ds)) && Distinct(Spellings(ds))
  {
    SpellingsExact(ds);
    SpellingsLength(ds);
    SpellingsCount(ds);
    SpellingsSorted(ds);
    SpellingsOnce(ds);
  }

  /** Rejects a number of the wrong length before doing any work; otherwise
      either helper yields the same list. The in-place helper is only
      modelled for numbers whose '0' and '1' digits all come first. */
  method PhoneMnemonic(phoneNumber: string, useEfficientVersion: bool)
    returns (r: Result<seq<string>>)
    requires |phoneNumber| == PhoneLength ==> AllDigits(phoneNumber)
    requires |phoneNumber| == PhoneLength && useEfficientVersion ==> InPlace.NoLettersFirst(phoneNumber)
    ensures r == Mnemonics(phoneNumber)
    ensures r.Success? ==> r.value == Spellings(phoneNumber)
  {
    if |phoneNumber| != PhoneLength {
      return Failure(InvalidPhoneNumber);
    }

    var results: seq<string> := [];
    assert phoneNumber[0..] == phoneNumber;
    if useEfficientVersion {
      var digitCount := 0;
      var newCharacterIndex := 0;
      var resultStr := seq(PhoneLength, _ => 'a');
      results, resultStr := InPlace.Helper(phoneNumber, resultStr, digitCount, newCharacterIndex, results);
      ExpansionIsPrepend([], phoneNumber);
    } else {
      var phoneNumberSoFar := "";
      var strSoFar := "";
      results, strSoFar := Backtracking.HelperLessEfficient(phoneNumber, phoneNumberSoFar, strSoFar, results);
    }
    PrependEmpty(Spellings(phoneNumber));
    assert results == Spellings(phoneNumber);
    r := Success(results);
  }

  /** A six-digit number is rejected. */
  lemma ShortNumberRejected()
    ensures Mnemonics("123456") == Failure(InvalidPhoneNumber)
  {
  }

  /** "0000000" spells exactly the empty word. */
  lemma AllZerosSpellEmptyWord()
    ensures Mnemonics("0000000") == Success([""])
  {
    OnlyNoLetters("0000000");
  }

  /** "2276696", the number the program's entry point tries: every digit
      has letters, so it spells 3888 words of seven letters. */
  lemma AllLettersExampleCount()
    ensures Product("2276696") == 3888 && CountNoLetters("2276696") == 0
  {
  }

  /** "1234567": the '1' contributes nothing, so it spells 972 words of six
      letters. */
  lemma OneSkippedExampleCount()
    ensures Product("1234567") == 972 && CountNoLetters("1234567") == 1
  {
  }
}
