/** The telephone keypad: the letters printed on each digit's button.

    The program keeps the same table twice, once as an array indexed by the
    digit's value and once as a hash map keyed by it; both are modelled here
    as immutable constants, together with a proof that they agree.
 */
module Keypad {

  /** The keypad table as an array of ten strings, indexed by digit value. */
  const KeyValsArr: seq<string> :=
    ["", "", "abc", "def", "ghi", "jkl", "mno", "pqrs", "tuv", "wxyz"]

  /** The keypad table as a map from digit value to letters. */
  const KeyVals: map<int, string> :=
    map[0 := "", 1 := "", 2 := "abc", 3 := "def", 4 := "ghi",
        5 := "jkl", 6 := "mno", 7 := "pqrs", 8 := "tuv", 9 := "wxyz"]

  predicate IsDigit(c: char) {
    '0' <= c <= '9'
  }

  predicate AllDigits(s: string) {
    forall i :: 0 <= i < |s| ==> IsDigit(s[i])
  }

  /** The digits whose button carries no letters. */
  predicate HasNoLetters(c: char) {
    c == '0' || c == '1'
  }

  /** Characters in strictly increasing order. */
  predicate Increasing(s: string) {
    forall i, j :: 0 <= i < j < |s| ==> s[i] < s[j]
  }

  /** The table index the program computes as the character code minus 48,
      the code of '0'. */
  function DigitValue(c: char): (d: int)
    requires IsDigit(c)
    ensures 0 <= d < |KeyValsArr|
    ensures d < 2 <==> HasNoLetters(c)
  {
    c as int - 48
  }

  /** The letters on the button of digit `c`, in the order printed. */
  function Letters(c: char): (r: string)
    requires IsDigit(c)
    ensures r == [] <==> HasNoLetters(c)
    ensures !HasNoLetters(c) ==> 3 <= |r| <= 4
    ensures forall i :: 0 <= i < |r| ==> 'a' <= r[i] <= 'z'
    ensures Increasing(r)
  {
    KeyValsArr[DigitValue(c)]
  }

  /** Looking a digit up in the map gives the same letters as indexing the
      array, for every digit value 0 to 9, and the map has no other keys. */
  lemma TablesAgree()
    ensures forall d :: d in KeyVals ==> 0 <= d < |KeyValsArr|
    ensures forall d :: 0 <= d < |KeyValsArr| ==> d in KeyVals && KeyVals[d] == KeyValsArr[d]
  {
  }
}
