# Phone mnemonics

A Dafny model of the mnemonic generator in `PhoneMnemonicCpp.cpp`. Given a
seven-character phone number, it lists every string you get by replacing each
digit with one of the letters on that digit's keypad button. Digits 0 and 1
carry no letters and contribute no character. The program has two recursive
helpers that build this list:

- `phoneMnemonicHelperLessEfficient` grows a word by appending a letter and
  erases the letter again after the recursive call;
- `phoneMnemonicHelper` overwrites letters in a seven-character buffer
  allocated once.

`phoneMnemonic` checks the length and dispatches to one of them.

The model is organised as follows:

- `Keypad` holds the two copies of the keypad table the program keeps: an
  array (`KeyValsArr`) and a hash map (`KeyVals`). It proves the two agree.
- `Words` holds `Prepend` (a common prefix in front of every word) and the
  lexicographic order of `std::string` (`Less`).
- `Spelling` is the reference semantics:
  - `Spellings(ds)` is the ordered list of words the digits `ds` spell.
  - `Slots`/`Spells` characterise that list declaratively: a word has one
    character per lettered digit, taken from that digit's letters.
  - `Expansion(prefix, ds)` is the list one call of the backtracking recursion
    appends. `ExpansionIsPrepend` proves it equal to `prefix` in front of each
    word of `Spellings(ds)`.
- `Backtracking` models the less efficient helper as a recursive method. The
  C++ reference parameters (`strSoFar`, `results`) are passed in and their
  final values returned.
- `InPlace` models the buffer-writing helper in the same way. Its `for` loop is
  the method `TryLetters`.
- `Mnemonic` holds:
  - `Mnemonics`, the specification of the whole generator: on success, which
    words, how many, in which order, of which length;
  - `PhoneMnemonic`, the entry point, proved to return `Mnemonics` with
    either helper.

The thrown string for a number of the wrong length becomes the error
`Failure(InvalidPhoneNumber)`. The code never checks that the characters are
digits, so the model requires digits whenever the length is seven. The length
check comes first, exactly as in the code, so a wrong-length string of any
characters is an error.

## Model

| member | source | states |
|---|---|---|
| `Keypad.DigitValue` | PhoneMnemonicCpp/PhoneMnemonicCpp.cpp:33 | For a digit character, the character code minus 48 is a valid index into the ten-entry table. It is below 2 exactly for '0' and '1'. |
| `Keypad.Letters` | PhoneMnemonicCpp/PhoneMnemonicCpp.cpp:12 | A digit's letters are empty exactly for '0' and '1'. Otherwise there are 3 or 4 lower-case letters, in strictly increasing order. |
| `Keypad.TablesAgree` | PhoneMnemonicCpp/PhoneMnemonicCpp.cpp:11-12 | The map and the array hold the same letters for every digit value 0 to 9, and the map has no other key. |
| `Spelling.Slots` | PhoneMnemonicCpp/PhoneMnemonicCpp.cpp:42-47 | There is one non-empty letter set per digit that has letters, so there are seven slots minus one per '0' or '1'. |
| `Spelling.ExpansionIsPrepend` | PhoneMnemonicCpp/PhoneMnemonicCpp.cpp:61-87 | A backtracking call given word-so-far `p` and remaining digits `ds` appends `p` followed by each reference word of `ds`, in reference order. |
| `Spelling.ExpandLettersIsPrepend` | PhoneMnemonicCpp/PhoneMnemonicCpp.cpp:74-81 | The letter loop appends the words of each letter in turn: first the letter, then every word of the remaining digits. |
| `Spelling.ExtendMembership` | PhoneMnemonicCpp/PhoneMnemonicCpp.cpp:76-81 | A word comes out of the letter loop exactly when its first character is one of the letters and its rest is a word of the remaining digits. |
| `Spelling.ExtendLength` | PhoneMnemonicCpp/PhoneMnemonicCpp.cpp:76-81 | The letter loop yields (number of letters) × (number of continuations) words. |
| `Spelling.ExtendSorted` | PhoneMnemonicCpp/PhoneMnemonicCpp.cpp:76-81 | Letters in keypad order and sorted continuations give a strictly sorted list. |
| `Spelling.SpellingsExact` | PhoneMnemonicCpp/PhoneMnemonicCpp.cpp:70-86 | Soundness and completeness: a word is listed exactly when character `j` is a letter of the `j`-th lettered digit and the length matches. |
| `Spelling.SpellingsLength` | PhoneMnemonicCpp/PhoneMnemonicCpp.cpp:83-86 | Every word is as long as the number of digits minus one per '0' or '1'. |
| `Spelling.SpellingsCount` | PhoneMnemonicCpp/PhoneMnemonicCpp.cpp:74-86 | The number of words is the product over the digits of their letter count, counting 1 for '0' and '1'. |
| `Spelling.SpellingsSorted` | PhoneMnemonicCpp/PhoneMnemonicCpp.cpp:76-81 | The depth-first order is strictly increasing in `std::string` order. |
| `Spelling.SpellingsOnce` | PhoneMnemonicCpp/PhoneMnemonicCpp.cpp:76-81 | Every word the digits spell is listed, and no word is listed twice. |
| `Spelling.SpellingsUnique` | PhoneMnemonicCpp/PhoneMnemonicCpp.cpp:61-87 | Any strictly sorted list holding exactly the spelled words is the reference list, so membership and order alone determine the helpers' output. |
| `Spelling.OnlyNoLetters` | PhoneMnemonicCpp/PhoneMnemonicCpp.cpp:83-86 | A number made only of '0' and '1' yields exactly one word, the empty word. |
| `Words.LessTransitive` | PhoneMnemonicCpp/PhoneMnemonicCpp.cpp:76-81 | The lexicographic order the results come out in is transitive. |
| `Words.SortedUnique` | PhoneMnemonicCpp/PhoneMnemonicCpp.cpp:76-81 | Two strictly sorted result lists with the same members are equal. |
| `Words.SortedDistinct` | PhoneMnemonicCpp/PhoneMnemonicCpp.cpp:76-81 | A strictly sorted list of results has no duplicates. |
| `Backtracking.HelperLessEfficient` | PhoneMnemonicCpp/PhoneMnemonicCpp.cpp:61-87 | The word so far comes back unchanged after the append-recurse-erase steps. `results` grows by that word followed by each word of the not-yet-consumed digits, in reference order. The digits consumed so far stay a prefix of the number at every recursive call. |
| `InPlace.NoLettersFirstMeaning` | PhoneMnemonicCpp/PhoneMnemonicCpp.cpp:43-50 | The recursive condition under which the buffer helper is modelled holds exactly when every '0'/'1' digit comes before every lettered digit. |
| `InPlace.Helper` | PhoneMnemonicCpp/PhoneMnemonicCpp.cpp:23-51 | `results` grows by the written characters followed by each word of the remaining digits, in the order of the backtracking recursion. The written part of the buffer is unchanged. The buffer ends one character shorter per remaining '0'/'1'. |
| `InPlace.TryLetters` | PhoneMnemonicCpp/PhoneMnemonicCpp.cpp:36-40 | Writing each letter at the next index and recursing appends the words of every letter in turn. The buffer keeps its length and its already-written characters. |
| `Mnemonic.Mnemonics` | PhoneMnemonicCpp/PhoneMnemonicCpp.cpp:96-121 | Failure exactly when the length is not 7. On success the list holds exactly the spelled words, each `7 - (#'0'/'1')` long, product-many, strictly sorted and distinct. |
| `Mnemonic.PhoneMnemonic` | PhoneMnemonicCpp/PhoneMnemonicCpp.cpp:96-121 | Both helpers produce the reference list, so the efficient and the less efficient version return the same result. A wrong length is rejected before any recursion. |
| `Mnemonic.ShortNumberRejected` | PhoneMnemonicCpp/PhoneMnemonicCpp.cpp:98-101 | A six-digit number fails with `InvalidPhoneNumber`. |
| `Mnemonic.AllZerosSpellEmptyWord` | PhoneMnemonicCpp/PhoneMnemonicCpp.cpp:83-86 | "0000000" yields the single empty word. |
| `Mnemonic.AllLettersExampleCount` | PhoneMnemonicCpp/PhoneMnemonicCpp.cpp:125 | "2276696" has no '0' or '1' and its digits' choices multiply to 3888. By the `Mnemonic.Mnemonics` contract it therefore yields 3888 words of seven letters. |
| `Mnemonic.OneSkippedExampleCount` | PhoneMnemonicCpp/PhoneMnemonicCpp.cpp:96-121 | "1234567" has one '1' and its digits' choices multiply to 972. By the `Mnemonic.Mnemonics` contract it therefore yields 972 words of six letters. |

## Left out

- `main` (lines 123 onward) is left out, apart from the number it tries (line 125). It only times the two versions and prints the results.
- InPlace.Helper: modelled only for numbers whose '0' and '1' digits all come before the lettered digits (`InPlace.NoLettersFirst`). Outside that case the code goes wrong. The buffer is shrunk at line 47 once per sibling branch and never restored, so later words come out too short. The write at line 38 can then land past the end of the string. "2222221" is an example: the second word loses a letter. That behaviour is not modelled.
- Mnemonic.PhoneMnemonic: for the same reason, requires `InPlace.NoLettersFirst` when the efficient version is chosen.
- Mnemonic.Mnemonics: the code never checks that the characters are digits, so seven characters that are not all digits are a precondition rather than an error. In the buffer version such input indexes the array out of range, which is undefined behaviour.
- Backtracking.HelperLessEfficient: requires digits. For a non-digit, `keyVals.at` would throw `std::out_of_range`, and that exception is not modelled.
- The thrown value at line 100 is a string literal. It is modelled as the single error `InvalidPhoneNumber`; no other exception is modelled.
- `std::unordered_map` hashing and `std::array` storage are not modelled. Both tables are immutable Dafny constants, with `Keypad.TablesAgree` relating them.
- Fixed-width integers are not modelled: `digitCount` and `newCharacterIndex` never exceed 7, so the `int` width does not matter. `char` arithmetic is modelled as the character code.
- The word lists for "2276696" and "1234567" are not written out. `Mnemonic.AllLettersExampleCount` and `Mnemonic.OneSkippedExampleCount` give their counts. Combined with `Mnemonic.Mnemonics`, the counts fix the list sizes (3888 and 972) and the word lengths (7 and 6).
