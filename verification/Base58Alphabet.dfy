/** The alphabet constant both TypeScript files spell out. */
module Base58Alphabet {
  import opened Wrappers
  import opened Bytes
  import opened Base58

  const ALPHABET: string :=
    "123456789" + "ABCDEFGH" + "JKLMN" + "PQRSTUVWXYZ" + "abcdefghijk" + "mnopqrstuvwxyz"

  lemma LetterAt(d: nat)
    requires d < 58
    ensures |ALPHABET| == 58 && ALPHABET[d] == LetterOf(d)
  {
    if d < 9 {
      assert ALPHABET[d] == "123456789"[d];
    } else if d < 17 {
      assert ALPHABET[d] == "ABCDEFGH"[d - 9];
    } else if d < 22 {
      assert ALPHABET[d] == "JKLMN"[d - 17];
    } else if d < 33 {
      assert ALPHABET[d] == "PQRSTUVWXYZ"[d - 22];
    } else if d < 44 {
      assert ALPHABET[d] == "abcdefghijk"[d - 33];
    } else {
      assert ALPHABET[d] == "mnopqrstuvwxyz"[d - 44];
    }
  }

  /** `ALPHABET.indexOf`: the first position of a character, or -1. */
  function IndexOf(letters: string, c: char): (index: int)
    ensures -1 <= index < |letters|
    ensures index == -1 <==> c !in letters
    ensures index >= 0 ==> letters[index] == c
  {
    if letters == "" then -1
    else if letters[0] == c then 0
    else
      var rest := IndexOf(letters[1..], c);
      if rest == -1 then -1 else rest + 1
  }

  /** Looking a character up in the alphabet is reading its digit off its run. */
  lemma IndexIsDigit(c: char)
    ensures IndexOf(ALPHABET, c) == DigitOf(c)
  {
    var index, digit := IndexOf(ALPHABET, c), DigitOf(c);
    if digit >= 0 {
      LetterAt(digit);
      DigitRoundTrip(c);
      assert c in ALPHABET;
    }
    if index >= 0 {
      assert |ALPHABET| == 58;
      LetterAt(index);
    }
  }

  /** Why a text is no key: a character outside the alphabet, or else another length than 32. */
  lemma RefusedTexts(text: string)
    ensures Decode(text) == Err(NotBase58) <==> exists i :: 0 <= i < |text| && text[i] !in ALPHABET
    ensures Decode(text) == Err(NotThirtyTwoBytes) <==>
            (forall i :: 0 <= i < |text| ==> text[i] in ALPHABET)
            && !exists key: seq<byte> :: |key| == 32 && Text(key) == text
  {
    forall i | 0 <= i < |text| ensures text[i] in ALPHABET <==> IsLetter(text[i]) {
      IndexIsDigit(text[i]);
    }
    AcceptedTexts(text);
  }
}
