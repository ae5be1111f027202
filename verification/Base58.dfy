/**
 Base58 public keys: in-place base conversion with carries, in both directions,
 the big-integer form, and what all of them compute.
 */
module Base58 {
  import opened Wrappers
  import opened Bytes

  // ----- numerals, least significant digit first -----

  /** The two bases the code converts between. */
  type Radix = b: nat | b == 58 || b == 256 witness 58

  predicate Below(digits: seq<nat>, base: Radix) {
    forall i :: 0 <= i < |digits| ==> digits[i] < base
  }

  /** No useless zeros at the most significant end. */
  predicate Canonical(digits: seq<nat>, base: Radix) {
    Below(digits, base) && (digits != [] ==> digits[|digits| - 1] != 0)
  }

  function Value(digits: seq<nat>, base: Radix): nat {
    if digits == [] then 0 else digits[0] + base * Value(digits[1..], base)
  }

  function Digits(n: nat, base: Radix): (digits: seq<nat>)
    ensures Canonical(digits, base) && (n != 0 ==> digits != [])
  {
    if n == 0 then [] else
      [n % base] + Digits(n / base, base)
  }

  lemma {:induction false} DigitsHaveValue(n: nat, base: Radix)
    ensures Value(Digits(n, base), base) == n
  {
    if n > 0 {
      var rest := Digits(n / base, base);
      DigitsHaveValue(n / base, base);
      FirstDigit(n, base, rest);
      assert ([n % base] + rest)[1..] == rest;
      JoinDigit(n, base);
    }
  }

  lemma FirstDigit(n: nat, base: Radix, rest: seq<nat>)
    requires n > 0 && rest == Digits(n / base, base)
    ensures Digits(n, base) == [n % base] + rest
  {
  }

  lemma JoinDigit(n: nat, base: Radix)
    ensures n % base + base * (n / base) == n
  {
    if base == 58 {
      assert n == n % 58 + 58 * (n / 58);
    } else {
      assert n == n % 256 + 256 * (n / 256);
    }
  }

  lemma {:induction false} CanonicalIsUnique(digits: seq<nat>, base: Radix)
    requires Canonical(digits, base)
    ensures Digits(Value(digits, base), base) == digits
  {
    if digits != [] {
      var rest := Value(digits[1..], base);
      CanonicalIsUnique(digits[1..], base);
      assert digits == [digits[0]] + digits[1..];
      SplitDigit(digits[0], rest, base);
      if rest == 0 {
        assert digits[1..] == Digits(0, base) == [];
      }
    }
  }

  lemma SplitDigit(digit: nat, rest: nat, base: Radix)
    requires digit < base
    ensures (digit + base * rest) % base == digit && (digit + base * rest) / base == rest
  {
    if base == 58 {
      assert (digit + 58 * rest) / 58 == rest;
    } else {
      assert (digit + 256 * rest) / 256 == rest;
    }
  }

  // ----- one pass of the carry loop: multiply a numeral and add -----

  function MulAdd(digits: seq<nat>, times: nat, carry: nat, base: Radix): (r: seq<nat>)
    ensures Below(r, base) && (digits != [] ==> r != [])
  {
    if digits == [] then Digits(carry, base)
    else
      var next := digits[0] * times + carry;
      [next % base] + MulAdd(digits[1..], times, next / base, base)
  }

  lemma {:induction false} MulAddHasValue(digits: seq<nat>, times: nat, carry: nat, base: Radix)
    ensures Value(MulAdd(digits, times, carry, base), base) == times * Value(digits, base) + carry
  {
    if digits == [] {
      DigitsHaveValue(carry, base);
    } else {
      var next := digits[0] * times + carry;
      var tail, rest := Value(digits[1..], base), MulAdd(digits[1..], times, next / base, base);
      MulAddHasValue(digits[1..], times, next / base, base);
      CarryDigit(digits[0], tail, times, carry, base);
      var all := MulAdd(digits, times, carry, base);
      assert all[1..] == rest;
      assert Value(all, base) == next % base + base * Value(rest, base);
    }
  }

  lemma CarryDigit(digit: nat, rest: nat, times: nat, carry: nat, base: Radix)
    ensures var next := digit * times + carry;
            next % base + base * (times * rest + next / base) == times * (digit + base * rest) + carry
  {
    var next := digit * times + carry;
    assert times * (digit + base * rest) == times * digit + times * (base * rest);
    assert times * (base * rest) == base * (times * rest);
    assert base * (times * rest + next / base) == base * (times * rest) + base * (next / base);
    if base == 58 {
      assert next % 58 + 58 * (next / 58) == next;
    } else {
      assert next % 256 + 256 * (next / 256) == next;
    }
  }

  lemma TopDigit(digit: nat, times: nat, carry: nat, base: Radix)
    requires times > 0
    ensures digit > 0 ==> digit * times + carry > 0
    ensures (digit * times + carry) / base == 0 && digit > 0 ==> (digit * times + carry) % base > 0
  {
    if digit > 0 {
      assert digit * times >= 1 * times;
    }
  }

  lemma {:induction false} MulAddIsCanonical(digits: seq<nat>, times: nat, carry: nat, base: Radix)
    requires times > 0 && Canonical(digits, base)
    ensures Canonical(MulAdd(digits, times, carry, base), base)
  {
    if |digits| == 1 {
      TopDigit(digits[0], times, carry, base);
    } else if digits != [] {
      var next: nat := digits[0] * times + carry;
      var rest := MulAdd(digits[1..], times, next / base, base);
      MulAddIsCanonical(digits[1..], times, next / base, base);
      assert MulAdd(digits, times, carry, base) == [next % base] + rest;
    }
  }

  /** A pass over the numeral of `n` leaves the numeral of `times * n + carry`. */
  lemma MulAddGrows(n: nat, times: nat, carry: nat, base: Radix, total: nat)
    requires times > 0 && total == times * n + carry
    ensures MulAdd(Digits(n, base), times, carry, base) == Digits(total, base)
  {
    DigitsHaveValue(n, base);
    MulAddHasValue(Digits(n, base), times, carry, base);
    MulAddIsCanonical(Digits(n, base), times, carry, base);
    CanonicalIsUnique(MulAdd(Digits(n, base), times, carry, base), base);
  }

  // ----- changing the base of a big-endian numeral, keeping its leading zeros -----

  function Reverse(s: seq<nat>): (r: seq<nat>)
    ensures |r| == |s| && forall i :: 0 <= i < |s| ==> r[i] == s[|s| - 1 - i]
  {
    if s == [] then [] else [s[|s| - 1]] + Reverse(s[..|s| - 1])
  }

  function BigEndian(s: seq<nat>, base: Radix): nat { Value(Reverse(s), base) }

  function LeadingZeros(s: seq<nat>): (n: nat)
    ensures n <= |s| && (forall i :: 0 <= i < n ==> s[i] == 0) && (n < |s| ==> s[n] != 0)
  {
    if s == [] || s[0] != 0 then 0 else 1 + LeadingZeros(s[1..])
  }

  function Zeroes(n: nat): seq<nat> { seq(n, _ => 0) }

  function Convert(s: seq<nat>, from: Radix, to: Radix): (r: seq<nat>)
    ensures Below(r, to)
  {
    Zeroes(LeadingZeros(s)) + Reverse(Digits(BigEndian(s, from), to))
  }

  lemma {:induction false} HighZeros(digits: seq<nat>, zeros: nat, base: Radix)
    ensures Value(digits + Zeroes(zeros), base) == Value(digits, base)
  {
    var all := digits + Zeroes(zeros);
    if digits != [] {
      HighZeros(digits[1..], zeros, base);
      assert all[1..] == digits[1..] + Zeroes(zeros);
    } else if zeros > 0 {
      HighZeros([], zeros - 1, base);
      assert all[1..] == [] + Zeroes(zeros - 1);
    }
  }

  lemma ReverseOfReverse(s: seq<nat>)
    ensures Reverse(Reverse(s)) == s
  {
  }

  lemma ReverseOfPadded(zeros: nat, rest: seq<nat>)
    ensures Reverse(Zeroes(zeros) + rest) == Reverse(rest) + Zeroes(zeros)
  {
  }

  /** Leading zeros and the value of what follows determine a numeral. */
  lemma NumeralIs(s: seq<nat>, base: Radix)
    requires Below(s, base)
    ensures s == Zeroes(LeadingZeros(s)) + Reverse(Digits(BigEndian(s, base), base))
  {
    var zeros := LeadingZeros(s);
    var rest := s[zeros..];
    assert s == Zeroes(zeros) + rest;
    ReverseOfPadded(zeros, rest);
    HighZeros(Reverse(rest), zeros, base);
    CanonicalIsUnique(Reverse(rest), base);
    ReverseOfReverse(rest);
  }

  /** Changing the base keeps the value and the leading zeros. */
  lemma ConvertKeeps(s: seq<nat>, from: Radix, to: Radix)
    requires Below(s, from)
    ensures BigEndian(Convert(s, from, to), to) == BigEndian(s, from)
    ensures LeadingZeros(Convert(s, from, to)) == LeadingZeros(s)
  {
    var n, zeros := BigEndian(s, from), LeadingZeros(s);
    var low := Digits(n, to);
    ReverseOfPadded(zeros, Reverse(low));
    ReverseOfReverse(low);
    HighZeros(low, zeros, to);
    DigitsHaveValue(n, to);
    LeadingZerosOf(Convert(s, from, to), zeros);
  }

  /** Changing the base and back gives the same numeral: nothing is lost. */
  lemma ConvertRoundTrip(s: seq<nat>, from: Radix, to: Radix)
    requires Below(s, from)
    ensures Convert(Convert(s, from, to), to, from) == s
  {
    ConvertKeeps(s, from, to);
    NumeralIs(s, from);
  }

  lemma {:induction false} LeadingZerosOf(s: seq<nat>, n: nat)
    requires n <= |s| && (forall i :: 0 <= i < n ==> s[i] == 0) && (n < |s| ==> s[n] != 0)
    ensures LeadingZeros(s) == n
  {
    if n > 0 {
      LeadingZerosOf(s[1..], n - 1);
    }
  }

  /** A numeral is all zeros exactly when its value is zero. */
  lemma ZeroValue(s: seq<nat>, base: Radix)
    requires Below(s, base)
    ensures BigEndian(s, base) == 0 <==> LeadingZeros(s) == |s|
  {
    NumeralIs(s, base);
    if LeadingZeros(s) == |s| {
      assert Reverse(s) == [] + Zeroes(|s|);
      HighZeros([], |s|, base);
    }
  }

  lemma NextDigit(s: seq<nat>, k: nat, base: Radix)
    requires k < |s|
    ensures BigEndian(s[..k + 1], base) == base * BigEndian(s[..k], base) + s[k]
  {
    assert s[..k + 1][..k] == s[..k];
    assert Reverse(s[..k + 1])[1..] == Reverse(s[..k]);
  }

  // ----- the alphabet -----

  /** The letters come in six runs of consecutive characters; 0, I, O and l are left out. */
  function LetterOf(d: nat): (c: char)
    requires d < 58
    ensures DigitOf(c) == d
  {
    (if d < 9 then d + 49
     else if d < 17 then d + 56
     else if d < 22 then d + 57
     else if d < 33 then d + 58
     else if d < 44 then d + 64
     else d + 65) as char
  }

  function DigitOf(c: char): (d: int)
    ensures -1 <= d < 58
  {
    if '1' <= c <= '9' then c as int - 49
    else if 'A' <= c <= 'H' then c as int - 56
    else if 'J' <= c <= 'N' then c as int - 57
    else if 'P' <= c <= 'Z' then c as int - 58
    else if 'a' <= c <= 'k' then c as int - 64
    else if 'm' <= c <= 'z' then c as int - 65
    else -1
  }

  predicate IsLetter(c: char) { DigitOf(c) >= 0 }

  lemma DigitRoundTrip(c: char)
    requires IsLetter(c)
    ensures LetterOf(DigitOf(c)) == c
  {
  }

  predicate AllLetters(text: string) {
    forall i :: 0 <= i < |text| ==> IsLetter(text[i])
  }

  function Letters(digits: seq<nat>): (text: string)
    requires Below(digits, 58)
    ensures |text| == |digits|
  {
    seq(|digits|, i requires 0 <= i < |digits| => LetterOf(digits[i]))
  }

  function Parse(text: string): (digits: seq<nat>)
    requires AllLetters(text)
    ensures |digits| == |text| && Below(digits, 58)
  {
    seq(|text|, i requires 0 <= i < |text| => DigitOf(text[i]))
  }

  lemma LettersRoundTrip(digits: seq<nat>)
    requires Below(digits, 58)
    ensures AllLetters(Letters(digits)) && Parse(Letters(digits)) == digits
  {
    forall i | 0 <= i < |digits|
      ensures IsLetter(Letters(digits)[i]) && DigitOf(Letters(digits)[i]) == digits[i]
    {
    }
  }

  lemma ParseRoundTrip(text: string)
    requires AllLetters(text)
    ensures Letters(Parse(text)) == text
  {
  }

  // ----- keys and their text -----

  datatype KeyError = NotBase58 | NotThirtyTwoBytes

  function Text(bytes: seq<byte>): string { Letters(Convert(bytes, 256, 58)) }

  function Decode(text: string): (r: Result<seq<byte>, KeyError>)
    ensures r.Ok? ==> |r.value| == 32
  {
    if !AllLetters(text) then Err(NotBase58)
    else
      var bytes := Convert(Parse(text), 58, 256);
      if |bytes| != 32 then Err(NotThirtyTwoBytes) else Ok(bytes)
  }

  /** Decoding the text of a key gives the key. */
  lemma DecodeOfEncode(key: seq<byte>)
    requires |key| == 32
    ensures Decode(Text(key)) == Ok(key)
  {
    LettersRoundTrip(Convert(key, 256, 58));
    ConvertRoundTrip(key, 256, 58);
  }

  /** Every accepted text is the text of what it decodes to: a key has one spelling. */
  lemma EncodeOfDecode(text: string)
    requires Decode(text).Ok?
    ensures Text(Decode(text).value) == text
  {
    ConvertRoundTrip(Parse(text), 58, 256);
    ParseRoundTrip(text);
  }

  /** The accepted texts are exactly the texts of 32-byte keys. */
  lemma AcceptedTexts(text: string)
    ensures Decode(text).Ok? <==> exists key: seq<byte> :: |key| == 32 && Text(key) == text
  {
    if Decode(text).Ok? {
      EncodeOfDecode(text);
    }
    forall key: seq<byte> | |key| == 32 && Text(key) == text ensures Decode(text).Ok? {
      DecodeOfEncode(key);
    }
  }

  // ----- the code -----

  /** The digits `base58Encode` keeps: never fewer than one. */
  function AtLeastOneDigit(n: nat): (digits: seq<nat>)
    ensures Below(digits, 58) && digits != []
  {
    if n == 0 then [0] else Digits(n, 58)
  }

  function EncodedPrefix(bytes: seq<byte>, k: nat): (digits: seq<nat>)
    requires k <= |bytes|
    ensures Below(digits, 58) && digits != []
  {
    AtLeastOneDigit(BigEndian(bytes[..k], 256))
  }

  lemma EncodePass(bytes: seq<byte>, k: nat)
    requires k < |bytes|
    ensures MulAdd(EncodedPrefix(bytes, k), 256, bytes[k], 58) == EncodedPrefix(bytes, k + 1)
  {
    var n := BigEndian(bytes[..k], 256);
    NextDigit(bytes, k, 256);
    if n == 0 {
      assert MulAdd([0], 256, bytes[k], 58) == [bytes[k] % 58] + Digits(bytes[k] / 58, 58);
    } else {
      MulAddGrows(n, 256, bytes[k], 58, 256 * n + bytes[k]);
    }
  }

  lemma PassStep(done: seq<nat>, number: seq<nat>, index: nat, times: nat, carry: nat, base: Radix)
    returns (next: nat)
    requires index < |number|
    ensures next == number[index] * times + carry
    ensures done + MulAdd(number[index..], times, carry, base)
            == done + [next % base] + MulAdd(number[index + 1..], times, next / base, base)
  {
    next := number[index] * times + carry;
    assert number[index..][1..] == number[index + 1..];
  }

  method PushCarry(number: seq<nat>, rest: nat, base: Radix) returns (digits: seq<nat>)
    ensures digits == number + Digits(rest, base)
  {
    digits := number;
    var carry := rest;
    while carry > 0
      invariant carry >= 0
      invariant digits + Digits(carry, base) == number + Digits(rest, base)
    {
      digits := digits + [carry % base];
      carry := carry / base;
    }
  }

  /** A carry stays below the multiplier, and what is divided below 2^16: the 32-bit `&` and `>>`
      of the source are the remainder and quotient used here. */
  lemma CarryIsSmall(digit: nat, times: nat, carry: nat, base: Radix)
    requires digit < base && carry < times <= 256
    ensures var next := digit * times + carry; next < 0x1_0000 && next / base < times
  {
    TimesAtMost(digit + 1, base, times);
    TimesAtMost(times, 256, base);
    var next := digit * times + carry;
    assert next < (digit + 1) * times;
    QuotientBelow(next, times, base);
  }

  lemma TimesAtMost(a: nat, b: nat, t: nat)
    requires a <= b
    ensures a * t <= b * t
  {
    assert b * t == a * t + (b - a) * t;
  }

  lemma QuotientBelow(n: nat, times: nat, base: Radix)
    requires n < base * times
    ensures n / base < times
  {
    if base == 58 {
      assert n < 58 * times;
    } else {
      assert n < 256 * times;
    }
  }

  /** The carry loops that `base58Encode`, `decodePubkey` and `requirePubkey` each run
      for every digit they read: multiply the numeral in place, then push what is left. */
  method MultiplyInPlace(number: seq<nat>, times: nat, digit: nat, base: Radix) returns (digits: seq<nat>)
    requires Below(number, base) && digit < times <= 256
    ensures digits == MulAdd(number, times, digit, base)
  {
    digits := number;
    var carry := digit;
    for index := 0 to |number|
      invariant 0 <= carry < times && |digits| == |number|
      invariant forall i :: index <= i < |number| ==> digits[i] == number[i]
      invariant digits[..index] + MulAdd(number[index..], times, carry, base) == MulAdd(number, times, digit, base)
    {
      ghost var n := PassStep(digits[..index], number, index, times, carry, base);
      var next := digits[index] * times + carry;
      CarryIsSmall(digits[index], times, carry, base);
      digits := digits[index := next % base];
      assert digits[..index + 1] == digits[..index] + [next % base];
      carry := next / base;
    }
    assert digits[..|number|] == digits;
    digits := PushCarry(digits, carry, base);
  }

  function Ones(n: nat): (text: string)
    ensures |text| == n
  {
    seq(n, _ => '1')
  }

  lemma LettersOfConcat(left: seq<nat>, right: seq<nat>)
    requires Below(left, 58) && Below(right, 58)
    ensures Below(left + right, 58) && Letters(left + right) == Letters(left) + Letters(right)
  {
  }

  lemma TextOf(bytes: seq<byte>)
    ensures Text(bytes) == Ones(LeadingZeros(bytes)) + Letters(Reverse(Digits(BigEndian(bytes, 256), 58)))
  {
    var zeros := Zeroes(LeadingZeros(bytes));
    LettersOfConcat(zeros, Reverse(Digits(BigEndian(bytes, 256), 58)));
    assert Letters(zeros) == Ones(LeadingZeros(bytes));
  }

  /** Skipping zeros before the last byte and keeping one digit at least spells `Text`. */
  lemma EncodedText(bytes: seq<byte>, index: nat)
    requires index < |bytes| && (forall i :: 0 <= i < index ==> bytes[i] == 0)
    requires index == |bytes| - 1 || bytes[index] != 0
    ensures Ones(index) + Letters(Reverse(EncodedPrefix(bytes, |bytes|))) == Text(bytes)
  {
    assert bytes[..|bytes|] == bytes;
    ZeroValue(bytes, 256);
    TextOf(bytes);
    if bytes[index] != 0 {
      LeadingZerosOf(bytes, index);
    } else {
      LeadingZerosOf(bytes, index + 1);
      ZeroText(index);
    }
  }

  lemma ZeroText(index: nat)
    ensures Ones(index) + Letters(Reverse([0])) == Ones(index + 1) + Letters(Reverse(Digits(0, 58)))
  {
    assert Letters(Reverse([0])) == "1";
    assert Letters(Reverse(Digits(0, 58))) == "";
  }

  /** `base58Encode`. The one array it spells differently from `Text` is the empty one. */
  method Base58Encode(bytes: seq<byte>) returns (text: string)
    ensures text == if bytes == [] then "1" else Text(bytes)
  {
    var digits: seq<nat> := [0];
    for k := 0 to |bytes|
      invariant digits == EncodedPrefix(bytes, k)
    {
      EncodePass(bytes, k);
      digits := MultiplyInPlace(digits, 256, bytes[k], 58);
    }
    var index, output := 0, "";
    while index < |bytes| - 1 && bytes[index] == 0
      invariant 0 <= index <= |bytes| && (bytes != [] ==> index <= |bytes| - 1)
      invariant forall i :: 0 <= i < index ==> bytes[i] == 0
      invariant output == Ones(index)
    {
      output := output + "1";
      index := index + 1;
    }
    text := output + Letters(Reverse(digits));
    if bytes != [] {
      EncodedText(bytes, index);
    } else {
      assert Reverse(digits) == [0] && Letters([0]) == "1";
    }
  }

  /** Skipping ones and converting the letters after them gives `Convert`'s bytes. */
  lemma DecodedBytes(text: string, ones: nat)
    requires ones <= |text| && AllLetters(text[ones..])
    requires forall i :: 0 <= i < ones ==> text[i] == '1'
    requires ones < |text| ==> text[ones] != '1'
    ensures AllLetters(text) && LeadingZeros(Parse(text)) == ones
    ensures BigEndian(Parse(text[ones..]), 58) == BigEndian(Parse(text), 58)
  {
    var rest := text[ones..];
    forall i | 0 <= i < |text| ensures IsLetter(text[i]) {
      if i >= ones {
        assert text[i] == rest[i - ones];
      }
    }
    var digits := Parse(text);
    LeadingZerosOf(digits, ones);
    assert digits == Zeroes(ones) + Parse(rest);
    ReverseOfPadded(ones, Parse(rest));
    HighZeros(Reverse(Parse(rest)), ones, 58);
  }

  /** The loops over the letters that `decodePubkey` and `requirePubkey` share: count the
      leading ones, then convert what follows, stopping at a character that is no letter. */
  method DecodeLetters(text: string) returns (ones: nat, bytes: Option<seq<nat>>)
    ensures bytes.None? <==> !AllLetters(text)
    ensures bytes.Some? ==> Zeroes(ones) + Reverse(bytes.value) == Convert(Parse(text), 58, 256)
  {
    ones := 0;
    while ones < |text| && text[ones] == '1'
      invariant ones <= |text| && forall i :: 0 <= i < ones ==> text[i] == '1'
    {
      ones := ones + 1;
    }
    var rest := text[ones..];
    var number: seq<nat> := [];
    for k := 0 to |rest|
      invariant AllLetters(rest[..k])
      invariant number == Digits(BigEndian(Parse(rest[..k]), 58), 256)
    {
      var digit := DigitOf(rest[k]);
      if digit < 0 {
        assert !IsLetter(text[ones + k]);
        return ones, None;
      }
      NextNumber(rest, k, digit, number);
      number := MultiplyInPlace(number, 58, digit, 256);
    }
    assert rest[..|rest|] == rest;
    DecodedBytes(text, ones);
    bytes := Some(number);
  }

  lemma NextNumber(text: string, k: nat, digit: nat, number: seq<nat>)
    requires k < |text| && AllLetters(text[..k]) && DigitOf(text[k]) == digit
    requires number == Digits(BigEndian(Parse(text[..k]), 58), 256)
    ensures AllLetters(text[..k + 1]) && digit < 58 && Below(number, 256)
    ensures MulAdd(number, 58, digit, 256) == Digits(BigEndian(Parse(text[..k + 1]), 58), 256)
  {
    NextLetter(text, k);
    var n := BigEndian(Parse(text[..k]), 58);
    MulAddGrows(n, 58, digit, 256, 58 * n + digit);
  }

  lemma NextLetter(text: string, k: nat)
    requires k < |text| && AllLetters(text[..k]) && IsLetter(text[k])
    ensures AllLetters(text[..k + 1])
    ensures BigEndian(Parse(text[..k + 1]), 58)
            == 58 * BigEndian(Parse(text[..k]), 58) + DigitOf(text[k])
  {
    var next := text[..k + 1];
    assert forall i :: 0 <= i < k ==> next[i] == text[..k][i];
    assert Parse(next)[..k] == Parse(text[..k]);
    NextDigit(Parse(next), k, 58);
    assert Parse(next)[..k + 1] == Parse(next);
  }

  /** `decodePubkey`. */
  method DecodePubkey(text: string) returns (r: Result<seq<byte>, KeyError>)
    ensures r == Decode(text)
  {
    var ones, bytes := DecodeLetters(text);
    if bytes.None? {
      return Err(NotBase58);
    }
    var output := Zeroes(ones) + Reverse(bytes.value);
    if |output| != 32 {
      return Err(NotThirtyTwoBytes);
    }
    r := Ok(output);
  }

  /** `requirePubkey` builds no key, but refuses the same texts for the same reasons. */
  method RequirePubkey(address: string) returns (refused: Option<KeyError>)
    ensures refused == match Decode(address) case Ok(_) => None case Err(e) => Some(e)
  {
    var ones, bytes := DecodeLetters(address);
    if bytes.None? {
      return Some(NotBase58);
    }
    if ones + |bytes.value| != 32 {
      return Some(NotThirtyTwoBytes);
    }
    refused := None;
  }

  /** The digits of a big integer, one division at a time. */
  method BigIntegerLetters(value: nat) returns (text: string)
    ensures text == Letters(Reverse(Digits(value, 58)))
  {
    text := "";
    var n := value;
    while n > 0
      invariant n >= 0
      invariant Letters(Reverse(Digits(n, 58))) + text == Letters(Reverse(Digits(value, 58)))
    {
      PrependLetter(n, text);
      text := [LetterOf(n % 58)] + text;
      n := n / 58;
    }
  }

  /** `base58`, with one big integer: no array is an exception. */
  method BigIntegerBase58(bytes: seq<byte>) returns (text: string)
    ensures text == Text(bytes)
  {
    var n: nat := 0;
    for k := 0 to |bytes|
      invariant n == BigEndian(bytes[..k], 256)
    {
      NextDigit(bytes, k, 256);
      n := n * 256 + bytes[k];
    }
    assert bytes[..|bytes|] == bytes;
    text := BigIntegerLetters(n);
    ghost var digits := text;
    var index := 0;
    while index < |bytes| && bytes[index] == 0
      invariant 0 <= index <= |bytes|
      invariant forall i :: 0 <= i < index ==> bytes[i] == 0
      invariant text == Ones(index) + digits
    {
      text := "1" + text;
      index := index + 1;
    }
    LeadingZerosOf(bytes, index);
    TextOf(bytes);
  }

  lemma PrependLetter(n: nat, text: string)
    requires n > 0
    ensures Letters(Reverse(Digits(n, 58))) + text
            == Letters(Reverse(Digits(n / 58, 58))) + ([LetterOf(n % 58)] + text)
  {
    var digit, rest := n % 58, Digits(n / 58, 58);
    FirstDigit(n, 58, rest);
    ReverseOfCons(digit, rest);
    LettersOfSnoc(Reverse(rest), digit);
    Regroup(Letters(Reverse(rest)), [LetterOf(digit)], text);
  }

  lemma Regroup(a: string, b: string, c: string)
    ensures a + b + c == a + (b + c)
  {
  }

  lemma ReverseOfCons(digit: nat, rest: seq<nat>)
    ensures Reverse([digit] + rest) == Reverse(rest) + [digit]
  {
  }

  lemma LettersOfSnoc(digits: seq<nat>, digit: nat)
    requires Below(digits, 58) && digit < 58
    ensures Letters(digits + [digit]) == Letters(digits) + [LetterOf(digit)]
  {
  }}
