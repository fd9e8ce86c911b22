/** Decoding the id in a video page's path: a base-36 number whose bits are flipped by a mask. */
module PathToken {
  import opened PlaybackModel

  const TVID_MASK: nat := 0x75706971676C
  const SMALLEST_TVID: nat := 900_000

  type Bit = b: nat | b < 2

  function DigitValue(c: char): (d: Option<nat>)
    ensures d.Some? ==> d.value < 36
  {
    if '0' <= c <= '9' then Some((c - '0') as nat)
    else if 'a' <= c <= 'z' then Some((c - 'a') as nat + 10)
    else if 'A' <= c <= 'Z' then Some((c - 'A') as nat + 10)
    else None
  }

  function DigitText(d: nat): (c: char)
    requires d < 36
    ensures DigitValue(c) == Some(d)
  {
    if d < 10 then '0' + d as char else 'a' + (d - 10) as char
  }

  predicate IsSpace(c: char) {
    c == ' ' || '\t' <= c <= '\r'
  }

  function Strip(text: string): string
    decreases |text|
  {
    if text != "" && IsSpace(text[0]) then Strip(text[1..])
    else if text != "" && IsSpace(text[|text| - 1]) then Strip(text[..|text| - 1])
    else text
  }

  function AppendDigit(front: Option<nat>, last: nat): Option<nat> {
    if front.None? then None else Some(front.value * 36 + last)
  }

  function DropUnderscore(text: string): (rest: string)
    ensures |rest| <= |text|
  {
    if text != "" && text[|text| - 1] == '_' then text[..|text| - 1] else text
  }

  // One or more digits, with at most one underscore between any two.
  function Digits(text: string): Option<nat>
    decreases |text|
  {
    if text == "" then None
    else
      var last, rest := DigitValue(text[|text| - 1]), text[..|text| - 1];
      if last.None? || rest == "" then last
      else
        AppendDigit(Digits(DropUnderscore(rest)), last.value)
  }

  // Space around the number and a sign in front of it are allowed.
  function ParseBase36(text: string): Option<int> {
    var t := Strip(text);
    if t == "" then None
    else
      var digits := Digits(if t[0] == '+' || t[0] == '-' then t[1..] else t);
      if digits.None? then None
      else
        var n: int := digits.value;
        Some(if t[0] == '-' then -n else n)
  }

  function Base36(n: nat): (text: string)
    ensures text != "" && DigitValue(text[0]).Some? && DigitValue(text[|text| - 1]).Some?
  {
    if n < 36 then [DigitText(n)] else Base36(n / 36) + [DigitText(n % 36)]
  }

  lemma {:induction false} DigitsOfPrinted(n: nat)
    ensures Digits(Base36(n)) == Some(n)
  {
    var text := Base36(n);
    if n < 36 {
      assert text == [DigitText(n)] && text[..0] == "";
      assert DigitValue(text[0]) == Some(n);
    } else {
      DigitsOfPrinted(n / 36);
      assert text[..|text| - 1] == Base36(n / 36);
    }
  }

  lemma DigitIsPlain(c: char)
    requires DigitValue(c).Some?
    ensures !IsSpace(c) && c != '+' && c != '-' && c != '_'
  {
  }

  lemma ParsePrintedNumber(n: nat)
    ensures ParseBase36(Base36(n)) == Some(n)
  {
    hide Base36, Digits, DigitValue, IsSpace;
    DigitsOfPrinted(n);
    DigitIsPlain(Base36(n)[0]);
    DigitIsPlain(Base36(n)[|Base36(n)| - 1]);
  }

  /** Space around a printed number and a plus sign make no difference, a minus sign negates it. */
  lemma ParseDecorated(n: nat)
    ensures ParseBase36(" +" + Base36(n) + "\n") == Some(n)
    ensures var negated := ParseBase36("-" + Base36(n)); negated.Some? && negated.value + n == 0
  {
    hide Base36, Digits, DigitValue;
    DigitsOfPrinted(n);
    var digits := Base36(n);
    DigitIsPlain(digits[|digits| - 1]);
    var plus, minus := "+" + digits, "-" + digits;
    assert plus[|plus| - 1] == digits[|digits| - 1] && minus[|minus| - 1] == digits[|digits| - 1];
    assert (" +" + digits + "\n")[1..] == plus + "\n" && (plus + "\n")[..|plus|] == plus;
    assert Strip(plus) == plus && Strip(minus) == minus;
    assert Strip(plus + "\n") == plus;
    assert plus[1..] == digits && minus[1..] == digits;
  }

  /** Binary digits, lowest first; zero is one zero digit. */
  function Bits(n: nat): (bits: seq<Bit>)
    ensures |bits| > 0
  {
    if n < 2 then [n] else [n % 2] + Bits(n / 2)
  }

  function FromBits(bits: seq<Bit>): nat {
    if bits == [] then 0 else bits[0] + 2 * FromBits(bits[1..])
  }

  lemma {:induction false} BitsValue(n: nat)
    ensures FromBits(Bits(n)) == n
  {
    if n >= 2 {
      BitsValue(n / 2);
      assert Bits(n)[1..] == Bits(n / 2);
    } else {
      assert FromBits([n][1..]) == 0;
    }
  }

  /** Exclusive or of two numbers, digit by digit. */
  function Xor(a: nat, b: nat): nat {
    if a == 0 && b == 0 then 0 else (a + b) % 2 + 2 * Xor(a / 2, b / 2)
  }

  lemma XorUnfold(a: nat, b: nat)
    ensures Xor(a, b) == (a + b) % 2 + 2 * Xor(a / 2, b / 2)
  {
  }

  lemma SplitParity(p: Bit, q: nat)
    ensures (p + 2 * q) % 2 == p && (p + 2 * q) / 2 == q
  {
  }

  lemma XorParts(a: nat, b: nat)
    ensures Xor(a, b) % 2 == (a + b) % 2 && Xor(a, b) / 2 == Xor(a / 2, b / 2)
  {
    hide Xor;
    XorUnfold(a, b);
    SplitParity((a + b) % 2, Xor(a / 2, b / 2));
  }

  lemma SameParity(x: nat, a: nat, b: nat)
    requires x % 2 == (a + b) % 2
    ensures (x + b) % 2 == a % 2
  {
  }

  lemma {:induction false} XorTwice(a: nat, b: nat)
    ensures Xor(Xor(a, b), b) == a
  {
    if a != 0 || b != 0 {
      XorTwice(a / 2, b / 2);
      XorParts(a, b);
      XorParts(Xor(a, b), b);
      SameParity(Xor(a, b), a, b);
    }
  }

  function BitAt(bits: seq<Bit>, i: nat): Bit {
    if i < |bits| then bits[i] else 0
  }

  function Rest(bits: seq<Bit>): seq<Bit> {
    if bits == [] then [] else bits[1..]
  }

  lemma XorStep(p: Bit, q: Bit, a: nat, b: nat)
    ensures Xor(p + 2 * a, q + 2 * b) == (p + q) % 2 + 2 * Xor(a, b)
  {
    assert (p + 2 * a) / 2 == a && (q + 2 * b) / 2 == b;
    assert (p + 2 * a + q + 2 * b) % 2 == (p + q) % 2;
  }

  lemma NoBits()
    ensures FromBits([]) == Xor(0, 0) == 0
  {
  }

  lemma FirstBit(bits: seq<Bit>)
    ensures FromBits(bits) == BitAt(bits, 0) + 2 * FromBits(Rest(bits))
  {
  }

  /** A digit-wise exclusive or of zero-padded bit lists is the exclusive or of the numbers. */
  lemma {:induction false} XorOfBits(a: seq<Bit>, b: seq<Bit>, x: seq<Bit>)
    requires |x| >= |a| && |x| >= |b|
    requires forall i :: 0 <= i < |x| ==> x[i] == (BitAt(a, i) + BitAt(b, i)) % 2
    ensures FromBits(x) == Xor(FromBits(a), FromBits(b))
    decreases |x|
  {
    hide Xor, FromBits;
    if x == [] {
      NoBits();
    } else {
      forall i | 0 <= i < |x| - 1 ensures x[1..][i] == (BitAt(Rest(a), i) + BitAt(Rest(b), i)) % 2 {
        assert x[1..][i] == x[i + 1];
      }
      XorOfBits(Rest(a), Rest(b), x[1..]);
      FirstBit(a);
      FirstBit(b);
      FirstBit(x);
      XorStep(BitAt(a, 0), BitAt(b, 0), FromBits(Rest(a)), FromBits(Rest(b)));
    }
  }

  function Corrected(tvid: nat): nat {
    if tvid < SMALLEST_TVID then 100 * (tvid + SMALLEST_TVID) else tvid
  }

  // A negative number decodes to no id: its binary text keeps a letter that is no digit, and reading
  // that letter as one raises an error the caller sees.
  datatype Decoded = Malformed | Id(tvid: nat) | Raises

  function Decode(token: string): Decoded {
    var parsed := ParseBase36(token);
    if parsed.None? then Malformed
    else if parsed.value < 0 then Raises
    else Id(Corrected(Xor(parsed.value, TVID_MASK)))
  }

  // The reversed binary text, without its two leading characters: for a negative number that leaves
  // the letter of the prefix, here none.
  function ReversedText(n: int): (text: seq<Option<Bit>>)
    ensures var bits := Bits(if n < 0 then -n else n);
            && |text| == |bits| + (if n < 0 then 1 else 0)
            && (forall i :: 0 <= i < |bits| ==> text[i] == Some(bits[i]))
            && (n < 0 ==> text[|bits|].None?)
  {
    var bits := Bits(if n < 0 then -n else n);
    seq(|bits|, i requires 0 <= i < |bits| => Some(bits[i])) + if n < 0 then [None] else []
  }

  method DecodePathToken(token: string) returns (decoded: Decoded)
    ensures decoded == Decode(token)
  {
    hide Bits, Xor, FromBits, Digits;
    var parsed := ParseBase36(token);
    if parsed.None? {
      return Malformed;
    }
    var encoded := ReversedText(parsed.value);
    ghost var bits := Bits(if parsed.value < 0 then -parsed.value else parsed.value);
    var mask := Bits(TVID_MASK);
    var width := if |encoded| > |mask| then |encoded| else |mask|;
    var flipped: seq<Bit> := [];
    for index := 0 to width
      invariant |flipped| == index
      invariant parsed.value < 0 ==> index <= |bits|
      invariant forall i :: 0 <= i < index ==> flipped[i] == (BitAt(bits, i) + BitAt(mask, i)) % 2
    {
      var encodedBit: Option<Bit> := if index < |encoded| then encoded[index] else Some(0);
      if encodedBit.None? {
        return Raises;
      }
      var maskBit: Bit := if index < |mask| then mask[index] else 0;
      flipped := flipped + [if encodedBit.value == maskBit then 0 else 1];
    }
    XorOfBits(bits, mask, flipped);
    BitsValue(parsed.value);
    BitsValue(TVID_MASK);
    var id := FromBits(flipped);
    if id < SMALLEST_TVID {
      id := 100 * (id + SMALLEST_TVID);
    }
    decoded := Id(id);
  }

  /** An id masked and printed in base 36 decodes back to itself iff it is a regular id. */
  lemma MaskedIdDecodesIff(id: nat)
    ensures Decode(Base36(Xor(id, TVID_MASK))) == Id(id) <==> id >= SMALLEST_TVID
  {
    hide Xor, ParseBase36;
    ParsePrintedNumber(Xor(id, TVID_MASK));
    XorTwice(id, TVID_MASK);
  }

  /** A token decodes iff it is a non-negative number; every id is regular; and an id that needed no
      correction masks back to the token's number. */
  lemma DecodedIdsAreRegular(token: string)
    ensures Decode(token).Id? <==> ParseBase36(token).Some? && ParseBase36(token).value >= 0
    ensures Decode(token).Malformed? <==> ParseBase36(token).None?
    ensures Decode(token).Id? ==> Decode(token).tvid >= SMALLEST_TVID
    ensures Decode(token).Id? && Xor(ParseBase36(token).value, TVID_MASK) >= SMALLEST_TVID ==>
              Xor(Decode(token).tvid, TVID_MASK) == ParseBase36(token).value
  {
    hide Xor, ParseBase36;
    if Decode(token).Id? {
      XorTwice(ParseBase36(token).value, TVID_MASK);
    }
  }

  /** Every masked id decodes to itself, or, if it is below 900000, to a hundred times its distance above
      -900000; no two ids that are both below, or both not, decode alike. */
  lemma MaskedIdDecodes(id: nat)
    ensures Decode(Base36(Xor(id, 0x75706971676C))) == Id(if id >= 900_000 then id else 100 * id + 90_000_000)
  {
    hide Xor, ParseBase36;
    ParsePrintedNumber(Xor(id, TVID_MASK));
    XorTwice(id, TVID_MASK);
  }

  lemma NoDigits()
    ensures Digits("").None?
  {
  }

  lemma DigitsEnd(rest: string, c: char)
    ensures Digits(rest + [c]) ==
            if DigitValue(c).None? || rest == "" then DigitValue(c)
            else AppendDigit(Digits(DropUnderscore(rest)), DigitValue(c).value)
  {
    hide DigitValue, AppendDigit, DropUnderscore;
    assert (rest + [c])[..|rest|] == rest;
  }

  lemma NotADigit()
    ensures DigitValue('_').None?
  {
  }

  lemma CaseDoesNotMatter(c: char)
    ensures 'A' <= c <= 'Z' ==> DigitValue(c) == DigitValue(c - 'A' + 'a')
  {
  }

  /** One underscore between two digits makes no difference; one at either end, or two in a row, is no
      number; and letters count alike in either case. */
  lemma UnderscoresAndCase(text: string, c: char)
    ensures text != "" && text[|text| - 1] != '_' ==> Digits(text + "_" + [c]) == Digits(text + [c])
    ensures Digits(text + "_").None? && Digits("_" + [c]).None? && Digits(text + "__" + [c]).None?
    ensures 'A' <= c <= 'Z' ==> DigitValue(c) == DigitValue(c - 'A' + 'a')
  {
    hide Digits, DigitValue;
    NotADigit();
    CaseDoesNotMatter(c);
    DigitsEnd(text, '_');
    DigitsEnd(text, c);
    DigitsEnd(text + "_", c);
    DigitsEnd(text + "_", '_');
    DigitsEnd(text + "__", c);
    assert "_" + [c] == "" + "_" + [c];
    DigitsEnd("", '_');
    DigitsEnd("_", c);
    assert (text + "_")[..|text|] == text && (text + "__")[..|text| + 1] == text + "_";
    assert text + "_" + ['_'] == text + "__" && text + ['_'] == text + "_" && "" + ['_'] == "_" && "_"[..0] == "";
    NoDigits();
  }
}
