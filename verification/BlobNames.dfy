// The file name of a saved blob packs its ordinal and the ordinal of the first saved entry
// that shares its source object: six decimal digits, twelve hexadecimal digits.
module BlobNames {
  import opened Wrappers

  const ORDINALS := 1_000_000
  const GROUPS := 0x1_0000_0000_0000

  function Digit(d: nat): (c: char)
    requires d < 16
    ensures DigitValue(c) == d
  {
    if d < 10 then ('0' as int + d) as char else ('a' as int + d - 10) as char
  }

  function DigitValue(c: char): int {
    if '0' <= c <= '9' then c as int - '0' as int
    else if 'a' <= c <= 'f' then c as int - 'a' as int + 10
    else -1
  }

  datatype Radix = Decimal | Hexadecimal {
    function Base(): nat { if this == Decimal then 10 else 16 }
    function Times(n: nat): nat { if this == Decimal then 10 * n else 16 * n }
    function Quotient(n: nat): nat { if this == Decimal then n / 10 else n / 16 }
    function Remainder(n: nat): nat { if this == Decimal then n % 10 else n % 16 }
    function Power(width: nat): nat { if width == 0 then 1 else Times(Power(width - 1)) }
  }

  predicate IsNumeral(text: string, radix: Radix) {
    forall i :: 0 <= i < |text| ==> 0 <= DigitValue(text[i]) < radix.Base()
  }

  // Zero-padded to width and never truncated.
  function Numeral(n: nat, radix: Radix, width: nat): (text: string)
    ensures |text| >= width && |text| >= 1
    decreases n, width
  {
    if n < radix.Base() && width <= 1 then [Digit(n)]
    else Numeral(radix.Quotient(n), radix, if width == 0 then 0 else width - 1) + [Digit(radix.Remainder(n))]
  }

  function NumeralValue(text: string, radix: Radix): nat
    requires IsNumeral(text, radix)
  {
    if text == [] then 0
    else radix.Times(NumeralValue(text[..|text| - 1], radix)) + DigitValue(text[|text| - 1])
  }

  lemma {:induction false} NumeralRoundTrip(n: nat, radix: Radix, width: nat)
    ensures IsNumeral(Numeral(n, radix, width), radix)
    ensures NumeralValue(Numeral(n, radix, width), radix) == n
    decreases n, width
  {
    var text := Numeral(n, radix, width);
    if n < radix.Base() && width <= 1 {
      assert text[..0] == [];
    } else {
      var rest := Numeral(radix.Quotient(n), radix, if width == 0 then 0 else width - 1);
      NumeralRoundTrip(radix.Quotient(n), radix, if width == 0 then 0 else width - 1);
      assert text[..|text| - 1] == rest;
    }
  }

  lemma {:induction false} NumeralWidth(n: nat, radix: Radix, width: nat)
    requires width >= 1
    ensures |Numeral(n, radix, width)| == width <==> n < radix.Power(width)
    decreases n, width
  {
    if width > 1 {
      NumeralWidth(radix.Quotient(n), radix, width - 1);
    } else {
      assert radix.Power(1) == radix.Times(radix.Power(0)) == radix.Base();
    }
  }

  lemma LastDigit(radix: Radix, n: nat, d: nat)
    requires d < radix.Base()
    ensures radix.Quotient(radix.Times(n) + d) == n && radix.Remainder(radix.Times(n) + d) == d
  {
  }

  lemma DigitRoundTrip(c: char)
    requires 0 <= DigitValue(c)
    ensures Digit(DigitValue(c)) == c
  {
  }

  lemma NumeralUnfold(n: nat, radix: Radix, width: nat)
    requires width >= 2
    ensures Numeral(n, radix, width) == Numeral(radix.Quotient(n), radix, width - 1) + [Digit(radix.Remainder(n))]
  {
  }

  // Appending a digit to a text appends it to the numeral of its value.
  lemma NumeralAppend(rest: string, c: char, radix: Radix, n: nat)
    requires |rest| >= 1 && 0 <= DigitValue(c) < radix.Base()
    requires Numeral(radix.Quotient(n), radix, |rest|) == rest && radix.Remainder(n) == DigitValue(c)
    ensures Numeral(n, radix, |rest| + 1) == rest + [c]
  {
    NumeralUnfold(n, radix, |rest| + 1);
    DigitRoundTrip(c);
  }

  lemma OneDigit(c: char, radix: Radix)
    requires IsNumeral([c], radix)
    ensures Numeral(NumeralValue([c], radix), radix, 1) == [c]
  {
    assert [c][..0] == [];
    assert 0 <= DigitValue([c][0]) < radix.Base();
    DigitRoundTrip(c);
  }

  lemma SplitLast(rest: string, c: char, radix: Radix)
    requires IsNumeral(rest + [c], radix)
    ensures IsNumeral(rest, radix) && 0 <= DigitValue(c) < radix.Base()
    ensures NumeralValue(rest + [c], radix) == radix.Times(NumeralValue(rest, radix)) + DigitValue(c)
  {
    var text := rest + [c];
    assert text[..|text| - 1] == rest && text[|rest|] == c;
    assert forall i :: 0 <= i < |rest| ==> rest[i] == text[i];
  }

  lemma {:induction false} NumeralUnique(text: string, radix: Radix)
    requires |text| >= 1 && IsNumeral(text, radix)
    ensures Numeral(NumeralValue(text, radix), radix, |text|) == text
  {
    var n := |text| - 1;
    var rest, c := text[..n], text[n];
    assert text == rest + [c];
    if n == 0 {
      assert text == [c];
      OneDigit(c, radix);
    } else {
      SplitLast(rest, c, radix);
      NumeralUnique(rest, radix);
      LastDigit(radix, NumeralValue(rest, radix), DigitValue(c));
      NumeralAppend(rest, c, radix, NumeralValue(text, radix));
    }
  }

  lemma Ranges()
    ensures Decimal.Power(6) == ORDINALS && Hexadecimal.Power(12) == GROUPS
  {
    assert Decimal.Power(3) == 1000 && Decimal.Power(6) == 1_000_000;
    assert Hexadecimal.Power(3) == 0x1000;
    assert Hexadecimal.Power(6) == 0x100_0000;
    assert Hexadecimal.Power(9) == 0x10_0000_0000;
  }

  const SUFFIX := ".dill"

  function BlobName(ordinal: nat, group: nat): string {
    Numeral(ordinal, Decimal, 6) + "-" + Numeral(group, Hexadecimal, 12) + SUFFIX
  }

  // The fixed-width pattern accepted by the validator: both numbers, or nothing.
  function ParseBlobName(file: string): Option<(nat, nat)> {
    if |file| == 24 && IsNumeral(file[..6], Decimal) && file[6] == '-'
       && IsNumeral(file[7..19], Hexadecimal) && file[19..] == SUFFIX
    then Some((NumeralValue(file[..6], Decimal), NumeralValue(file[7..19], Hexadecimal)))
    else None
  }

  // A blob name reads back as the two numbers it was made from exactly while both fit
  // their fixed widths; outside that range the pattern rejects it.
  lemma BlobNameRoundTrip(ordinal: nat, group: nat)
    ensures ParseBlobName(BlobName(ordinal, group))
            == if ordinal < ORDINALS && group < GROUPS then Some((ordinal, group)) else None
  {
    var file := BlobName(ordinal, group);
    Ranges();
    NumeralWidth(ordinal, Decimal, 6);
    NumeralWidth(group, Hexadecimal, 12);
    if ordinal < ORDINALS && group < GROUPS {
      NumeralRoundTrip(ordinal, Decimal, 6);
      NumeralRoundTrip(group, Hexadecimal, 12);
      assert file[..6] == Numeral(ordinal, Decimal, 6);
      assert file[7..19] == Numeral(group, Hexadecimal, 12);
      assert file[19..] == SUFFIX;
    } else {
      assert |file| == |Numeral(ordinal, Decimal, 6)| + |Numeral(group, Hexadecimal, 12)| + 6 > 24;
    }
  }

  // No other spelling is accepted for the same pair.
  lemma ParseIsExact(file: string)
    requires ParseBlobName(file).Some?
    ensures var (ordinal, group) := ParseBlobName(file).value; file == BlobName(ordinal, group)
  {
    NumeralUnique(file[..6], Decimal);
    NumeralUnique(file[7..19], Hexadecimal);
    assert file == file[..6] + "-" + file[7..19] + file[19..];
  }

  lemma DashEndsDigits(first: string, more: string, second: string, rest: string)
    requires IsNumeral(first, Decimal) && IsNumeral(second, Decimal)
    requires first + ("-" + more) == second + ("-" + rest)
    ensures first == second
  {
    var name := first + ("-" + more);
    assert name[|first|] == '-' && name[|second|] == '-';
    assert forall i :: 0 <= i < |first| ==> name[i] == first[i];
    assert forall i :: 0 <= i < |second| ==> name[i] == second[i];
    assert |first| == |second|;
    assert name[..|first|] == first && name[..|second|] == second;
  }

  // Ordinals never collide, even past the fixed width: the dash ends the digits.
  lemma BlobNamesApart(a: nat, g: nat, b: nat, h: nat)
    requires BlobName(a, g) == BlobName(b, h)
    ensures a == b
  {
    var first, more := Numeral(a, Decimal, 6), Numeral(g, Hexadecimal, 12) + SUFFIX;
    var second, rest := Numeral(b, Decimal, 6), Numeral(h, Hexadecimal, 12) + SUFFIX;
    NumeralRoundTrip(a, Decimal, 6);
    NumeralRoundTrip(b, Decimal, 6);
    assert BlobName(a, g) == first + ("-" + more);
    assert BlobName(b, h) == second + ("-" + rest);
    DashEndsDigits(first, more, second, rest);
  }
}
