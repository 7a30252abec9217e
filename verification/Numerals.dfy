/** Positional numerals: the value of a text of digits in a base, and the canonical texts printf
    produces for a number. The parser of StringView is proved against Value.
  */
module Numerals {
  const INT_MAX := 0x7FFF_FFFF

  /** The value of a hexadecimal digit of either case, or -1. */
  function HexValue(c: char): (v: int)
    ensures -1 <= v < 16
  {
    if '0' <= c <= '9' then c as int - '0' as int
    else if 'a' <= c <= 'f' then c as int - 'a' as int + 10
    else if 'A' <= c <= 'F' then c as int - 'A' as int + 10
    else -1
  }

  predicate AllDigits(s: string, base: nat) {
    forall k :: 0 <= k < |s| ==> 0 <= HexValue(s[k]) < base
  }

  function Value(s: string, base: nat): nat
    requires AllDigits(s, base)
  {
    if s == "" then 0 else Value(s[..|s| - 1], base) * base + HexValue(s[|s| - 1])
  }

  lemma Grows(v: nat, base: nat)
    requires base >= 1
    ensures v * base >= v
  {
  }

  lemma Digits(n: nat, base: nat)
    requires n >= base && (base == 10 || base == 16)
    ensures 0 < n / base < n && 0 <= n % base < base && n / base * base + n % base == n
  {
  }

  /** A longer numeral is never worth less: no prefix exceeds the whole. */
  lemma {:induction false} PrefixValue(s: string, base: nat, i: nat)
    requires base >= 1 && AllDigits(s, base) && i <= |s|
    ensures Value(s[..i], base) <= Value(s, base)
    decreases |s| - i
  {
    if i < |s| {
      PrefixValue(s, base, i + 1);
      assert s[..i + 1][..i] == s[..i];
      Grows(Value(s[..i], base), base);
    } else {
      assert s[..i] == s;
    }
  }

  /** What the number parser answers: -1 exactly for an empty text and for a text with a
      non-digit behind the optional 0x. */
  function ParseNumber(s: string): (r: int)
    ensures r >= -1
  {
    var (digits, base) := if "0x" <= s then (s[2..], 16) else (s, 10);
    if s != "" && AllDigits(digits, base) then Value(digits, base) else -1
  }

  function DigitChar(v: nat): (c: char)
    requires v < 16
    ensures HexValue(c) == v && c != '-' && c != ','
  {
    if v < 10 then '0' + v as char else 'a' + (v - 10) as char
  }

  /** The canonical text of n: no leading zeros, at least one digit, lower-case letters. */
  function Numeral(n: nat, base: nat): (s: string)
    requires base == 10 || base == 16
    ensures s != "" && AllDigits(s, base)
    ensures s[0] == '0' <==> n == 0
    ensures n == 0 ==> |s| == 1
    ensures '-' !in s && ',' !in s
    decreases n
  {
    if n < base then [DigitChar(n)]
    else
      Digits(n, base);
      Numeral(n / base, base) + [DigitChar(n % base)]
  }

  function Decimal(n: nat): string {
    Numeral(n, 10)
  }

  lemma {:induction false} ValueOfNumeral(n: nat, base: nat)
    requires base == 10 || base == 16
    ensures Value(Numeral(n, base), base) == n
    decreases n
  {
    if n >= base {
      Digits(n, base);
      ValueOfNumeral(n / base, base);
      var s := Numeral(n, base);
      assert s[..|s| - 1] == Numeral(n / base, base);
    } else {
      assert Numeral(n, base)[..0] == "";
    }
  }

  /** Decimal text parses to the number it was printed from. */
  lemma DecimalRoundTrip(n: nat)
    ensures ParseNumber(Decimal(n)) == n
  {
    ValueOfNumeral(n, 10);
    var s := Decimal(n);
    assert !("0x" <= s) by {
      if |s| >= 2 {
        assert 0 <= HexValue(s[1]) < 10;
      }
    }
  }

  /** Texts that agree digit by digit, whatever the case of their letters, have one value. */
  lemma {:induction false} CaseBlind(s: string, t: string, base: nat)
    requires AllDigits(s, base) && |s| == |t|
    requires forall k :: 0 <= k < |s| ==> HexValue(s[k]) == HexValue(t[k])
    ensures AllDigits(t, base) && Value(s, base) == Value(t, base)
  {
    if s != "" {
      CaseBlind(s[..|s| - 1], t[..|t| - 1], base);
    }
  }

  /** Hexadecimal text with any mix of letter cases parses to the number it denotes. */
  lemma HexRoundTrip(n: nat, text: string)
    requires |text| == |Numeral(n, 16)|
    requires forall k :: 0 <= k < |text| ==> HexValue(text[k]) == HexValue(Numeral(n, 16)[k])
    ensures ParseNumber("0x" + text) == n
  {
    ValueOfNumeral(n, 16);
    CaseBlind(Numeral(n, 16), text, 16);
    assert ("0x" + text)[2..] == text;
  }

  // ----- Characters and malformed texts

  /** The digits in order, the letters in either case; no other character has a value. */
  lemma DigitIs(c: char)
    ensures forall v :: 0 <= v < 16 ==> (HexValue(c) == v <==> c == "0123456789abcdef"[v] || c == "0123456789ABCDEF"[v])
  {
  }

  lemma DigitsAre(c: char)
    ensures 0 <= HexValue(c) < 10 <==> c in "0123456789"
    ensures 0 <= HexValue(c) < 16 <==> c in "0123456789abcdefABCDEF"
  {
  }

  lemma NotAllDigits(s: string, base: nat)
    requires base == 10 || base == 16
    ensures AllDigits(s, base) <==>
            forall k :: 0 <= k < |s| ==> s[k] in (if base == 10 then "0123456789" else "0123456789abcdefABCDEF")
  {
    hide HexValue;
    forall k | 0 <= k < |s|
      ensures 0 <= HexValue(s[k]) < base <==>
              s[k] in (if base == 10 then "0123456789" else "0123456789abcdefABCDEF")
    {
      DigitsAre(s[k]);
    }
  }

  /** Exactly the empty text and the texts with a character that is not a digit are refused; 0x alone
      is not, and reads as zero. */
  lemma ParseFailsIff(s: string)
    ensures ParseNumber(s) == -1 <==>
            s == "" || if "0x" <= s then exists k :: 2 <= k < |s| && s[k] !in "0123456789abcdefABCDEF"
                       else exists k :: 0 <= k < |s| && s[k] !in "0123456789"
    ensures ParseNumber("0x") == 0
  {
    hide AllDigits;
    if "0x" <= s {
      NotAllDigits(s[2..], 16);
      assert forall k :: 2 <= k < |s| ==> s[k] == s[2..][k - 2];
    } else {
      NotAllDigits(s, 10);
    }
    NotAllDigits("0x"[2..], 16);
  }

  /** Leading zeros do not change the value, so every text of digits has the value of a canonical one. */
  lemma {:induction false} LeadingZero(s: string, base: nat)
    requires AllDigits(s, base) && base >= 1
    ensures AllDigits(['0'] + s, base) && Value(['0'] + s, base) == Value(s, base)
  {
    var t := ['0'] + s;
    if s == "" {
      assert t[..0] == "";
    } else {
      LeadingZero(s[..|s| - 1], base);
      assert t[..|t| - 1] == ['0'] + s[..|s| - 1];
    }
  }
}
