/** The symbol set of randomly generated object names (src/index.ts:15-16). */
module Alphabet {

  /** The three ranges the alphabet is made of. */
  const LOWER: string := "abcdefghijklmnopqrstuvwxyz"
  const UPPER: string := "ABCDEFGHIJKLMNOPQRSTUVWXYZ"
  const DIGITS: string := "0123456789"

  /** The 62-symbol alphabet, in the order the worker lists it. */
  const CHARS: string := "abcdefghijklmnopqrstuvwxyzABCDEFGHIJKLMNOPQRSTUVWXYZ0123456789"

  /** The alphabet after its lower-case range. */
  const UPPER_AND_DIGITS: string := "ABCDEFGHIJKLMNOPQRSTUVWXYZ0123456789"

  /** CHARS is the lower-case range followed by the rest. */
  lemma AlphabetHead()
    ensures CHARS == LOWER + UPPER_AND_DIGITS
  {
  }

  /** The rest is the upper-case range followed by the digits. */
  lemma AlphabetTail()
    ensures UPPER_AND_DIGITS == UPPER + DIGITS
  {
  }

  /** CHARS is the three ranges laid end to end. */
  lemma AlphabetParts()
    ensures CHARS == LOWER + UPPER + DIGITS
  {
    AlphabetHead();
    AlphabetTail();
    assert LOWER + UPPER + DIGITS == LOWER + (UPPER + DIGITS);
  }

  /** A position in CHARS: what one random draw selects. */
  type SymbolIndex = i: nat | i < 62

  /** The character class `[a-zA-Z0-9]`, stated by code-point ranges. */
  predicate IsAlphanumeric(c: char) {
    ('a' <= c <= 'z') || ('A' <= c <= 'Z') || ('0' <= c <= '9')
  }

  /** The position an alphanumeric character has in CHARS. */
  function IndexOfSymbol(c: char): SymbolIndex
    requires IsAlphanumeric(c)
  {
    if 'a' <= c <= 'z' then c as int - 'a' as int
    else if 'A' <= c <= 'Z' then 26 + (c as int - 'A' as int)
    else 52 + (c as int - '0' as int)
  }

  /** Distinct alphanumeric characters sit at distinct positions. */
  lemma IndexOfSymbolInjective(a: char, b: char)
    requires IsAlphanumeric(a) && IsAlphanumeric(b)
    requires IndexOfSymbol(a) == IndexOfSymbol(b)
    ensures a == b
  {
  }

  /** Positions 0-25 of the alphabet hold a-z in order. */
  lemma LowerRange(i: nat)
    requires i < 26
    ensures CHARS[i] == ('a' as int + i) as char
  {
    AlphabetParts();
    assert LOWER[i] == ('a' as int + i) as char;
  }

  /** Positions 26-51 of the alphabet hold A-Z in order. */
  lemma UpperRange(i: nat)
    requires 26 <= i < 52
    ensures CHARS[i] == ('A' as int + (i - 26)) as char
  {
    AlphabetParts();
    assert CHARS[i] == (LOWER + UPPER)[i] == UPPER[i - 26];
    assert UPPER[i - 26] == ('A' as int + (i - 26)) as char;
  }

  /** Positions 52-61 of the alphabet hold 0-9 in order. */
  lemma DigitRange(i: nat)
    requires 52 <= i < 62
    ensures CHARS[i] == ('0' as int + (i - 52)) as char
  {
    AlphabetParts();
    assert CHARS[i] == DIGITS[i - 52];
    assert DIGITS[i - 52] == ('0' as int + (i - 52)) as char;
  }

  /** CHARS is exactly the three ranges a-z, A-Z, 0-9 laid end to end, so
      position i holds the symbol whose IndexOfSymbol is i. */
  lemma AlphabetLayout()
    ensures |CHARS| == 62
    ensures forall i :: 0 <= i < 62 ==> IsAlphanumeric(CHARS[i]) && IndexOfSymbol(CHARS[i]) == i
  {
    forall i | 0 <= i < 62
      ensures IsAlphanumeric(CHARS[i]) && IndexOfSymbol(CHARS[i]) == i
    {
      if i < 26 {
        LowerRange(i);
      } else if i < 52 {
        UpperRange(i);
      } else {
        DigitRange(i);
      }
    }
  }

  /** The alphabet is the class `[a-zA-Z0-9]`, in both directions. */
  lemma AlphabetIsAlphanumeric(c: char)
    ensures c in CHARS <==> IsAlphanumeric(c)
  {
    AlphabetLayout();
    if IsAlphanumeric(c) {
      var i := IndexOfSymbol(c);
      IndexOfSymbolInjective(CHARS[i], c);
    }
  }
}
