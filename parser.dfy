/**
 * The label tokenizer of src/parser.rs: one DNS label is classified into a
 * `Token` by a fixed first-match cascade, and a `Parser` collects the tokens
 * of a name in the order its labels are fed to it.
 */
module Parser {
  import opened Wrappers

  newtype u8 = x: int | 0 <= x < 0x100
  newtype u16 = x: int | 0 <= x < 0x1_0000

  const U16_MAX: nat := 0xFFFF

  datatype Token =
    | Octet(octet: u8)
    | Filler
    | HexBlock(block: u16)
    | LocalModifier
    | Unknown

  function Pow(base: nat, exp: nat): nat
  {
    if exp == 0 then 1 else base * Pow(base, exp - 1)
  }

  // ---------------------------------------------------------------------------
  // The three patterns, as predicates on the label's characters.
  // ---------------------------------------------------------------------------

  /** The regex character class `[0-9]`. */
  predicate IsAsciiDigit(c: char)
  {
    '0' <= c <= '9'
  }

  /** The regex character class `[0-9a-fA-F]`. */
  predicate IsHexDigit(c: char)
  {
    IsAsciiDigit(c) || 'a' <= c <= 'f' || 'A' <= c <= 'F'
  }

  predicate IsDecimalString(s: string)
  {
    forall i | 0 <= i < |s| :: IsAsciiDigit(s[i])
  }

  predicate IsHexString(s: string)
  {
    forall i | 0 <= i < |s| :: IsHexDigit(s[i])
  }

  /** `^[0-9]{1,3}$` */
  predicate MatchesOctetPattern(lbl: string)
  {
    1 <= |lbl| <= 3 && IsDecimalString(lbl)
  }

  /** `^[0-9a-fA-F]{4}$` */
  predicate MatchesHexBlockPattern(lbl: string)
  {
    |lbl| == 4 && IsHexString(lbl)
  }

  /** `^x([0-9a-fA-F]{1,3})$`; the capture group is `lbl[1..]`. */
  predicate MatchesShortHexBlockPattern(lbl: string)
  {
    2 <= |lbl| <= 4 && lbl[0] == 'x' && IsHexString(lbl[1..])
  }

  // ---------------------------------------------------------------------------
  // Rust's integer parsing: `str::parse::<u16>()` is `u16::from_str_radix(s, 10)`.
  // ---------------------------------------------------------------------------

  /** `char::to_digit(radix)`: the value of `c` as a digit of `radix`, if it is one. */
  function ToDigit(c: char, radix: nat): (d: Option<nat>)
    requires 2 <= radix <= 36
    ensures d.Some? ==> d.value < radix
  {
    var v :=
      if '0' <= c <= '9' then c as int - '0' as int
      else if 'a' <= c <= 'z' then c as int - 'a' as int + 10
      else if 'A' <= c <= 'Z' then c as int - 'A' as int + 10
      else 36;
    if v < radix then Some(v) else None
  }

  predicate AllDigits(s: string, radix: nat)
    requires 2 <= radix <= 36
  {
    forall i | 0 <= i < |s| :: ToDigit(s[i], radix).Some?
  }

  /**
   * The loop of `from_str_radix`: `acc` is multiplied by the radix and the next
   * digit added, with checked arithmetic; a non-digit or an overflow of u16 is
   * an error.
   */
  function Accumulate(acc: nat, digits: string, radix: nat): (r: Option<nat>)
    requires 2 <= radix <= 36
    ensures r.Some? && digits != [] ==> r.value <= U16_MAX
    decreases |digits|
  {
    if digits == [] then Some(acc)
    else
      match ToDigit(digits[0], radix)
      case None => None
      case Some(d) =>
        if acc * radix + d > U16_MAX then None
        else Accumulate(acc * radix + d, digits[1..], radix)
  }

  /**
   * `u16::from_str_radix(s, radix)`: the empty string, a lone sign, a non-digit
   * and a value above 65535 are errors; one leading `+` is accepted.
   */
  function FromStrRadix(s: string, radix: nat): Option<u16>
    requires 2 <= radix <= 36
  {
    if s == [] then None
    else if |s| == 1 && (s[0] == '+' || s[0] == '-') then None
    else
      var digits := if s[0] == '+' then s[1..] else s;
      match Accumulate(0, digits, radix)
      case None => None
      case Some(v) => Some(v as u16)
  }

  // ---------------------------------------------------------------------------
  // The number a string of digits denotes (most significant digit first).
  // ---------------------------------------------------------------------------

  function DigitsValue(s: string, radix: nat): (v: nat)
    requires 2 <= radix <= 36
    requires AllDigits(s, radix)
    ensures v < Pow(radix, |s|)
    decreases |s|
  {
    if s == [] then 0
    else
      var rest := DigitsValue(s[..|s| - 1], radix);
      var d := ToDigit(s[|s| - 1], radix).value;
      AppendDigitBound(rest, d, radix, Pow(radix, |s| - 1));
      rest * radix + d
  }

  /** Appending a digit to a value below `bound` stays below `bound * radix`. */
  lemma AppendDigitBound(rest: nat, d: nat, radix: nat, bound: nat)
    requires rest < bound && d < radix
    ensures rest <= rest * radix + d < radix * bound
  {
    calc {
      rest * radix + d;
    <
      rest * radix + radix;
    ==
      (rest + 1) * radix;
    <= { assert rest + 1 <= bound; MulMonotone(rest + 1, bound, radix); }
      bound * radix;
    }
    MulMonotone(1, radix, rest);
  }

  lemma MulMonotone(a: nat, b: nat, c: nat)
    requires a <= b
    ensures a * c <= b * c
  {
  }

  /** The characters the regex classes accept are exactly the digits `to_digit` accepts. */
  lemma DigitClasses(c: char)
    ensures IsAsciiDigit(c) <==> ToDigit(c, 10).Some?
    ensures IsHexDigit(c) <==> ToDigit(c, 16).Some?
    ensures IsAsciiDigit(c) ==> ToDigit(c, 10) == ToDigit(c, 16)
  {
  }

  lemma DecimalStringDigits(s: string)
    requires IsDecimalString(s)
    ensures AllDigits(s, 10)
  {
    forall i | 0 <= i < |s| ensures ToDigit(s[i], 10).Some? {
      DigitClasses(s[i]);
    }
  }

  lemma HexStringDigits(s: string)
    requires IsHexString(s)
    ensures AllDigits(s, 16)
  {
    forall i | 0 <= i < |s| ensures ToDigit(s[i], 16).Some? {
      DigitClasses(s[i]);
    }
  }

  /** The value of a string of ASCII decimal digits, leading zeros allowed. */
  function DecimalValue(s: string): (v: nat)
    requires 1 <= |s| <= 3 && IsDecimalString(s)
    ensures v < 1000
  {
    DecimalStringDigits(s);
    assert Pow(10, |s|) <= 1000 by {
      assert Pow(10, 1) == 10 && Pow(10, 2) == 100 && Pow(10, 3) == 1000;
    }
    DigitsValue(s, 10)
  }

  /** The value of one to four hex digits of either case. */
  function HexValue(s: string): (v: u16)
    requires 1 <= |s| <= 4 && IsHexString(s)
    ensures v as int < Pow(16, |s|)
  {
    HexStringDigits(s);
    assert Pow(16, |s|) <= 0x1_0000 by {
      assert Pow(16, 1) == 0x10 && Pow(16, 2) == 0x100 && Pow(16, 3) == 0x1000 && Pow(16, 4) == 0x1_0000;
    }
    DigitsValue(s, 16) as u16
  }

  // ---------------------------------------------------------------------------
  // Parsing a digit string always yields its value when it fits in a u16.
  // ---------------------------------------------------------------------------

  lemma {:induction false} DigitsValuePrefix(p: string, s: string, radix: nat)
    requires 2 <= radix <= 36
    requires AllDigits(p + s, radix)
    ensures AllDigits(p, radix)
    ensures DigitsValue(p, radix) <= DigitsValue(p + s, radix)
    decreases |s|
  {
    if s == [] {
      assert p + s == p;
    } else {
      var t := p + s;
      assert t[..|t| - 1] == p + s[..|s| - 1];
      DigitsValuePrefix(p, s[..|s| - 1], radix);
      var d := ToDigit(t[|t| - 1], radix).value;
      AppendDigitBound(DigitsValue(t[..|t| - 1], radix), d, radix, Pow(radix, |t| - 1));
    }
  }

  /** Feeding the remaining digits `s` to the loop after the prefix `p` ends at the value of `p + s`. */
  lemma {:induction false} AccumulateComputesValue(p: string, s: string, radix: nat)
    requires 2 <= radix <= 36
    requires AllDigits(p, radix) && AllDigits(p + s, radix)
    requires DigitsValue(p + s, radix) <= U16_MAX
    ensures Accumulate(DigitsValue(p, radix), s, radix) == Some(DigitsValue(p + s, radix))
    decreases |s|
  {
    if s == [] {
      assert p + s == p;
    } else {
      var q := p + [s[0]];
      assert q + s[1..] == p + s;
      assert q[..|q| - 1] == p;
      assert ToDigit(s[0], radix) == ToDigit((p + s)[|p|], radix);
      DigitsValuePrefix(q, s[1..], radix);
      AccumulateComputesValue(q, s[1..], radix);
    }
  }

  lemma FromStrRadixOfDigits(s: string, radix: nat)
    requires 2 <= radix <= 36
    requires s != [] && AllDigits(s, radix)
    requires DigitsValue(s, radix) <= U16_MAX
    ensures FromStrRadix(s, radix) == Some(DigitsValue(s, radix) as u16)
  {
    assert ToDigit(s[0], radix).Some?;
    assert s[0] != '+' && s[0] != '-';
    assert [] + s == s;
    assert AllDigits([], radix) && DigitsValue([], radix) == 0;
    AccumulateComputesValue([], s, radix);
    assert Accumulate(0, s, radix) == Some(DigitsValue(s, radix));
  }

  /** `parse::<u16>()` never fails on a label `^[0-9]{1,3}$` accepts. */
  lemma DecimalParses(lbl: string)
    requires MatchesOctetPattern(lbl)
    ensures FromStrRadix(lbl, 10) == Some(DecimalValue(lbl) as u16)
  {
    DecimalStringDigits(lbl);
    FromStrRadixOfDigits(lbl, 10);
  }

  /** `from_str_radix(_, 16)` never fails on one to four hex digits. */
  lemma HexParses(s: string)
    requires 1 <= |s| <= 4 && IsHexString(s)
    ensures FromStrRadix(s, 16) == Some(HexValue(s))
  {
    HexStringDigits(s);
    FromStrRadixOfDigits(s, 16);
  }

  // ---------------------------------------------------------------------------
  // Classification of one label.
  // ---------------------------------------------------------------------------

  /** The octet rule: a `^[0-9]{1,3}$` label whose parsed value is at most 255. */
  function OctetRule(lbl: string): Token
  {
    if MatchesOctetPattern(lbl) then
      match FromStrRadix(lbl, 10)
      case Some(octet) => if octet > 255 then Unknown else Octet(octet as int as u8)
      case None => Unknown
    else Unknown
  }

  /** The hex block rule: exactly four hex digits, parsed base 16. */
  function HexBlockRule(lbl: string): Token
  {
    if MatchesHexBlockPattern(lbl) then
      match FromStrRadix(lbl, 16)
      case Some(block) => HexBlock(block)
      case None => Unknown
    else Unknown
  }

  /** The short hex block rule: `x` and one to three hex digits, the digits parsed base 16. */
  function ShortHexBlockRule(lbl: string): Token
  {
    if MatchesShortHexBlockPattern(lbl) then
      match FromStrRadix(lbl[1..], 16)
      case Some(block) => HexBlock(block)
      case None => Unknown
    else Unknown
  }

  /**
   * The cascade of `add_token_from_label`: the literal labels first, then each
   * numeric rule in turn while the token is still `Unknown`.
   */
  function Classify(lbl: string): Token
  {
    var literal := if lbl == "_" then Filler else if lbl == "local" then LocalModifier else Unknown;
    var afterOctet := if literal == Unknown then OctetRule(lbl) else literal;
    var afterHexBlock := if afterOctet == Unknown then HexBlockRule(lbl) else afterOctet;
    if afterHexBlock == Unknown then ShortHexBlockRule(lbl) else afterHexBlock
  }

  /**
   * The classification stated by its rules and the numbers the labels denote,
   * without the parsing steps and their error fallbacks.
   */
  function RuleToken(lbl: string): Token
  {
    if lbl == "_" then Filler
    else if lbl == "local" then LocalModifier
    else if MatchesOctetPattern(lbl) && DecimalValue(lbl) <= 255 then Octet(DecimalValue(lbl) as u8)
    else if MatchesHexBlockPattern(lbl) then HexBlock(HexValue(lbl))
    else if MatchesShortHexBlockPattern(lbl) then HexBlock(HexValue(lbl[1..]))
    else Unknown
  }

  /** The parse fallbacks are unreachable: the cascade is exactly its rules. */
  lemma ClassifyMatchesRules(lbl: string)
    ensures Classify(lbl) == RuleToken(lbl)
  {
    if MatchesOctetPattern(lbl) {
      DecimalParses(lbl);
    }
    if MatchesHexBlockPattern(lbl) {
      HexParses(lbl);
    }
    if MatchesShortHexBlockPattern(lbl) {
      HexParses(lbl[1..]);
    }
  }

  /** `_` and `local` are matched exactly and case-sensitively, before any numeric rule. */
  lemma ClassifyLiterals(lbl: string)
    ensures Classify(lbl) == Filler <==> lbl == "_"
    ensures Classify(lbl) == LocalModifier <==> lbl == "local"
  {
  }

  /** An octet comes exactly from one to three decimal digits denoting at most 255. */
  lemma ClassifyOctet(lbl: string)
    ensures Classify(lbl).Octet? <==> MatchesOctetPattern(lbl) && DecimalValue(lbl) <= 255
    ensures Classify(lbl).Octet? ==> Classify(lbl).octet as int == DecimalValue(lbl)
  {
    ClassifyMatchesRules(lbl);
  }

  /** One to three decimal digits above 255 match no later rule either. */
  lemma ClassifyLargeDecimal(lbl: string)
    requires MatchesOctetPattern(lbl) && DecimalValue(lbl) > 255
    ensures Classify(lbl) == Unknown
  {
    ClassifyMatchesRules(lbl);
  }

  /** Four hex digits of either case, all-decimal ones included, are a hex block of their base-16 value. */
  lemma ClassifyHexBlock(lbl: string)
    requires MatchesHexBlockPattern(lbl)
    ensures Classify(lbl) == HexBlock(HexValue(lbl))
  {
    ClassifyMatchesRules(lbl);
  }

  /** `x` and one to three hex digits are a hex block below 0x1000. */
  lemma ClassifyShortHexBlock(lbl: string)
    requires MatchesShortHexBlockPattern(lbl)
    ensures Classify(lbl) == HexBlock(HexValue(lbl[1..]))
    ensures Classify(lbl).block < 0x1000
  {
    ClassifyMatchesRules(lbl);
    var v := HexValue(lbl[1..]);
    assert Pow(16, |lbl| - 1) <= 0x1000 by {
      assert Pow(16, 1) == 0x10 && Pow(16, 2) == 0x100 && Pow(16, 3) == 0x1000;
    }
  }

  /** A hex block comes only from the two hex rules. */
  lemma ClassifyHexBlockSource(lbl: string)
    ensures Classify(lbl).HexBlock? <==> MatchesHexBlockPattern(lbl) || MatchesShortHexBlockPattern(lbl)
  {
    ClassifyMatchesRules(lbl);
  }

  /** A capital `X` prefix, or more than three digits after `x`, is no short hex block. */
  lemma ClassifyRejectsOtherPrefixes(lbl: string)
    requires |lbl| >= 1 && (lbl[0] == 'X' || (lbl[0] == 'x' && |lbl| > 4))
    ensures Classify(lbl) == Unknown
  {
    ClassifyMatchesRules(lbl);
  }

  /** Leading zeros are allowed; 256 and above fall through every rule. */
  lemma ClassifyDecimalExamples()
    ensures Classify("007") == Octet(7)
    ensures Classify("255") == Octet(255)
    ensures Classify("256") == Unknown && Classify("999") == Unknown
  {
  }

  /** Four digits are a hex block, even when all of them are decimal. */
  lemma ClassifyHexExamples()
    ensures Classify("1234") == HexBlock(0x1234)
    ensures Classify("beef") == HexBlock(0xBEEF)
  {
  }

  /** Hex digits may be capitals; the literal labels and the `x` prefix may not. */
  lemma ClassifyCaseExamples()
    ensures Classify("BEEF") == HexBlock(0xBEEF)
    ensures Classify("LOCAL") == Unknown && Classify("Xfff") == Unknown
  {
  }

  /** `x` takes one to three digits, not four. */
  lemma ClassifyShortHexExamples()
    ensures Classify("xfff") == HexBlock(0xFFF)
    ensures Classify("x1234") == Unknown
  {
  }

  // ---------------------------------------------------------------------------
  // The parser object.
  // ---------------------------------------------------------------------------

  /** The tokens of a sequence of labels, one per label, in order. */
  function Tokenize(labels: seq<string>): (ts: seq<Token>)
    ensures |ts| == |labels|
    ensures forall i | 0 <= i < |labels| :: ts[i] == Classify(labels[i])
  {
    if labels == [] then [] else [Classify(labels[0])] + Tokenize(labels[1..])
  }

  /** The first labels of a typical query name, one by one. */
  lemma ClassifyExampleHeadLabels()
    ensures Classify("2001") == HexBlock(0x2001) && Classify("0db8") == HexBlock(0x0DB8)
  {
  }

  /** The last labels of the same name: a hex block, then the zone's labels. */
  lemma ClassifyExampleTailLabels()
    ensures Classify("0001") == HexBlock(0x0001)
    ensures Classify("octet") == Unknown && Classify("zone") == Unknown
  {
  }

  /** The address labels of a typical query name are all recognised; the zone's labels are not. */
  lemma TokenizeExampleName()
    ensures Tokenize(["2001", "0db8", "_", "0001", "octet", "zone"])
      == [HexBlock(0x2001), HexBlock(0x0DB8), Filler, HexBlock(0x0001), Unknown, Unknown]
  {
    ClassifyExampleHeadLabels();
    ClassifyExampleTailLabels();
  }

  /** Tokenizing a concatenation tokenizes each part. */
  lemma TokenizeAppend(a: seq<string>, b: seq<string>)
    ensures Tokenize(a + b) == Tokenize(a) + Tokenize(b)
  {
  }

  class Parser {
    var tokens: seq<Token>

    /** `Parser::new`: no tokens yet (the three patterns are the predicates above). */
    constructor ()
      ensures tokens == []
    {
      tokens := [];
    }

    /** `add_token_from_label`: exactly one token, the label's classification, is appended. */
    method AddTokenFromLabel(lbl: string)
      modifies this
      ensures tokens == old(tokens) + [Classify(lbl)]
      ensures |tokens| == |old(tokens)| + 1 && tokens[..|old(tokens)|] == old(tokens)
    {
      var token := Classify(lbl);
      tokens := tokens + [token];
    }
  }
}
