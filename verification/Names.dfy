/** On-disk names: zero-padded 64-bit numbers inside batch and generation names.

  Batch files and generation directories are found again only through their
  names, so the codecs here must be mutual inverses on everything they accept.
*/
module Names {
  import opened Framing

  const PADDED_DIGITS := 20

  predicate IsDigit(c: char) { '0' <= c <= '9' }

  predicate AllDigits(text: string) {
    forall i :: 0 <= i < |text| ==> IsDigit(text[i])
  }

  function Power10(width: nat): (p: nat)
    ensures p >= 1
  {
    if width == 0 then 1 else 10 * Power10(width - 1)
  }

  /** The decimal digits of `value`, zero-padded to `width`. */
  function Padded(value: nat, width: nat): (text: string)
    ensures |text| == width && AllDigits(text)
  {
    if width == 0 then "" else Padded(value / 10, width - 1) + [(value % 10) as char + '0']
  }

  /** The decimal digits of `value` without padding. */
  function Decimal(value: nat): (text: string)
    ensures text != "" && AllDigits(text)
  {
    (if value < 10 then "" else Decimal(value / 10)) + [(value % 10) as char + '0']
  }

  function Parsed(text: string): nat
    requires AllDigits(text)
  {
    if text == "" then 0
    else Parsed(text[..|text| - 1]) * 10 + (text[|text| - 1] - '0') as nat
  }

  lemma {:induction false} ParsedPadded(value: nat, width: nat)
    requires value < Power10(width)
    ensures Parsed(Padded(value, width)) == value
  {
    if width > 0 {
      var text := Padded(value, width);
      assert text[..width - 1] == Padded(value / 10, width - 1);
      ParsedPadded(value / 10, width - 1);
    }
  }

  lemma {:induction false} PaddedParsed(text: string)
    requires AllDigits(text)
    ensures Padded(Parsed(text), |text|) == text
  {
    if text != "" {
      var front := text[..|text| - 1];
      PaddedParsed(front);
      assert text == front + [text[|text| - 1]];
      assert Parsed(text) / 10 == Parsed(front);
    }
  }

  lemma SixtyFourBitsFitTwentyDigits()
    ensures TWO_TO_THE_64 <= Power10(PADDED_DIGITS)
  {
    assert Power10(2) == 100;
    assert Power10(4) == 10 * (10 * Power10(2)) == 10_000;
    assert Power10(6) == 10 * (10 * Power10(4)) == 1_000_000;
    assert Power10(8) == 10 * (10 * Power10(6)) == 100_000_000;
    assert Power10(10) == 10 * (10 * Power10(8)) == 10_000_000_000;
    assert Power10(12) == 10 * (10 * Power10(10)) == 1_000_000_000_000;
    assert Power10(14) == 10 * (10 * Power10(12)) == 100_000_000_000_000;
    assert Power10(16) == 10 * (10 * Power10(14)) == 10_000_000_000_000_000;
    assert Power10(18) == 10 * (10 * Power10(16)) == 1_000_000_000_000_000_000;
    assert Power10(20) == 10 * (10 * Power10(18));
  }

  /** Exactly twenty digits whose value fits 64 bits. */
  function ParseU64(text: string): Option<nat> {
    if |text| == PADDED_DIGITS && AllDigits(text) && Parsed(text) < TWO_TO_THE_64
    then Some(Parsed(text)) else None
  }

  lemma ParseU64Exact(text: string, value: nat)
    ensures ParseU64(text) == Some(value) <==> value < TWO_TO_THE_64 && text == Padded(value, PADDED_DIGITS)
  {
    if ParseU64(text) == Some(value) {
      PaddedParsed(text);
    }
    if value < TWO_TO_THE_64 && text == Padded(value, PADDED_DIGITS) {
      SixtyFourBitsFitTwentyDigits();
      ParsedPadded(value, PADDED_DIGITS);
    }
  }

  // ---------- journal batch names ----------

  function BatchName(start: nat, end: nat): string {
    Padded(start, PADDED_DIGITS) + "-" + Padded(end, PADDED_DIGITS) + ".json"
  }

  predicate HasSuffix(text: string, suffix: string) {
    |suffix| <= |text| && text[|text| - |suffix|..] == suffix
  }

  /** The index of the first `c`, or the length of the text. */
  function FirstIndex(text: string, c: char): (index: nat)
    ensures index <= |text|
    ensures index < |text| ==> text[index] == c
    ensures forall i :: 0 <= i < index ==> text[i] != c
  {
    if text == "" || text[0] == c then 0 else 1 + FirstIndex(text[1..], c)
  }

  function ParseBatchName(name: string): Option<(nat, nat)> {
    if !HasSuffix(name, ".json") then None
    else
      var stem := name[..|name| - 5];
      var dash := FirstIndex(stem, '-');
      if dash == |stem| then None
      else
        match (ParseU64(stem[..dash]), ParseU64(stem[dash + 1..]))
        case (Some(start), Some(end)) => Some((start, end))
        case _ => None
  }

  /** Batch names and 64-bit ranges are mutual inverses. */
  lemma BatchNameExact(name: string, start: nat, end: nat)
    ensures ParseBatchName(name) == Some((start, end))
       <==> start < TWO_TO_THE_64 && end < TWO_TO_THE_64 && name == BatchName(start, end)
  {
    var left, right := Padded(start, PADDED_DIGITS), Padded(end, PADDED_DIGITS);
    if ParseBatchName(name) == Some((start, end)) {
      var stem := name[..|name| - 5];
      var dash := FirstIndex(stem, '-');
      ParseU64Exact(stem[..dash], start);
      ParseU64Exact(stem[dash + 1..], end);
      assert stem == stem[..dash] + ['-'] + stem[dash + 1..];
      assert name == stem + ".json";
    }
    if start < TWO_TO_THE_64 && end < TWO_TO_THE_64 && name == BatchName(start, end) {
      var stem := name[..|name| - 5];
      assert stem == left + "-" + right;
      assert forall i :: 0 <= i < PADDED_DIGITS ==> stem[i] == left[i];
      assert stem[PADDED_DIGITS] == '-';
      assert FirstIndex(stem, '-') == PADDED_DIGITS;
      assert stem[..PADDED_DIGITS] == left && stem[PADDED_DIGITS + 1..] == right;
      ParseU64Exact(left, start);
      ParseU64Exact(right, end);
    }
  }

  // ---------- lowercase hexadecimal ----------

  predicate IsLowerHex(c: char) { IsDigit(c) || 'a' <= c <= 'f' }

  /** Sixty-four lowercase hexadecimal characters. */
  predicate IsDigestName(name: string) {
    |name| == 2 * DIGEST_LENGTH && forall i :: 0 <= i < |name| ==> IsLowerHex(name[i])
  }

  function HexDigit(n: nat): (c: char)
    requires n < 16
    ensures IsLowerHex(c)
  {
    if n < 10 then n as char + '0' else (n - 10) as char + 'a'
  }

  function HexValue(c: char): (n: nat)
    requires IsLowerHex(c)
    ensures n < 16 && HexDigit(n) == c
  {
    if IsDigit(c) then (c - '0') as nat else (c - 'a') as nat + 10
  }

  function ToHex(bytes: Bytes): (text: string)
    ensures |text| == 2 * |bytes|
    ensures forall i :: 0 <= i < |text| ==> IsLowerHex(text[i])
  {
    if bytes == [] then "" else [HexDigit(bytes[0] / 16), HexDigit(bytes[0] % 16)] + ToHex(bytes[1..])
  }

  function FromHex(text: string): (bytes: Bytes)
    requires |text| % 2 == 0 && forall i :: 0 <= i < |text| ==> IsLowerHex(text[i])
    ensures |bytes| == |text| / 2
  {
    if text == "" then [] else [HexValue(text[0]) * 16 + HexValue(text[1])] + FromHex(text[2..])
  }

  lemma {:induction false} FromHexToHex(bytes: Bytes)
    ensures FromHex(ToHex(bytes)) == bytes
  {
    if bytes != [] {
      var text := ToHex(bytes);
      assert text[2..] == ToHex(bytes[1..]);
      assert text[0] == HexDigit(bytes[0] / 16) && text[1] == HexDigit(bytes[0] % 16);
      HexDigitInjective(HexValue(text[0]), bytes[0] / 16);
      HexDigitInjective(HexValue(text[1]), bytes[0] % 16);
      FromHexToHex(bytes[1..]);
      assert bytes == [bytes[0]] + bytes[1..];
    }
  }

  lemma {:induction false} ToHexFromHex(text: string)
    requires |text| % 2 == 0 && forall i :: 0 <= i < |text| ==> IsLowerHex(text[i])
    ensures ToHex(FromHex(text)) == text
  {
    if text != "" {
      var first, second := HexValue(text[0]), HexValue(text[1]);
      var bytes := FromHex(text);
      assert bytes[0] == first * 16 + second && bytes[1..] == FromHex(text[2..]);
      assert bytes[0] / 16 == first && bytes[0] % 16 == second;
      ToHexFromHex(text[2..]);
      assert text == [text[0], text[1]] + text[2..];
    }
  }

  /** Exactly the hexadecimal texts of digests are digest names. */
  lemma DigestNameExact(name: string)
    ensures IsDigestName(name) <==> exists d: Digest :: name == ToHex(d)
  {
    if IsDigestName(name) {
      ToHexFromHex(name);
      var d: Digest := FromHex(name);
      assert name == ToHex(d);
    }
  }

  lemma HexDigitInjective(a: nat, b: nat)
    requires a < 16 && b < 16 && HexDigit(a) == HexDigit(b)
    ensures a == b
  {
  }

  // ---------- generation names ----------

  const GENERATION_PREFIX := "generation-"
  const STAGE_PREFIX := ".stage-"

  function GenerationName(generation: nat): string {
    GENERATION_PREFIX + Padded(generation, PADDED_DIGITS)
  }

  function ParseGenerationName(name: string): Option<nat> {
    if GENERATION_PREFIX <= name then ParseU64(name[|GENERATION_PREFIX|..]) else None
  }

  predicate IsStageName(name: string) { STAGE_PREFIX <= name }

  lemma GenerationNameExact(name: string, generation: nat)
    ensures ParseGenerationName(name) == Some(generation)
       <==> generation < TWO_TO_THE_64 && name == GenerationName(generation)
    ensures ParseGenerationName(name).Some? ==> !IsStageName(name)
  {
    if GENERATION_PREFIX <= name {
      ParseU64Exact(name[|GENERATION_PREFIX|..], generation);
      assert name == GENERATION_PREFIX + name[|GENERATION_PREFIX|..];
      assert name[0] == 'g';
    }
    if name == GenerationName(generation) {
      assert GENERATION_PREFIX <= name;
      assert name[|GENERATION_PREFIX|..] == Padded(generation, PADDED_DIGITS);
    }
  }

  // ---------- text as bytes ----------

  predicate IsAscii(text: string) {
    forall i :: 0 <= i < |text| ==> text[i] as int < 128
  }

  lemma AsciiInjective(a: string, b: string)
    requires IsAscii(a) && IsAscii(b) && Ascii(a) == Ascii(b)
    ensures a == b
  {
    assert |a| == |b|;
    forall i | 0 <= i < |a| ensures a[i] == b[i] {
      assert Ascii(a)[i] == Ascii(b)[i];
    }
  }

  lemma {:induction false} DecimalParses(value: nat)
    ensures Parsed(Decimal(value)) == value
  {
    var text := Decimal(value);
    var front := text[..|text| - 1];
    if value < 10 {
      assert front == "" && Parsed(front) == 0;
    } else {
      assert front == Decimal(value / 10);
      DecimalParses(value / 10);
    }
  }

  lemma DigitsAreAscii(text: string)
    requires AllDigits(text) || forall i :: 0 <= i < |text| ==> IsLowerHex(text[i])
    ensures IsAscii(text)
  {
  }
}
