/** How JSON spells strings: control characters, quotes and backslashes are escaped. */
module Json {
  import opened Framing
  import opened Names
  import opened Artifact

  const QUOTE: Byte := 34
  const BACKSLASH: Byte := 92

  /** The letter of a two-byte escape, if the byte has one. */
  function ShortEscape(b: Byte): Option<Byte> {
    if b == 8 then Some(98)          // b
    else if b == 9 then Some(116)    // t
    else if b == 10 then Some(110)   // n
    else if b == 12 then Some(102)   // f
    else if b == 13 then Some(114)   // r
    else if b == QUOTE || b == BACKSLASH then Some(b)
    else None
  }

  function EscapedByte(b: Byte): (text: Bytes)
    ensures |text| == (if b in {8, 9, 10, 12, 13, 34, 92} then 2 else if b <= 31 then 6 else 1) && text[0] != QUOTE
  {
    if ShortEscape(b).Some? then [BACKSLASH, ShortEscape(b).value]
    else if b < 32 then [BACKSLASH, 117, 48, 48, 48 + b / 16, HexDigit(b % 16) as int]
    else [b]
  }

  /** The inside of a JSON string. */
  function Escaped(bytes: Bytes): (text: Bytes)
    ensures |bytes| <= |text| <= 6 * |bytes|
  {
    if bytes == [] then [] else EscapedByte(bytes[0]) + Escaped(bytes[1..])
  }

  function Quoted(bytes: Bytes): Bytes {
    Escaped(bytes) + [QUOTE]
  }

  lemma EscapedByteCancels(a: Byte, x: Bytes, b: Byte, y: Bytes)
    requires EscapedByte(a) + x == EscapedByte(b) + y
    ensures a == b && x == y
  {
    var s, t := EscapedByte(a) + x, EscapedByte(b) + y;
    assert s[0] == t[0];
    if |EscapedByte(a)| > 1 && |EscapedByte(b)| > 1 {
      assert s[1] == t[1];
      if |EscapedByte(a)| > 2 {
        assert s[4] == t[4] && s[5] == t[5];
        HexDigitInjective(a % 16, b % 16);
      }
    }
    assert s[|EscapedByte(a)|..] == x && t[|EscapedByte(b)|..] == y;
  }

  lemma HexDigitInjective(m: nat, n: nat)
    requires m < 16 && n < 16
    ensures HexDigit(m) == HexDigit(n) ==> m == n
  {
  }

  lemma QuotedStep(a: Bytes, x: Bytes)
    requires a != []
    ensures Quoted(a) + x == EscapedByte(a[0]) + (Quoted(a[1..]) + x)
  {
    Associates(EscapedByte(a[0]), Escaped(a[1..]), [QUOTE]);
    Associates(EscapedByte(a[0]), Quoted(a[1..]), x);
  }

  /** A quoted string ends where its first bare quote is. */
  lemma {:induction false} QuotedCancels(a: Bytes, x: Bytes, b: Bytes, y: Bytes)
    requires Quoted(a) + x == Quoted(b) + y
    ensures a == b && x == y
  {
    var s, t := Quoted(a) + x, Quoted(b) + y;
    assert s[0] == t[0];
    if a != [] && b != [] {
      QuotedStep(a, x);
      QuotedStep(b, y);
      EscapedByteCancels(a[0], Quoted(a[1..]) + x, b[0], Quoted(b[1..]) + y);
      QuotedCancels(a[1..], x, b[1..], y);
      assert a == [a[0]] + a[1..] && b == [b[0]] + b[1..];
    } else {
      assert s[1..] == t[1..];
      assert a == [] ==> s[1..] == x;
      assert b == [] ==> t[1..] == y;
    }
  }

  lemma Associates(a: Bytes, b: Bytes, c: Bytes)
    ensures a + (b + c) == (a + b) + c
  {
  }

  lemma {:induction false} EscapedAppends(a: Bytes, b: Bytes)
    ensures Escaped(a + b) == Escaped(a) + Escaped(b)
  {
    if a == [] {
      assert a + b == b;
    } else {
      var whole := a + b;
      assert whole[0] == a[0] && whole[1..] == a[1..] + b;
      EscapedAppends(a[1..], b);
      Associates(EscapedByte(a[0]), Escaped(a[1..]), Escaped(b));
    }
  }

  // ---------- paths ----------

  /** Every segment after a slash. */
  function Slashed(t: Trail): Bytes {
    if t == [] then [] else [SLASH] + t[0] + Slashed(t[1..])
  }

  lemma {:induction false} SlashedInjective(a: Trail, b: Trail)
    requires Slashed(a) == Slashed(b) && Segments(a) && Segments(b)
    ensures a == b
  {
    if a != [] && b != [] {
      var x, y := a[0] + Slashed(a[1..]), b[0] + Slashed(b[1..]);
      assert Slashed(a)[1..] == x && Slashed(b)[1..] == y;
      SegmentCancels(a[0], Slashed(a[1..]), b[0], Slashed(b[1..]));
      SlashedInjective(a[1..], b[1..]);
      assert a == [a[0]] + a[1..] && b == [b[0]] + b[1..];
    }
  }

  predicate Segments(t: Trail) {
    forall i :: 0 <= i < |t| ==> t[i] != [] && SLASH !in t[i]
  }

  lemma SegmentCancels(a: Bytes, x: Bytes, b: Bytes, y: Bytes)
    requires a + x == b + y && SLASH !in a && SLASH !in b
    requires (x == [] || x[0] == SLASH) && (y == [] || y[0] == SLASH)
    ensures a == b && x == y
  {
    var s, t := a + x, b + y;
    assert a == s[..|a|] && b == t[..|b|] && x == s[|a|..] && y == t[|b|..];
  }

  /** The text of an absolute path. */
  function PathText(t: Trail): Bytes {
    if t == [] then [SLASH] else Slashed(t)
  }

  lemma PathTextInjective(a: Trail, b: Trail)
    requires PathText(a) == PathText(b) && Segments(a) && Segments(b)
    ensures a == b
  {
    assert a != [] ==> |Slashed(a)| >= 2;
    assert b != [] ==> |Slashed(b)| >= 2;
    if a != [] && b != [] {
      SlashedInjective(a, b);
    }
  }
}
