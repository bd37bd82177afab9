/** `UrlEncode` (main.cpp:51-65): percent-encoding as in section 2.1 of
    RFC 3986. The bytes of the unreserved set of section 2.3 (ALPHA, DIGIT,
    `-`, `.`, `_`, `~`) pass through; every other byte becomes `%` and two
    upper-case hexadecimal digits. A decoder is given as the encoder's
    partner, and the encoder is shown to be a bijection onto its canonical
    outputs. */
module UrlEncoding {
  import opened Wrappers

  predicate IsUnreserved(c: Byte) {
    ('a' <= c <= 'z') || ('A' <= c <= 'Z') || ('0' <= c <= '9') ||
    c == '-' || c == '_' || c == '.' || c == '~'
  }

  /** Entry `n` of the table "0123456789ABCDEF". */
  function HexDigit(n: nat): Byte
    requires n < 16
  {
    if n < 10 then ('0' as int + n) as char else ('A' as int + n - 10) as char
  }

  predicate IsUpperHex(c: Byte) {
    ('0' <= c <= '9') || ('A' <= c <= 'F')
  }

  /** Value of a hexadecimal digit; section 2.1 of RFC 3986 makes upper- and
      lower-case digits equivalent. */
  function HexValue(c: Byte): Option<nat> {
    if '0' <= c <= '9' then Some(c as int - '0' as int)
    else if 'A' <= c <= 'F' then Some(c as int - 'A' as int + 10)
    else if 'a' <= c <= 'f' then Some(c as int - 'a' as int + 10)
    else None
  }

  lemma HexDigitValue(n: nat)
    requires n < 16
    ensures IsUpperHex(HexDigit(n)) && HexValue(HexDigit(n)) == Some(n)
  {
  }

  /** Number of output bytes one input byte turns into. */
  function Width(c: Byte): nat {
    if IsUnreserved(c) then 1 else 3
  }

  /** The encoding of one byte: itself when unreserved, otherwise a
      percent-triplet whose two upper-case digits spell the byte's value. */
  function EncodeByte(c: Byte): (e: Bytes)
    ensures |e| == Width(c)
    ensures IsUnreserved(c) ==> e == [c]
    ensures !IsUnreserved(c) ==>
      && e[0] == '%' && IsUpperHex(e[1]) && IsUpperHex(e[2])
      && HexValue(e[1]).Some? && HexValue(e[2]).Some?
      && HexValue(e[1]).value * 16 + HexValue(e[2]).value == c as int
  {
    if IsUnreserved(c) then [c]
    else
      HexDigitValue(c as int / 16);
      HexDigitValue(c as int % 16);
      ['%', HexDigit(c as int / 16), HexDigit(c as int % 16)]
  }

  function Encode(s: Bytes): Bytes {
    if s == [] then [] else EncodeByte(s[0]) + Encode(s[1..])
  }

  /** Sum over the input of 1 per unreserved byte and 3 per other byte. */
  function EncodedLength(s: Bytes): nat {
    if s == [] then 0 else Width(s[0]) + EncodedLength(s[1..])
  }

  /** Percent-decoding: unreserved bytes stand for themselves, `%HH` for the
      byte with hexadecimal value HH; anything else is rejected. */
  function Decode(e: Bytes): (r: Option<Bytes>)
    decreases |e|
  {
    if e == [] then Some([])
    else if e[0] == '%' then
      if |e| < 3 || HexValue(e[1]).None? || HexValue(e[2]).None? then None
      else
        var b := (HexValue(e[1]).value * 16 + HexValue(e[2]).value) as char;
        match Decode(e[3..])
        case Some(rest) => Some([b] + rest)
        case None => None
    else if IsUnreserved(e[0]) then
      match Decode(e[1..])
      case Some(rest) => Some([e[0]] + rest)
      case None => None
    else None
  }

  /** The C++ loop: push the byte, or `%` and the two table digits
      `kHex[c >> 4]` and `kHex[c & 0x0F]`. */
  method UrlEncode(plain: Bytes) returns (encoded: Bytes)
    ensures encoded == Encode(plain)
    ensures |encoded| == EncodedLength(plain)
    ensures Decode(encoded) == Some(plain)
  {
    encoded := [];
    var i := 0;
    while i < |plain|
      invariant 0 <= i <= |plain|
      invariant encoded == Encode(plain[..i])
    {
      var c := plain[i];
      if IsUnreserved(c) {
        encoded := encoded + [c];
      } else {
        encoded := encoded + ['%', HexDigit(c as int / 16), HexDigit(c as int % 16)];
      }
      EncodeAppend(plain[..i], [c]);
      assert plain[..i + 1] == plain[..i] + [c];
      i := i + 1;
    }
    assert plain[..|plain|] == plain;
    EncodeLength(plain);
    DecodeEncode(plain);
  }

  /** Encoding works byte by byte: it distributes over concatenation. */
  lemma {:induction false} EncodeAppend(a: Bytes, b: Bytes)
    ensures Encode(a + b) == Encode(a) + Encode(b)
  {
    if a == [] {
      assert a + b == b;
    } else {
      assert (a + b)[0] == a[0] && (a + b)[1..] == a[1..] + b;
      EncodeAppend(a[1..], b);
    }
  }

  lemma {:induction false} EncodeLength(s: Bytes)
    ensures |Encode(s)| == EncodedLength(s)
  {
    if s != [] {
      EncodeLength(s[1..]);
    }
  }

  /** Where the encoding of byte `i` starts in the output. */
  function Offset(s: Bytes, i: nat): nat
    requires i <= |s|
  {
    EncodedLength(s[..i])
  }

  /** Byte `i` of the input appears, encoded on its own, at its offset in
      the output: unreserved bytes as themselves, others as `%HH`. */
  lemma EncodePosition(s: Bytes, i: nat)
    requires i < |s|
    ensures Offset(s, i) + Width(s[i]) <= |Encode(s)|
    ensures Encode(s)[Offset(s, i)..Offset(s, i) + Width(s[i])] == EncodeByte(s[i])
  {
    assert s == s[..i] + [s[i]] + s[i + 1..];
    EncodeAppend(s[..i] + [s[i]], s[i + 1..]);
    EncodeAppend(s[..i], [s[i]]);
    assert Encode([s[i]]) == EncodeByte(s[i]) by {
      assert [s[i]][1..] == [];
    }
    EncodeLength(s[..i]);
  }

  /** Decoding undoes encoding. */
  lemma {:induction false} DecodeEncode(s: Bytes)
    ensures Decode(Encode(s)) == Some(s)
  {
    if s != [] {
      var e := Encode(s);
      var c := s[0];
      DecodeEncode(s[1..]);
      if IsUnreserved(c) {
        assert e[0] == c && e[1..] == Encode(s[1..]);
        assert ([c] + s[1..]) == s;
      } else {
        assert e[..3] == EncodeByte(c) && e[3..] == Encode(s[1..]);
        assert ([c] + s[1..]) == s;
      }
    }
  }

  /** Encoding never maps two inputs to the same query text. */
  lemma EncodeInjective(a: Bytes, b: Bytes)
    requires Encode(a) == Encode(b)
    ensures a == b
  {
    DecodeEncode(a);
    DecodeEncode(b);
  }

  /** The texts the encoder can produce: unreserved bytes, and `%HH` with
      upper-case digits only for bytes outside the unreserved set. */
  predicate Canonical(e: Bytes)
    decreases |e|
  {
    if e == [] then true
    else if e[0] == '%' then
      && |e| >= 3 && IsUpperHex(e[1]) && IsUpperHex(e[2])
      && !IsUnreserved((HexValue(e[1]).value * 16 + HexValue(e[2]).value) as char)
      && Canonical(e[3..])
    else IsUnreserved(e[0]) && Canonical(e[1..])
  }

  lemma {:induction false} EncodeIsCanonical(s: Bytes)
    ensures Canonical(Encode(s))
  {
    if s != [] {
      var e := Encode(s);
      EncodeIsCanonical(s[1..]);
      if IsUnreserved(s[0]) {
        assert e[1..] == Encode(s[1..]);
      } else {
        assert e[3..] == Encode(s[1..]);
      }
    }
  }

  /** A canonical `%HH` triplet is the encoding of the byte it names. */
  lemma CanonicalTriplet(e: Bytes)
    requires |e| >= 3 && e[0] == '%' && IsUpperHex(e[1]) && IsUpperHex(e[2])
    requires !IsUnreserved((HexValue(e[1]).value * 16 + HexValue(e[2]).value) as char)
    ensures EncodeByte((HexValue(e[1]).value * 16 + HexValue(e[2]).value) as char) == e[..3]
  {
    var c: Byte := (HexValue(e[1]).value * 16 + HexValue(e[2]).value) as char;
    HexDigitValue(c as int / 16);
    HexDigitValue(c as int % 16);
    UpperHexUnique(e[1], HexDigit(c as int / 16));
    UpperHexUnique(e[2], HexDigit(c as int % 16));
  }

  /** Every canonical text is the encoding of what it decodes to; with
      `DecodeEncode` and `EncodeIsCanonical` this makes `Encode` a bijection
      between byte strings and canonical texts. */
  lemma {:induction false} CanonicalIsEncoding(e: Bytes)
    requires Canonical(e)
    ensures Decode(e).Some? && Encode(Decode(e).value) == e
    decreases |e|
  {
    if e != [] {
      if e[0] == '%' {
        CanonicalIsEncoding(e[3..]);
        CanonicalTriplet(e);
        assert e == e[..3] + e[3..];
      } else {
        CanonicalIsEncoding(e[1..]);
        assert e == [e[0]] + e[1..];
      }
    }
  }

  lemma UpperHexUnique(x: Byte, y: Byte)
    requires IsUpperHex(x) && IsUpperHex(y) && HexValue(x) == HexValue(y)
    ensures x == y
  {
  }
}
