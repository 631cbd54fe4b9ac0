/** The referral-code codec: `encodeReferralCode` and `decodeReferralCode`
    (src/Api/referrals.js). A referral code is a short string stored on chain
    as a 32-byte value; the application handles that value as its hex text,
    "0x" followed by 64 hex digits. */
module ReferralCodes {
  import opened Wrappers
  import opened JsText
  import opened Bytes32

  datatype CodeError = CodeTooBig

  /** The longest code `encodeReferralCode` accepts. */
  const MAX_CODE_LENGTH: nat := 31

  /** The number of hex pairs the fallback decoder reads. */
  const FALLBACK_PAIRS: nat := 32

  /** `encodeReferralCode`: too long a code is refused before any bytes are
      built; otherwise the code's bytes, zero-padded to 32, as hex text. */
  function EncodeReferralCode(code: string): (r: Result<string, CodeError>)
    requires IsAscii(code)
    ensures r.Err? <==> |code| > MAX_CODE_LENGTH
    ensures r.Err? ==> r.error == CodeTooBig
    ensures r.Ok? ==> |r.value| == 66 && Arrayify(r.value) == Some(AsciiBytes(code) + Zeros(32 - |code|))
  {
    if |code| > MAX_CODE_LENGTH then Err(CodeTooBig) else Ok(FormatBytes32String(code))
  }

  /** The character the fallback decoder makes of the `i`-th pair of
      `digits`: `String.fromCharCode(parseInt(pair, 16))`. */
  function PairChar(digits: string, i: nat): char
  {
    FromCharCode(ParseIntHex(Substring(digits, 2 * i, 2 * i + 2)))
  }

  /** The 32 characters the fallback builds before trimming, one per pair of
      the text after its first two characters. */
  function FallbackChars(hexCode: string): (s: string)
    ensures |s| == FALLBACK_PAIRS
  {
    var digits := SubstringFrom(hexCode, 2);
    seq(FALLBACK_PAIRS, i requires 0 <= i < FALLBACK_PAIRS => PairChar(digits, i))
  }

  /** The fallback decoding: those 32 characters, trimmed at both ends. */
  function FallbackDecode(hexCode: string): (r: string)
    ensures |r| <= FALLBACK_PAIRS
  {
    Trim(FallbackChars(hexCode))
  }

  /** What `decodeReferralCode` returns: the `parseBytes32String` text when
      that succeeds, the fallback decoding otherwise. It never fails. */
  function DecodedReferralCode(hexCode: string): (r: string)
    ensures |r| <= FALLBACK_PAIRS
  {
    match ParseBytes32String(hexCode)
    case Some(text) => text
    case None => FallbackDecode(hexCode)
  }

  /** `decodeReferralCode`: `parseBytes32String`, and the fallback when it
      throws. */
  method DecodeReferralCode(hexCode: string) returns (code: string)
    ensures code == DecodedReferralCode(hexCode)
  {
    var primary := ParseBytes32String(hexCode);
    if primary.Some? {
      code := primary.value;
    } else {
      code := DecodeFallback(hexCode);
    }
  }

  /** The fallback: the 32 characters built by the loop, trimmed. */
  method DecodeFallback(hexCode: string) returns (code: string)
    ensures code == FallbackDecode(hexCode)
  {
    var chars := FallbackLoop(hexCode);
    code := Trim(chars);
  }

  /** The fallback's loop: one character per hex pair, appended 32 times. */
  method FallbackLoop(hexCode: string) returns (chars: string)
    ensures chars == FallbackChars(hexCode)
  {
    chars := "";
    var digits := SubstringFrom(hexCode, 2);
    for i := 0 to FALLBACK_PAIRS
      invariant chars == FallbackChars(hexCode)[..i]
    {
      chars := chars + [PairChar(digits, i)];
    }
    assert chars == FallbackChars(hexCode)[..FALLBACK_PAIRS];
  }

  /** The 32 bytes of well-formed hex text, each byte read as one character. */
  function ByteChars(data: seq<Byte>): (s: string)
    ensures |s| == |data| && forall k :: 0 <= k < |data| ==> s[k] as int == data[k]
  {
    seq(|data|, k requires 0 <= k < |data| => data[k] as char)
  }

  /** An ASCII code of at most 31 characters: the codes `EncodeReferralCode`
      is stated for and accepts. It may still hold NUL characters. */
  predicate IsEncodableCode(code: string) {
    IsAscii(code) && |code| <= MAX_CODE_LENGTH
  }

  lemma FirstZeroOfPadded(code: string)
    requires IsEncodableCode(code) && '\0' !in code
    ensures FirstZero(AsciiBytes(code) + Zeros(32 - |code|)) == |code|
  {
    var b := AsciiBytes(code) + Zeros(32 - |code|);
    forall k | 0 <= k < |code| ensures b[k] != 0 {
      assert code[k] != '\0';
    }
    assert b[|code|] == 0;
  }

  /** Decoding undoes encoding, through the primary path, for every code
      without a NUL character; leading and trailing spaces are kept. */
  lemma EncodeDecodeRoundTrip(code: string)
    requires IsEncodableCode(code) && '\0' !in code
    ensures EncodeReferralCode(code).Ok?
    ensures ParseBytes32String(EncodeReferralCode(code).value) == Some(code)
    ensures DecodedReferralCode(EncodeReferralCode(code).value) == code
  {
    var h := EncodeReferralCode(code).value;
    var b := AsciiBytes(code) + Zeros(32 - |code|);
    assert PairBytes(h[2..]) == b;
    FirstZeroOfPadded(code);
    var r := ParseBytes32String(h);
    assert r.Some?;
    assert r.value == code;
  }

  /** A code that holds a NUL decodes to the part before its first NUL. */
  lemma EncodeDecodeStopsAtNul(code: string, k: nat)
    requires IsEncodableCode(code) && k < |code| && code[k] == '\0' && '\0' !in code[..k]
    ensures DecodedReferralCode(EncodeReferralCode(code).value) == code[..k]
  {
    var h := EncodeReferralCode(code).value;
    var b := AsciiBytes(code) + Zeros(32 - |code|);
    assert PairBytes(h[2..]) == b;
    forall j | 0 <= j < k ensures b[j] != 0 {
      assert code[j] == code[..k][j];
    }
    assert b[k] == 0;
    assert FirstZero(b) == k;
    var r := ParseBytes32String(h);
    assert r.Some?;
    assert r.value == code[..k];
  }

  /** On well-formed 32-byte hex text the fallback reads exactly the 32
      bytes, one character per byte. */
  lemma FallbackReadsBytes(hexCode: string)
    requires IsHexData(hexCode) && |hexCode| == 66
    ensures FallbackChars(hexCode) == ByteChars(PairBytes(hexCode[2..]))
  {
    var digits := hexCode[2..];
    var data := PairBytes(digits);
    forall i | 0 <= i < FALLBACK_PAIRS
      ensures FallbackChars(hexCode)[i] == ByteChars(data)[i]
    {
      PairCharOfHexDigits(digits, i);
      PairBytesAt(digits, i);
    }
  }

  lemma PairCharOfHexDigits(digits: string, i: nat)
    requires AllHexDigits(digits) && 2 * i + 2 <= |digits|
    ensures PairChar(digits, i) as int == 16 * HexDigitValue(digits[2 * i]) + HexDigitValue(digits[2 * i + 1])
  {
    var pair := Substring(digits, 2 * i, 2 * i + 2);
    SubstringPair(digits, 2 * i);
    ParseIntHexPair(pair);
  }

  /** Decoding well-formed 32-byte hex text: the NUL-terminated ASCII text
      when the last byte is zero and the text is ASCII, otherwise the 32
      bytes as characters with the whitespace at both ends trimmed. */
  lemma DecodeBytes32(hexCode: string)
    requires IsHexData(hexCode) && |hexCode| == 66
    ensures var data := PairBytes(hexCode[2..]);
            var n := FirstZero(data);
            DecodedReferralCode(hexCode) ==
              if data[31] == 0 && forall k :: 0 <= k < n ==> data[k] < 128
              then AsciiText(data[..n])
              else Trim(ByteChars(data))
  {
    FallbackReadsBytes(hexCode);
  }

  /** A 32-character code has no room for the terminating zero: written out
      as hex in full, it is refused by the primary path and the fallback
      returns it with the whitespace at both ends trimmed. */
  lemma FullLengthCodeUsesFallback(code: string)
    requires IsAscii(code) && |code| == FALLBACK_PAIRS && code[31] != '\0'
    ensures ParseBytes32String(Hexlify(AsciiBytes(code))).None?
    ensures DecodedReferralCode(Hexlify(AsciiBytes(code))) == Trim(code)
  {
    var data := AsciiBytes(code);
    var h := Hexlify(data);
    ArrayifyHexlify(data);
    assert h[2..] == HexDigitsOf(data);
    DecodeBytes32(h);
    assert ByteChars(data) == code;
  }

  /** NUL is not whitespace: a NUL read by the fallback survives the trim. */
  lemma FallbackKeepsNul(hexCode: string, k: nat)
    requires k < FALLBACK_PAIRS && FallbackChars(hexCode)[k] == '\0'
    ensures '\0' in FallbackDecode(hexCode)
  {
    TrimKeepsNul(FallbackChars(hexCode), k);
  }
}
