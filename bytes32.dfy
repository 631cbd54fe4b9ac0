/** The ethers.js helpers that the referral codec calls: `hexlify`,
    `arrayify`, `formatBytes32String` and `parseBytes32String`. ethers itself
    is not part of this model; these functions state the behaviour the codec
    relies on, for text made of ASCII characters (one byte per character). */
module Bytes32 {
  import opened Wrappers
  import opened JsText

  type Byte = b: int | 0 <= b < 256

  const HEX_CHARS: string := "0123456789abcdef"

  predicate IsAscii(s: string) {
    forall k :: 0 <= k < |s| ==> s[k] as int < 128
  }

  /** The bytes of an ASCII string (its UTF-8 encoding). */
  function AsciiBytes(s: string): (b: seq<Byte>)
    requires IsAscii(s)
    ensures |b| == |s| && forall k :: 0 <= k < |s| ==> b[k] == s[k] as int
  {
    seq(|s|, k requires 0 <= k < |s| => s[k] as int)
  }

  /** The text of bytes that are all below 0x80 (their UTF-8 decoding). */
  function AsciiText(b: seq<Byte>): (s: string)
    requires forall k :: 0 <= k < |b| ==> b[k] < 128
    ensures |s| == |b| && IsAscii(s) && forall k :: 0 <= k < |b| ==> s[k] as int == b[k]
  {
    seq(|b|, k requires 0 <= k < |b| => b[k] as char)
  }

  function Zeros(n: nat): (z: seq<Byte>)
    ensures |z| == n && forall k :: 0 <= k < n ==> z[k] == 0
  {
    seq(n, _ => 0)
  }

  /** The two lower-case hex digits of a byte, most significant first. */
  function ByteHex(b: Byte): (pair: string)
    ensures |pair| == 2 && IsHexDigit(pair[0]) && IsHexDigit(pair[1])
    ensures 16 * HexDigitValue(pair[0]) + HexDigitValue(pair[1]) == b
  {
    HexCharValue(b / 16);
    HexCharValue(b % 16);
    [HEX_CHARS[b / 16], HEX_CHARS[b % 16]]
  }

  /** Two hex digits per byte. */
  function HexDigitsOf(bytes: seq<Byte>): (h: string)
    ensures |h| == 2 * |bytes| && AllHexDigits(h)
  {
    if bytes == [] then [] else ByteHex(bytes[0]) + HexDigitsOf(bytes[1..])
  }

  /** `ethers.utils.hexlify` of a byte array: "0x" and the hex digits. */
  function Hexlify(bytes: seq<Byte>): (h: string)
    ensures |h| == 2 + 2 * |bytes| && h[..2] == "0x" && AllHexDigits(h[2..])
  {
    "0x" + HexDigitsOf(bytes)
  }

  /** The bytes written by an even number of hex digits, one per pair. */
  function PairBytes(h: string): (b: seq<Byte>)
    requires AllHexDigits(h) && |h| % 2 == 0
    ensures 2 * |b| == |h|
    decreases |h|
  {
    if h == [] then []
    else [16 * HexDigitValue(h[0]) + HexDigitValue(h[1])] + PairBytes(h[2..])
  }

  /** `h` is the text form that `arrayify` accepts: "0x" followed by an even
      number of hex digits of either case. */
  predicate IsHexData(h: string) {
    |h| >= 2 && h[0] == '0' && h[1] == 'x' && AllHexDigits(h[2..]) && |h| % 2 == 0
  }

  /** `ethers.utils.arrayify` applied to a string; None where it throws. */
  function Arrayify(h: string): (r: Option<seq<Byte>>)
    ensures r.Some? <==> IsHexData(h)
    ensures r.Some? ==> 2 + 2 * |r.value| == |h|
  {
    if IsHexData(h) then Some(PairBytes(h[2..])) else None
  }

  /** Byte `k` of hex data is the one its `k`-th pair of digits writes. */
  lemma {:induction false} PairBytesAt(h: string, k: nat)
    requires AllHexDigits(h) && |h| % 2 == 0 && k < |h| / 2
    ensures PairBytes(h)[k] == 16 * HexDigitValue(h[2 * k]) + HexDigitValue(h[2 * k + 1])
    decreases k
  {
    if k > 0 {
      PairBytesAt(h[2..], k - 1);
    }
  }

  lemma HexCharValue(n: nat)
    requires n < 16
    ensures IsHexDigit(HEX_CHARS[n]) && HexDigitValue(HEX_CHARS[n]) == n
  {
  }

  /** `arrayify` undoes `hexlify`. */
  lemma {:induction false} ArrayifyHexlify(bytes: seq<Byte>)
    ensures Arrayify(Hexlify(bytes)) == Some(bytes)
  {
    HexDigitsRoundTrip(bytes);
    assert Hexlify(bytes)[2..] == HexDigitsOf(bytes);
  }

  lemma {:induction false} HexDigitsRoundTrip(bytes: seq<Byte>)
    ensures PairBytes(HexDigitsOf(bytes)) == bytes
  {
    if bytes != [] {
      var pair, rest := ByteHex(bytes[0]), HexDigitsOf(bytes[1..]);
      assert HexDigitsOf(bytes) == pair + rest;
      HexDigitsRoundTrip(bytes[1..]);
      PairBytesCons(pair, rest);
      var p := PairBytes(pair + rest);
      assert p[0] == bytes[0] && p[1..] == bytes[1..];
      assert p == [p[0]] + p[1..];
    }
  }

  /** The first byte of hex data is the one its first pair writes, and the
      rest are the bytes of the remaining digits. */
  lemma PairBytesCons(pair: string, rest: string)
    requires |pair| == 2 && IsHexDigit(pair[0]) && IsHexDigit(pair[1])
    requires AllHexDigits(rest) && |rest| % 2 == 0
    ensures AllHexDigits(pair + rest)
    ensures var b := PairBytes(pair + rest);
            b[0] == 16 * HexDigitValue(pair[0]) + HexDigitValue(pair[1]) && b[1..] == PairBytes(rest)
  {
    var h := pair + rest;
    assert h[2..] == rest;
    forall k | 0 <= k < |h| ensures IsHexDigit(h[k]) {
      if k >= 2 { assert h[k] == rest[k - 2]; }
    }
  }

  /** Index of the first zero byte, or `|data|` when there is none. */
  function FirstZero(data: seq<Byte>): (n: nat)
    ensures n <= |data|
    ensures forall k :: 0 <= k < n ==> data[k] != 0
    ensures n < |data| ==> data[n] == 0
  {
    if data == [] || data[0] == 0 then 0 else 1 + FirstZero(data[1..])
  }

  /** `ethers.utils.formatBytes32String` for ASCII text of at most 31
      characters: the text's bytes, zero bytes up to 32, as hex. */
  function FormatBytes32String(text: string): (h: string)
    requires IsAscii(text) && |text| <= 31
    ensures |h| == 66
    ensures Arrayify(h) == Some(AsciiBytes(text) + Zeros(32 - |text|))
  {
    var b := AsciiBytes(text) + Zeros(32 - |text|);
    ArrayifyHexlify(b);
    Hexlify(b)
  }

  /** `ethers.utils.parseBytes32String`; None where it throws. The hex text
      must be 32 bytes of `arrayify` data whose last byte is zero; the text
      is the bytes before the first zero byte, which must be ASCII. */
  function ParseBytes32String(h: string): (r: Option<string>)
    ensures r.Some? <==> (IsHexData(h) && |h| == 66
                          && PairBytes(h[2..])[31] == 0
                          && forall k :: 0 <= k < FirstZero(PairBytes(h[2..])) ==> PairBytes(h[2..])[k] < 128)
    ensures r.Some? ==> var data := PairBytes(h[2..]);
                        && |r.value| == FirstZero(data) <= 31 && IsAscii(r.value)
                        && (forall k :: 0 <= k < |r.value| ==> r.value[k] as int == data[k])
                        && '\0' !in r.value
  {
    match Arrayify(h)
    case None => None
    case Some(data) =>
      if |data| != 32 || data[31] != 0 then None
      else
        var n := FirstZero(data);
        if forall k :: 0 <= k < n ==> data[k] < 128 then Some(AsciiText(data[..n])) else None
  }
}
