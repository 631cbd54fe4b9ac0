/** The few ECMAScript string and number built-ins the referral code decoder
    relies on: String.prototype.substring and trim, parseInt with radix 16,
    and String.fromCharCode. JavaScript strings are sequences of UTF-16 code
    units; here a string is a sequence of Dafny `char`s, and the indices of
    `substring` count those. The two agree on text inside the Basic
    Multilingual Plane; a character above U+FFFF is one `char` here but two
    code units in JavaScript. */
module JsText {
  import opened Wrappers

  /** The WhiteSpace and LineTerminator code points of ECMAScript
      (sections 12.2 and 12.3 of ECMA-262): the characters that `trim()`
      removes and that `parseInt` skips at the front. */
  predicate IsWhitespace(c: char) {
    || c == '\t' || c == '\n' || c == '\U{B}' || c == '\U{C}' || c == '\r' || c == ' '
    || c == '\U{A0}' || c == '\U{1680}' || ('\U{2000}' <= c <= '\U{200A}')
    || c == '\U{2028}' || c == '\U{2029}' || c == '\U{202F}' || c == '\U{205F}'
    || c == '\U{3000}' || c == '\U{FEFF}'
  }

  /** `s.substring(start, end)` for start <= end: both indices are clamped to
      the length of the string. */
  function Substring(s: string, start: nat, end: nat): (r: string)
    requires start <= end
    ensures |r| == (if end <= |s| then end else |s|) - (if start <= |s| then start else |s|)
    ensures forall k :: 0 <= k < |r| ==> start + k < |s| && r[k] == s[start + k]
  {
    var a := if start <= |s| then start else |s|;
    var b := if end <= |s| then end else |s|;
    s[a..b]
  }

  lemma SubstringPair(s: string, start: nat)
    requires start + 2 <= |s|
    ensures Substring(s, start, start + 2) == [s[start], s[start + 1]]
  {
  }

  /** `s.substring(start)`: the characters from `start` on, or none when
      `start` is past the end. */
  function SubstringFrom(s: string, start: nat): (r: string)
    ensures start <= |s| ==> r == s[start..]
    ensures start > |s| ==> r == []
  {
    if start <= |s| then s[start..] else []
  }

  /** The string without its leading whitespace. */
  function TrimStart(s: string): (r: string)
    ensures |r| <= |s|
  {
    if s != [] && IsWhitespace(s[0]) then TrimStart(s[1..]) else s
  }

  /** `TrimStart` removes a run of whitespace from the front and stops at the
      first character that is not whitespace. */
  lemma {:induction false} TrimStartSpec(s: string)
    ensures var r := TrimStart(s);
            && r == s[|s| - |r|..]
            && (r == [] || !IsWhitespace(r[0]))
            && forall k :: 0 <= k < |s| - |r| ==> IsWhitespace(s[k])
  {
    if s != [] && IsWhitespace(s[0]) {
      TrimStartSpec(s[1..]);
      var r := TrimStart(s);
      assert s[1..][|s| - 1 - |r|..] == s[|s| - |r|..];
      forall k | 0 <= k < |s| - |r| ensures IsWhitespace(s[k]) {
        if k > 0 { assert s[k] == s[1..][k - 1]; }
      }
    }
  }

  /** The string without its trailing whitespace. */
  function TrimEnd(s: string): (r: string)
    ensures |r| <= |s| && r == s[..|r|]
    ensures r == [] || !IsWhitespace(r[|r| - 1])
    ensures forall k :: |r| <= k < |s| ==> IsWhitespace(s[k])
  {
    if s != [] && IsWhitespace(s[|s| - 1]) then TrimEnd(s[..|s| - 1]) else s
  }

  /** `s.trim()`: whitespace removed at both ends. */
  function Trim(s: string): (r: string)
  {
    TrimEnd(TrimStart(s))
  }

  /** `r` is `s` with a run of whitespace cut from each end, and neither end
      of `r` is whitespace: exactly what trimming must produce. */
  ghost predicate IsTrimOf(r: string, s: string) {
    exists a: nat, b: nat {:trigger s[a..b]} ::
      && a <= b <= |s| && r == s[a..b]
      && (forall k :: 0 <= k < a ==> IsWhitespace(s[k]))
      && (forall k :: b <= k < |s| ==> IsWhitespace(s[k]))
      && (r == [] || (!IsWhitespace(r[0]) && !IsWhitespace(r[|r| - 1])))
  }

  lemma TrimIsTrimOf(s: string)
    ensures IsTrimOf(Trim(s), s)
    ensures |Trim(s)| <= |s|
  {
    var t := TrimStart(s);
    TrimStartSpec(s);
    var r := TrimEnd(t);
    var a := |s| - |t|;
    var b := a + |r|;
    TrimEndWithin(s, a);
    assert r == s[a..b];
  }

  /** Trimming the end of a suffix of `s` removes only whitespace of `s`. */
  lemma TrimEndWithin(s: string, a: nat)
    requires a <= |s|
    ensures var r := TrimEnd(s[a..]);
            && a + |r| <= |s| && r == s[a..a + |r|]
            && forall k :: a + |r| <= k < |s| ==> IsWhitespace(s[k])
  {
    var t := s[a..];
    var r := TrimEnd(t);
    forall k | a + |r| <= k < |s| ensures IsWhitespace(s[k]) {
      assert s[k] == t[k - a];
    }
  }

  /** Trimming a trimmed string changes nothing. */
  lemma {:induction false} TrimIdempotent(s: string)
    ensures Trim(Trim(s)) == Trim(s)
  {
    var r := Trim(s);
    TrimStartSpec(s);
    assert TrimStart(r) == r;
    assert TrimEnd(r) == r;
  }

  /** Every character that is not whitespace survives trimming; in
      particular NUL, which ECMAScript does not count as whitespace. */
  lemma TrimKeepsNonWhitespace(s: string, k: nat)
    requires k < |s| && !IsWhitespace(s[k])
    ensures s[k] in Trim(s)
  {
    var t := TrimStart(s);
    TrimStartSpec(s);
    var a := |s| - |t|;
    assert t[k - a] == s[k];
    var r := TrimEnd(t);
    assert r[k - a] == s[k];
  }

  /** NUL is not ECMAScript whitespace, so `trim()` keeps every NUL. */
  lemma TrimKeepsNul(s: string, k: nat)
    requires k < |s| && s[k] == '\0'
    ensures '\0' in Trim(s)
  {
    TrimKeepsNonWhitespace(s, k);
  }

  predicate IsHexDigit(c: char) {
    '0' <= c <= '9' || 'a' <= c <= 'f' || 'A' <= c <= 'F'
  }

  function HexDigitValue(c: char): (v: nat)
    requires IsHexDigit(c)
    ensures v < 16
  {
    if '0' <= c <= '9' then c as nat - '0' as nat
    else if 'a' <= c <= 'f' then c as nat - 'a' as nat + 10
    else c as nat - 'A' as nat + 10
  }

  predicate AllHexDigits(s: string) {
    forall k :: 0 <= k < |s| ==> IsHexDigit(s[k])
  }

  /** The longest prefix of `s` made of hex digits. */
  function HexDigitPrefix(s: string): (z: string)
    ensures |z| <= |s| && z == s[..|z|] && AllHexDigits(z)
    ensures |z| < |s| ==> !IsHexDigit(s[|z|])
  {
    if s != [] && IsHexDigit(s[0]) then [s[0]] + HexDigitPrefix(s[1..]) else []
  }

  function Pow16(n: nat): (p: nat)
    ensures p >= 1
  {
    if n == 0 then 1 else 16 * Pow16(n - 1)
  }

  /** The number written by a string of hex digits, most significant first. */
  function HexValue(z: string): (v: nat)
    requires AllHexDigits(z)
    ensures v < Pow16(|z|)
  {
    if z == [] then 0 else 16 * HexValue(z[..|z| - 1]) + HexDigitValue(z[|z| - 1])
  }

  /** `parseInt(s, 16)`, with None for NaN: leading whitespace is skipped,
      then one optional sign, then an optional "0x"/"0X" prefix, and the
      longest run of hex digits that follows is read; no digits gives NaN. */
  function ParseIntHex(s: string): (r: Option<int>)
    ensures |s| <= 2 && r.Some? ==> -256 < r.value < 256
  {
    var t := TrimStart(s);
    var z := HexDigitPrefix(StripHexPrefix(StripSign(t)));
    if z == [] then None
    else
      var v: int := HexValue(z);
      assert |s| <= 2 ==> v < 256 by {
        if |s| <= 2 { SmallHexValue(z); }
      }
      Some(if t[0] == '-' then -v else v)
  }

  /** The text after one leading "+" or "-", if there is one. */
  function StripSign(t: string): (u: string)
    ensures |u| <= |t|
  {
    if t != [] && (t[0] == '+' || t[0] == '-') then t[1..] else t
  }

  /** The text after a leading "0x" or "0X", if there is one. */
  function StripHexPrefix(u: string): (b: string)
    ensures |b| <= |u|
  {
    if |u| >= 2 && u[0] == '0' && (u[1] == 'x' || u[1] == 'X') then u[2..] else u
  }

  lemma SmallHexValue(z: string)
    requires AllHexDigits(z) && |z| <= 2
    ensures HexValue(z) < 256
  {
    assert Pow16(|z|) <= 256 by {
      assert Pow16(0) == 1 && Pow16(1) == 16 && Pow16(2) == 256;
    }
  }

  /** Two hex digits parse to the byte they write. */
  lemma ParseIntHexPair(pair: string)
    requires |pair| == 2 && IsHexDigit(pair[0]) && IsHexDigit(pair[1])
    ensures ParseIntHex(pair) == Some(16 * HexDigitValue(pair[0]) + HexDigitValue(pair[1]))
  {
    assert TrimStart(pair) == pair;
    assert StripSign(pair) == pair;
    assert StripHexPrefix(pair) == pair;
    assert HexDigitPrefix(pair) == pair by {
      assert HexDigitPrefix(pair[1..][1..]) == [];
      assert HexDigitPrefix(pair[1..]) == [pair[1]];
    }
    assert HexValue(pair) == 16 * HexDigitValue(pair[0]) + HexDigitValue(pair[1]) by {
      assert pair[..1] == [pair[0]] && pair[..1][..0] == [];
    }
  }

  /** `String.fromCharCode(n)`: the code unit ToUint16(n), with NaN giving 0.
      Only the codes a parse of at most two characters yields are accepted,
      which keeps the result outside the surrogate range. */
  function FromCharCode(n: Option<int>): (c: char)
    requires n.Some? ==> -256 < n.value < 256
    ensures c as int == if n.None? then 0 else n.value % 0x1_0000
    ensures n.Some? && n.value >= 0 ==> c as int == n.value
  {
    if n.None? then 0 as char else (n.value % 0x1_0000) as char
  }
}
