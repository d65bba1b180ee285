/** The credential string of `database.py`: `hash_password` writes the
    lowercase hex of a 32-byte salt followed by the lowercase hex of the
    PBKDF2 key derived from the password under that salt; `verify_password`
    splits a stored string at character 64, parses the salt back with
    `bytes.fromhex`, re-derives the key and compares hex strings. */
module Credential {
  import opened Wrappers

  type byte = b: int | 0 <= b < 256

  /** The salt `os.urandom(32)` yields. */
  type Salt = s: seq<byte> | |s| == 32 witness seq(32, i => 0)

  /** A PBKDF2-HMAC-SHA256 output at its default length (32 bytes). */
  type Key = k: seq<byte> | |k| == 32 witness seq(32, i => 0)

  /** PBKDF2-HMAC-SHA256 with 100000 iterations over the UTF-8 encoding of
      the password, as a deterministic function the model does not open. */
  type Kdf = (string, seq<byte>) -> Key

  // ---------------------------------------------------------------------
  // Hex digits

  /** The lowercase digit `bytes.hex()` writes for a nibble. */
  function HexChar(n: int): (c: char)
    requires 0 <= n < 16
    ensures IsLowerHexChar(c)
  {
    if n < 10 then ('0' as int + n) as char else ('a' as int + n - 10) as char
  }

  predicate IsLowerHexChar(c: char) {
    '0' <= c <= '9' || 'a' <= c <= 'f'
  }

  /** The digits `bytes.fromhex` accepts: both cases. */
  predicate IsHexDigit(c: char) {
    IsLowerHexChar(c) || 'A' <= c <= 'F'
  }

  /** ASCII whitespace, which `bytes.fromhex` skips between byte pairs:
      space, tab, line feed, vertical tab, form feed, carriage return. */
  predicate IsSpace(c: char) {
    c == ' ' || c == '\t' || c == '\n' || c == '\r' || c as int == 11 || c as int == 12
  }

  function DigitValue(c: char): (v: int)
    requires IsHexDigit(c)
    ensures 0 <= v < 16
  {
    if '0' <= c <= '9' then c as int - '0' as int
    else if 'a' <= c <= 'f' then c as int - 'a' as int + 10
    else c as int - 'A' as int + 10
  }

  predicate IsLowerHex(s: string) {
    forall i :: 0 <= i < |s| ==> IsLowerHexChar(s[i])
  }

  // ---------------------------------------------------------------------
  // bytes.hex() and bytes.fromhex()

  /** `bytes.hex()`: two lowercase digits per byte, high nibble first. */
  function Hex(bs: seq<byte>): (r: string)
    ensures |r| == 2 * |bs|
    ensures IsLowerHex(r)
  {
    if bs == [] then []
    else [HexChar(bs[0] / 16), HexChar(bs[0] % 16)] + Hex(bs[1..])
  }

  /** `bytes.fromhex(s)`; `None` where Python raises `ValueError`. Whitespace
      is skipped before each pair, never inside one. */
  function FromHex(s: string): (r: Option<seq<byte>>)
    ensures r.Some? ==> 2 * |r.value| <= |s|
    ensures r.Some? ==> forall i :: 0 <= i < |s| ==> IsHexDigit(s[i]) || IsSpace(s[i])
    decreases |s|
  {
    if s == [] then Some([])
    else if IsSpace(s[0]) then FromHex(s[1..])
    else if |s| < 2 || !IsHexDigit(s[0]) || !IsHexDigit(s[1]) then None
    else
      match FromHex(s[2..])
      case None => None
      case Some(rest) =>
        assert forall i :: 2 <= i < |s| ==> s[i] == s[2..][i - 2];
        Some([16 * DigitValue(s[0]) + DigitValue(s[1])] + rest)
  }

  /** Parsing what `bytes.hex()` wrote gives the bytes back. */
  lemma {:induction false} FromHexHex(bs: seq<byte>)
    ensures FromHex(Hex(bs)) == Some(bs)
  {
    if bs != [] {
      var s := Hex(bs);
      assert s == [HexChar(bs[0] / 16), HexChar(bs[0] % 16)] + Hex(bs[1..]);
      assert s[2..] == Hex(bs[1..]);
      FromHexHex(bs[1..]);
      assert DigitValue(s[0]) == bs[0] / 16 && DigitValue(s[1]) == bs[0] % 16;
      assert bs == [bs[0]] + bs[1..];
    }
  }

  /** Two lowercase digits read as one byte are written back as the same
      two digits. */
  lemma NibblePair(hi: char, lo: char)
    requires IsLowerHexChar(hi) && IsLowerHexChar(lo)
    ensures var b := 16 * DigitValue(hi) + DigitValue(lo);
      && 0 <= b < 256 && HexChar(b / 16) == hi && HexChar(b % 16) == lo
  {
  }

  /** A lowercase hex string of even length parses, and is exactly the
      `bytes.hex()` of what it parses to: lowercase hex is canonical. */
  lemma {:induction false} HexFromHex(s: string)
    requires IsLowerHex(s) && |s| % 2 == 0
    ensures FromHex(s).Some? && Hex(FromHex(s).value) == s
  {
    if s != [] {
      assert IsLowerHexChar(s[0]) && IsLowerHexChar(s[1]);
      assert IsLowerHex(s[2..]) by {
        forall i | 0 <= i < |s[2..]| ensures IsLowerHexChar(s[2..][i]) {
          assert s[2..][i] == s[i + 2];
        }
      }
      HexFromHex(s[2..]);
      var rest := FromHex(s[2..]).value;
      var b := 16 * DigitValue(s[0]) + DigitValue(s[1]);
      NibblePair(s[0], s[1]);
      assert FromHex(s) == Some([b] + rest);
      assert ([b] + rest)[1..] == rest;
      assert HexChar(b / 16) == s[0] && HexChar(b % 16) == s[1];
      assert Hex([b] + rest) == [s[0], s[1]] + s[2..];
      assert [s[0], s[1]] + s[2..] == s;
    }
  }

  /** Without whitespace, a string of odd length never parses. */
  lemma {:induction false} FromHexOddLength(s: string)
    requires forall i :: 0 <= i < |s| ==> !IsSpace(s[i])
    requires |s| % 2 == 1
    ensures FromHex(s).None?
  {
    if |s| >= 2 && IsHexDigit(s[0]) && IsHexDigit(s[1]) {
      assert forall i :: 0 <= i < |s[2..]| ==> s[2..][i] == s[i + 2];
      FromHexOddLength(s[2..]);
    }
  }

  // ---------------------------------------------------------------------
  // Python slicing of the stored string

  /** `s[:n]` for a non-negative `n`: clamped at the end of `s`. */
  function Prefix(s: string, n: nat): (r: string)
    ensures |r| == if n <= |s| then n else |s|
  {
    if n <= |s| then s[..n] else s
  }

  /** `s[:n]` is the leading part of `s`. */
  lemma PrefixIsLeadingPart(s: string, n: nat)
    ensures Prefix(s, n) == s[..|Prefix(s, n)|]
  {
  }

  /** `s[n:]` for a non-negative `n`: empty past the end of `s`. */
  function Suffix(s: string, n: nat): (r: string)
    ensures Prefix(s, n) + r == s
  {
    if n <= |s| then s[n..] else []
  }

  // ---------------------------------------------------------------------
  // hash_password and verify_password

  /** The shape of every string `hash_password` returns. */
  predicate WellFormedCredential(s: string) {
    |s| == 128 && IsLowerHex(s)
  }

  /** `hash_password`, with the random salt as a parameter. */
  function HashPassword(kdf: Kdf, password: string, salt: Salt): (r: string)
    ensures WellFormedCredential(r)
    ensures FromHex(Prefix(r, 64)) == Some(salt)
  {
    var r := Hex(salt) + Hex(kdf(password, salt));
    assert Prefix(r, 64) == Hex(salt);
    FromHexHex(salt);
    r
  }

  /** After the 64 salt digits, a credential holds exactly the hex of the
      key derived from the password under that salt. */
  lemma HashPasswordKeyPart(kdf: Kdf, password: string, salt: Salt)
    ensures Suffix(HashPassword(kdf, password, salt), 64) == Hex(kdf(password, salt))
  {
    var r := HashPassword(kdf, password, salt);
    assert r == Hex(salt) + Hex(kdf(password, salt));
    assert Suffix(r, 64) == r[64..];
  }

  /** `verify_password`; `None` where `bytes.fromhex` raises on the first
      64 characters. */
  function VerifyPassword(kdf: Kdf, stored: string, provided: string): (r: Option<bool>)
    ensures r.None? <==> FromHex(Prefix(stored, 64)).None?
  {
    match FromHex(Prefix(stored, 64))
    case None => None
    case Some(salt) => Some(Hex(kdf(provided, salt)) == Suffix(stored, 64))
  }

  /** Round trip: a credential written by `hash_password` verifies the
      password it was made from. */
  lemma HashThenVerify(kdf: Kdf, password: string, salt: Salt)
    ensures VerifyPassword(kdf, HashPassword(kdf, password, salt), password) == Some(true)
  {
    var r := HashPassword(kdf, password, salt);
    assert r == Hex(salt) + Hex(kdf(password, salt));
    assert Prefix(r, 64) == Hex(salt);
    assert Suffix(r, 64) == Hex(kdf(password, salt));
  }

  /** A stored string shorter than 128 characters never verifies:
      `verify_password` either raises or compares 64 hex digits with a
      shorter tail. */
  lemma ShortCredentialNeverVerifies(kdf: Kdf, stored: string, provided: string)
    requires |stored| < 128
    ensures VerifyPassword(kdf, stored, provided) != Some(true)
  {
  }

  /** On a well-formed credential `verify_password` never raises, and it
      succeeds exactly when the last 64 characters spell the key derived
      from the provided password under the salt the first 64 spell. */
  lemma VerifyWellFormed(kdf: Kdf, stored: string, provided: string)
    requires WellFormedCredential(stored)
    ensures FromHex(stored[..64]).Some?
    ensures VerifyPassword(kdf, stored, provided)
         == Some(FromHex(stored[64..]) == Some(kdf(provided, FromHex(stored[..64]).value)))
  {
    var pre, post := stored[..64], stored[64..];
    assert IsLowerHex(pre) by {
      forall i | 0 <= i < 64 ensures IsLowerHexChar(pre[i]) { assert pre[i] == stored[i]; }
    }
    assert IsLowerHex(post) by {
      forall i | 0 <= i < 64 ensures IsLowerHexChar(post[i]) { assert post[i] == stored[i + 64]; }
    }
    HexFromHex(pre);
    HexFromHex(post);
    var key := kdf(provided, FromHex(pre).value);
    FromHexHex(key);
    assert Hex(key) == post <==> FromHex(post) == Some(key);
  }
}
