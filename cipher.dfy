/**
 * The payload ciphers of cipher.py that are plain text manipulation: ROT13
 * and the custom block padding wrapped around AES-CBC.  The block transform
 * itself, RSA and Fernet are kept abstract: they are function values in a
 * `Crypto` record that callers pass in.
 */
module Cipher {
  import opened Wrappers

  // ================================ ROT13 ================================

  const PlainAlpha: string := "abcdefghijklmnopqrstuvwxyz"
  /** The alphabet rotated 13 places to the left. */
  const RotatedAlpha: string := PlainAlpha[13..] + PlainAlpha[..13]

  predicate IsUpper(c: char) { 'A' <= c <= 'Z' }
  predicate IsLower(c: char) { 'a' <= c <= 'z' }

  function Lower(c: char): char requires IsUpper(c) { (c as int + 32) as char }
  function Upper(c: char): char requires IsLower(c) { (c as int - 32) as char }

  /** Python's `s.index(c)`: the first position holding `c`. */
  function IndexOf(s: string, c: char): (i: nat)
    requires c in s
    ensures i < |s| && s[i] == c
    ensures forall j | 0 <= j < i :: s[j] != c
  {
    if s[0] == c then 0 else 1 + IndexOf(s[1..], c)
  }

  lemma PlainAlphaAt(j: nat)
    requires j < 26
    ensures |PlainAlpha| == 26 && PlainAlpha[j] == (j + 'a' as int) as char
  {
  }

  lemma RotatedAlphaAt(k: nat)
    requires k < 26
    ensures |RotatedAlpha| == 26
    ensures RotatedAlpha[k] == ((if k < 13 then k + 13 else k - 13) + 'a' as int) as char
  {
    if k < 13 {
      assert RotatedAlpha[k] == PlainAlpha[k + 13];
      PlainAlphaAt(k + 13);
    } else {
      assert RotatedAlpha[k] == PlainAlpha[k - 13];
      PlainAlphaAt(k - 13);
    }
  }

  /** The position of a letter in the rotated alphabet, from its offset `x`
      in the plain one. */
  function RotPos(x: int): int
  {
    if x < 13 then x + 13 else x - 13
  }

  /** Every lower-case letter occurs in the rotated alphabet. */
  lemma InRotated(c: char)
    requires IsLower(c)
    ensures c in RotatedAlpha && |RotatedAlpha| == |PlainAlpha| == 26
    ensures forall i | 0 <= i < 26 :: IsLower(PlainAlpha[i])
  {
    var k := RotPos(c as int - 'a' as int);
    RotatedAlphaAt(k);
    forall i | 0 <= i < 26 ensures IsLower(PlainAlpha[i]) {
      PlainAlphaAt(i);
    }
  }

  /** `IndexOf` finds a position holding `c` with no earlier occurrence. */
  lemma {:induction false} IndexOfAt(s: string, c: char, k: nat)
    requires k < |s| && s[k] == c
    requires forall j | 0 <= j < k :: s[j] != c
    ensures c in s && IndexOf(s, c) == k
  {
    if k > 0 {
      IndexOfAt(s[1..], c, k - 1);
    }
  }

  /** Where a lower-case letter sits in the rotated alphabet. */
  lemma RotatedIndex(c: char)
    requires IsLower(c)
    ensures c in RotatedAlpha
    ensures IndexOf(RotatedAlpha, c) == RotPos(c as int - 'a' as int)
  {
    var k := RotPos(c as int - 'a' as int);
    RotatedAlphaAt(k);
    forall j | 0 <= j < k ensures RotatedAlpha[j] != c {
      RotatedAlphaAt(j);
    }
    IndexOfAt(RotatedAlpha, c, k);
  }

  /** One step of the loop in `rot13_encrypt`: the character it appends. */
  function RotChar(c: char): char
  {
    if c == ' ' then c
    else if IsUpper(c) then
      InRotated(Lower(c));
      Upper(PlainAlpha[IndexOf(RotatedAlpha, Lower(c))])
    else if IsLower(c) then
      InRotated(c);
      PlainAlpha[IndexOf(RotatedAlpha, c)]
    else c
  }

  /** The result of a ROT13 step, written as arithmetic on the letter's
      position in its alphabet. */
  function Shift13(c: char, base: char): char
    requires (base == 'a' || base == 'A') && base as int <= c as int < base as int + 26
  {
    ((c as int - base as int + 13) % 26 + base as int) as char
  }

  /** `Shift13` is the rotated position, shifted back to the letter's case. */
  lemma Shift13Pos(c: char, base: char)
    requires (base == 'a' || base == 'A') && base as int <= c as int < base as int + 26
    ensures Shift13(c, base) as int == RotPos(c as int - base as int) + base as int
  {
  }

  lemma RotLower(c: char)
    requires IsLower(c)
    ensures RotChar(c) == Shift13(c, 'a')
  {
    RotatedIndex(c);
    var k := RotPos(c as int - 'a' as int);
    PlainAlphaAt(k);
    Shift13Pos(c, 'a');
  }

  lemma RotUpper(c: char)
    requires IsUpper(c)
    ensures RotChar(c) == Shift13(c, 'A')
  {
    var l := Lower(c);
    RotatedIndex(l);
    var k := RotPos(l as int - 'a' as int);
    PlainAlphaAt(k);
    Shift13Pos(c, 'A');
  }

  /** The table lookup is the 13-place Caesar shift: case is kept, letters
      move 13 places around their alphabet and everything else is copied. */
  lemma RotCharShift(c: char)
    ensures IsLower(c) ==> RotChar(c) == Shift13(c, 'a') && IsLower(RotChar(c))
    ensures IsUpper(c) ==> RotChar(c) == Shift13(c, 'A') && IsUpper(RotChar(c))
    ensures !IsLower(c) && !IsUpper(c) ==> RotChar(c) == c
  {
    if IsLower(c) {
      RotLower(c);
    } else if IsUpper(c) {
      RotUpper(c);
    }
  }

  /** Shifting by 13 twice goes all the way round. */
  lemma Shift13Twice(c: char, base: char)
    requires (base == 'a' || base == 'A') && base as int <= c as int < base as int + 26
    ensures base as int <= Shift13(c, base) as int < base as int + 26
    ensures Shift13(Shift13(c, base), base) == c
  {
    var x := c as int - base as int;
    if x < 13 {
      assert Shift13(c, base) as int - base as int == x + 13;
    } else {
      assert Shift13(c, base) as int - base as int == x - 13;
    }
  }

  lemma RotCharInvolution(c: char)
    ensures RotChar(RotChar(c)) == c
  {
    RotCharShift(c);
    var d := RotChar(c);
    RotCharShift(d);
    if IsLower(c) {
      Shift13Twice(c, 'a');
    } else if IsUpper(c) {
      Shift13Twice(c, 'A');
    }
  }

  /** ROT13 of a whole string, character by character. */
  function Rot13(s: string): (r: string)
    ensures |r| == |s|
  {
    seq(|s|, i requires 0 <= i < |s| => RotChar(s[i]))
  }

  /** `rot13_decrypt(rot13_encrypt(s)) == s`. */
  lemma Rot13Involution(s: string)
    ensures Rot13(Rot13(s)) == s
  {
    forall i | 0 <= i < |s| ensures Rot13(Rot13(s))[i] == s[i] {
      RotCharInvolution(s[i]);
    }
  }

  /** `rot13_encrypt`: one character appended per input character. */
  method Rot13Encrypt(plaintext: string) returns (result: string)
    ensures |result| == |plaintext|
    ensures forall i | 0 <= i < |plaintext| :: result[i] == RotChar(plaintext[i])
  {
    result := "";
    for i := 0 to |plaintext|
      invariant |result| == i
      invariant forall j | 0 <= j < i :: result[j] == RotChar(plaintext[j])
    {
      result := result + [RotChar(plaintext[i])];
    }
  }

  /** `rot13_decrypt`: the same loop as `rot13_encrypt`. */
  method Rot13Decrypt(encText: string) returns (result: string)
    ensures result == Rot13(encText)
  {
    result := "";
    for i := 0 to |encText|
      invariant result == Rot13(encText[..i])
    {
      assert encText[..i + 1] == encText[..i] + [encText[i]];
      result := result + [RotChar(encText[i])];
    }
    assert encText[..|encText|] == encText;
  }

  // =========================== AES block padding ===========================

  /** `16 - (len % 16) - 1`: the number of '0' filler characters. */
  function PadAmount(len: nat): (pad: nat)
    ensures pad < 16
    ensures (len + pad + 1) % 16 == 0
  {
    16 - len % 16 - 1
  }

  /** `hex(n).replace('0x', '')` for a single hex digit. */
  function HexDigit(n: nat): char
    requires n < 16
  {
    if n < 10 then (n + '0' as int) as char else (n - 10 + 'a' as int) as char
  }

  /** `int('0x' + c, 16)` on an ASCII character; `None` where Python raises
      ValueError. */
  function HexValue(c: char): Option<nat>
  {
    if '0' <= c <= '9' then Some(c as int - '0' as int)
    else if 'a' <= c <= 'f' then Some(c as int - 'a' as int + 10)
    else if 'A' <= c <= 'F' then Some(c as int - 'A' as int + 10)
    else None
  }

  /** The text that `AES_encrypt` hands to the block cipher: the original,
      `pad` filler characters and one hex digit recording `pad`. */
  function Pad(plaintext: string): (padded: string)
  {
    var pad := PadAmount(|plaintext|);
    plaintext + seq(pad, _ => '0') + [HexDigit(pad)]
  }

  /** Lines 90-97 of `AES_encrypt`: grow the text until it fills whole blocks. */
  method AesPad(plaintext: string) returns (padded: string)
    ensures padded == Pad(plaintext)
    ensures |padded| % 16 == 0
    ensures |plaintext| < |padded| <= |plaintext| + 16
    ensures padded[..|plaintext|] == plaintext
    ensures forall i | |plaintext| <= i < |padded| - 1 :: padded[i] == '0'
    ensures HexValue(padded[|padded| - 1]) == Some(|padded| - |plaintext| - 1)
  {
    var padding := 16 - |plaintext| % 16 - 1;
    padded := plaintext;
    for i := 0 to padding
      invariant padded == plaintext + seq(i, _ => '0')
    {
      padded := padded + "0";
    }
    if padding + 1 > 0 {
      padded := padded + [HexDigit(padding)];
    }
    assert padded[..|plaintext|] == plaintext;
  }

  /** Lines 120-123 of `AES_decrypt`: read the last character as a hex digit
      and drop that many characters plus one (Python's `s[:-k]`, which is
      empty when `k` exceeds the length), for ASCII text, where a character
      is a byte.  `None` where Python raises: an empty text or a last
      character that is not a hex digit. */
  function Unpad(plaintext: string): (r: Option<string>)
    ensures r.Some? <==> |plaintext| > 0 && HexValue(plaintext[|plaintext| - 1]).Some?
    ensures r.Some? ==> r.value < plaintext && |r.value| < |plaintext|
  {
    if |plaintext| == 0 then None
    else match HexValue(plaintext[|plaintext| - 1])
      case None => None
      case Some(pad) =>
        if pad + 1 <= |plaintext| then Some(plaintext[..|plaintext| - (pad + 1)]) else Some([])
  }

  /** Unpadding undoes padding: the self-test's `dec == message`. */
  lemma UnpadPad(plaintext: string)
    ensures Unpad(Pad(plaintext)) == Some(plaintext)
  {
    var pad := PadAmount(|plaintext|);
    var padded := Pad(plaintext);
    assert padded[|padded| - 1] == HexDigit(pad);
    assert HexValue(HexDigit(pad)) == Some(pad);
    assert padded[..|padded| - (pad + 1)] == plaintext;
  }

  // ============================== AES-CBC ==============================

  /** The number of bytes `s.encode()` produces: UTF-8 spends one byte on an
      ASCII character and two to four on any other. */
  function Utf8Length(s: string): nat
  {
    if s == [] then 0
    else
      var c := s[|s| - 1] as int;
      Utf8Length(s[..|s| - 1]) + (if c < 0x80 then 1 else if c < 0x800 then 2 else if c < 0x1_0000 then 3 else 4)
  }

  predicate Ascii(s: string)
  {
    forall i | 0 <= i < |s| :: s[i] as int < 0x80
  }

  /** UTF-8 never shortens a string, and it keeps the length exactly when
      every character is ASCII. */
  lemma {:induction false} Utf8LengthBounds(s: string)
    ensures Utf8Length(s) >= |s|
    ensures Utf8Length(s) == |s| <==> Ascii(s)
    decreases |s|
  {
    if s != [] {
      var init := s[..|s| - 1];
      Utf8LengthBounds(init);
      if Ascii(s) {
        assert Ascii(init);
      } else if Ascii(init) {
        assert s[|s| - 1] as int >= 0x80;
      }
    }
  }

  /** Padding only adds ASCII characters, and always fills whole blocks. */
  lemma PadAscii(plaintext: string)
    requires Ascii(plaintext)
    ensures Ascii(Pad(plaintext)) && |Pad(plaintext)| % 16 == 0
  {
    var pad := PadAmount(|plaintext|);
    var padded := Pad(plaintext);
    forall i | 0 <= i < |padded| ensures padded[i] as int < 0x80 {
      if i >= |plaintext| + pad {
        assert padded[i] == HexDigit(pad);
      }
    }
  }

  /**
   * The cryptographic primitives, kept abstract.  `cbcEncrypt(key, iv, p)`
   * is the AES-CBC transform of block-aligned text; `rsaEncrypt(pub, m)` and
   * `rsaDecrypt(priv, c)` are RSA-OAEP; `fernetEncrypt(key, m)` and
   * `fernetDecrypt(key, c)` are Fernet; `verify(pub, signature, message)`
   * is RSA-PSS verification.  RSA encryption and each decryption return
   * `None` where the library raises (for OAEP encryption: a message longer
   * than the key can hold).
   */
  datatype Crypto = Crypto(
    cbcEncrypt: (string, string, string) -> string,
    cbcDecrypt: (string, string, string) -> Option<string>,
    rsaEncrypt: (string, string) -> Option<string>,
    rsaDecrypt: (string, string) -> Option<string>,
    fernetEncrypt: (string, string) -> string,
    fernetDecrypt: (string, string) -> Option<string>,
    verify: (string, string, string) -> bool)

  /** AES-CBC decryption undoes encryption for every key and IV. */
  ghost predicate CbcInverse(crypto: Crypto)
  {
    forall key, iv, p :: crypto.cbcDecrypt(key, iv, crypto.cbcEncrypt(key, iv, p)) == Some(p)
  }

  /** RSA-OAEP with private key `priv` undoes every encryption with public
      key `pub` that succeeded. */
  ghost predicate RsaKeyPair(crypto: Crypto, pub: string, priv: string)
  {
    forall m | crypto.rsaEncrypt(pub, m).Some? :: crypto.rsaDecrypt(priv, crypto.rsaEncrypt(pub, m).value) == Some(m)
  }

  /** Fernet decryption undoes encryption under the same key. */
  ghost predicate FernetInverse(crypto: Crypto)
  {
    forall key, m :: crypto.fernetDecrypt(key, crypto.fernetEncrypt(key, m)) == Some(m)
  }

  /** `AES_encrypt(plaintext, key)` with the random IV passed in: the
      ciphertext of the padded text, the IV being returned beside it.  The
      padding counts characters but the cipher is fed `plaintext.encode()`:
      when those bytes are not whole blocks `finalize()` raises, and the
      result is `None`. */
  function AesEncrypt(crypto: Crypto, plaintext: string, key: string, iv: string): Option<string>
  {
    var padded := Pad(plaintext);
    if Utf8Length(padded) % 16 != 0 then None
    else Some(crypto.cbcEncrypt(key, iv, padded))
  }

  /** Encryption succeeds on every ASCII text. */
  lemma AsciiEncrypts(crypto: Crypto, plaintext: string, key: string, iv: string)
    requires Ascii(plaintext)
    ensures AesEncrypt(crypto, plaintext, key, iv).Some?
  {
    PadAscii(plaintext);
    Utf8LengthBounds(Pad(plaintext));
  }

  /** A single non-ASCII character pads to one block of 16 characters but
      17 bytes, so encryption raises. */
  lemma NonAsciiRaises(crypto: Crypto, key: string, iv: string)
    ensures AesEncrypt(crypto, "\U{e9}", key, iv) == None
  {
    var padded := Pad("\U{e9}");
    assert padded == "\U{e9}" + seq(14, _ => '0') + ['e'];
    assert Utf8Length(padded) == 17 by {
      assert padded[..1] == "\U{e9}";
      assert Utf8Length(padded[..1]) == 2 by {
        assert padded[..1][..0] == [];
      }
      assert forall j | 1 <= j < 16 :: padded[j] as int < 0x80;
      Utf8Prefix(padded, 1);
    }
  }

  /** Past a prefix of `n` characters, an ASCII tail adds one byte each. */
  lemma {:induction false} Utf8Prefix(s: string, n: nat)
    requires n <= |s|
    requires forall j | n <= j < |s| :: s[j] as int < 0x80
    ensures Utf8Length(s) == Utf8Length(s[..n]) + (|s| - n)
    decreases |s|
  {
    if |s| > n {
      var init := s[..|s| - 1];
      assert init[..n] == s[..n];
      Utf8Prefix(init, n);
    } else {
      assert s[..n] == s;
    }
  }

  /** `AES_decrypt(ciphertext, iv, key)`: decrypt, then unpad. */
  function AesDecrypt(crypto: Crypto, ciphertext: string, iv: string, key: string): Option<string>
  {
    match crypto.cbcDecrypt(key, iv, ciphertext)
    case None => None
    case Some(p) => Unpad(p)
  }

  /** Whenever encryption succeeds, decrypting with the IV it used gives back
      the plaintext. */
  lemma AesRoundTrip(crypto: Crypto, plaintext: string, key: string, iv: string)
    requires CbcInverse(crypto)
    requires AesEncrypt(crypto, plaintext, key, iv).Some?
    ensures AesDecrypt(crypto, AesEncrypt(crypto, plaintext, key, iv).value, iv, key) == Some(plaintext)
  {
    UnpadPad(plaintext);
  }
}
