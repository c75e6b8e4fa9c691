/**
 * The Caesar shift of algorithms.js: every ASCII letter moves a fixed number
 * of places along the alphabet, keeping its case; everything else passes
 * through unchanged.
 */
module Caesar {
  import opened Wrappers

  /** JavaScript's `a % 26` on integers: the remainder takes the sign of the dividend. */
  function Rem26(a: int): (r: int)
    ensures -26 < r < 26
    ensures (a - r) % 26 == 0
    ensures a >= 0 ==> r >= 0
    ensures a <= 0 ==> r <= 0
  {
    if a >= 0 then a % 26 else -((-a) % 26)
  }

  /** `((shift % 26) + 26) % 26` with JavaScript's remainder. */
  function NormalizeShift(shift: int): (k: int)
    ensures 0 <= k < 26
    ensures k == shift % 26
  {
    Rem26(Rem26(shift) + 26)
  }

  predicate IsUpperLetter(c: char) { 'A' <= c <= 'Z' }
  predicate IsLowerLetter(c: char) { 'a' <= c <= 'z' }

  /** The characters the case-insensitive pattern `[a-z]` accepts. */
  predicate IsLetter(c: char) { IsUpperLetter(c) || IsLowerLetter(c) }

  /** Code of the first letter of `c`'s case: 65 for upper case, 97 for lower case. */
  function Base(c: char): int { if IsUpperLetter(c) then 65 else 97 }

  /** Place of a letter in the alphabet, counted from 0. */
  function LetterIndex(c: char): (i: int)
    requires IsLetter(c)
    ensures 0 <= i < 26
  {
    c as int - Base(c)
  }

  /** One character under a normalized shift `k`. */
  function ShiftChar(c: char, k: int): (r: char)
    requires 0 <= k < 26
    ensures IsLetter(c) ==> IsLetter(r) && IsUpperLetter(r) == IsUpperLetter(c)
    ensures IsLetter(c) ==> LetterIndex(r) == (LetterIndex(c) + k) % 26
    ensures !IsLetter(c) ==> r == c
  {
    if IsLetter(c) then
      (Rem26(c as int - Base(c) + k) + Base(c)) as char
    else
      c
  }

  /**
   * caesarEncrypt: `None` stands for a shift that does not parse as a
   * number, which leaves the text as it is.
   */
  function Encrypt(text: string, shift: Option<int>): (r: string)
    ensures |r| == |text|
    ensures shift.None? ==> r == text
    ensures shift.Some? ==> forall i :: 0 <= i < |text| ==>
      if IsLetter(text[i]) then
        IsLetter(r[i]) && IsUpperLetter(r[i]) == IsUpperLetter(text[i]) &&
        LetterIndex(r[i]) == (LetterIndex(text[i]) + shift.value) % 26
      else
        r[i] == text[i]
  {
    match shift
    case None => text
    case Some(s) =>
      var k := NormalizeShift(s);
      var r := seq(|text|, i requires 0 <= i < |text| => ShiftChar(text[i], k));
      assert forall i :: 0 <= i < |text| && IsLetter(text[i]) ==>
        LetterIndex(r[i]) == (LetterIndex(text[i]) + s) % 26 by {
        forall i | 0 <= i < |text| && IsLetter(text[i])
          ensures LetterIndex(r[i]) == (LetterIndex(text[i]) + s) % 26
        {
          ModShift(LetterIndex(text[i]), s);
        }
      }
      r
  }

  /** Shifting by `s` or by its normalized form lands on the same place. */
  lemma ModShift(x: int, s: int)
    ensures (x + s % 26) % 26 == (x + s) % 26
  {
    var q := s / 26;
    assert s == 26 * q + s % 26;
    assert x + s == (x + s % 26) + 26 * q;
  }

  /** The shift negated, as the unary minus of caesarDecrypt does it. */
  function Negate(shift: Option<int>): Option<int>
  {
    match shift
    case None => None
    case Some(s) => Some(-s)
  }

  /** caesarDecrypt: encryption under the negated shift. */
  function Decrypt(text: string, shift: Option<int>): (r: string)
    ensures |r| == |text|
    ensures shift.None? ==> r == text
    ensures shift.Some? ==> forall i :: 0 <= i < |text| ==>
      if IsLetter(text[i]) then
        IsLetter(r[i]) && IsUpperLetter(r[i]) == IsUpperLetter(text[i]) &&
        LetterIndex(r[i]) == (LetterIndex(text[i]) - shift.value) % 26
      else
        r[i] == text[i]
  {
    Encrypt(text, Negate(shift))
  }

  /** A letter shifted by `s` and then by `t`, where `s + t` is a multiple of 26, is back in place. */
  lemma Restore(a: char, m: char, b: char, s: int, t: int)
    requires IsLetter(a) && IsLetter(m) && IsLetter(b)
    requires IsUpperLetter(m) == IsUpperLetter(a) && IsUpperLetter(b) == IsUpperLetter(m)
    requires LetterIndex(m) == (LetterIndex(a) + s) % 26
    requires LetterIndex(b) == (LetterIndex(m) + t) % 26
    requires (s + t) % 26 == 0
    ensures b == a
  {
    var x := LetterIndex(a);
    var q := (x + s) / 26;
    var u := (s + t) / 26;
    assert LetterIndex(m) == x + s - 26 * q;
    assert LetterIndex(m) + t == x + 26 * (u - q);
    assert LetterIndex(b) == x;
  }

  /** Decrypting an encryption under the same shift gives the text back. */
  lemma DecryptEncrypt(text: string, shift: Option<int>)
    ensures Decrypt(Encrypt(text, shift), shift) == text
  {
    if shift.Some? {
      var s := shift.value;
      var c := Encrypt(text, shift);
      var p := Decrypt(c, shift);
      forall i | 0 <= i < |text| ensures p[i] == text[i] {
        if IsLetter(text[i]) {
          Restore(text[i], c[i], p[i], s, -s);
        } else {
          assert c[i] == text[i];
        }
      }
    }
  }

  /** Encrypting a decryption under the same shift gives the text back. */
  lemma EncryptDecrypt(text: string, shift: Option<int>)
    ensures Encrypt(Decrypt(text, shift), shift) == text
  {
    if shift.Some? {
      var s := shift.value;
      var p := Decrypt(text, shift);
      var c := Encrypt(p, shift);
      forall i | 0 <= i < |text| ensures c[i] == text[i] {
        if IsLetter(text[i]) {
          Restore(text[i], p[i], c[i], -s, s);
        } else {
          assert p[i] == text[i];
        }
      }
    }
  }

  /** The worked example: "HELLO" under shift 3 is "KHOOR". */
  lemma HelloExample()
    ensures Encrypt("HELLO", Some(3)) == "KHOOR"
  {
  }

  /** And back: "KHOOR" under shift 3 decrypts to "HELLO". */
  lemma KhoorExample()
    ensures Decrypt("KHOOR", Some(3)) == "HELLO"
  {
  }

  /** Wrap-around keeps the case: "xyz" under shift 2 is "zab". */
  lemma WrapExample()
    ensures Encrypt("xyz", Some(2)) == "zab"
  {
  }
}
