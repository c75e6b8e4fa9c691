/**
 * The one-time pad of algorithms.js: text and key are sequences of UTF-16
 * code units (what `charCodeAt` reads and `String.fromCharCode` writes), and
 * the cipher is their position-wise exclusive or.
 */
module OneTimePad {
  import opened Wrappers

  /** A UTF-16 code unit. */
  type CodeUnit = bv16

  /** The one error otpEncrypt throws. */
  datatype OtpError = LengthMismatch

  /** Position-wise exclusive or of two equally long code-unit sequences. */
  function XorUnits(text: seq<CodeUnit>, key: seq<CodeUnit>): seq<CodeUnit>
    requires |text| == |key|
  {
    seq(|text|, i requires 0 <= i < |text| => text[i] ^ key[i])
  }

  /**
   * otpEncrypt: throws when the lengths differ; otherwise appends, code unit
   * by code unit, the exclusive or of text and key.
   */
  method Encrypt(text: seq<CodeUnit>, key: seq<CodeUnit>) returns (r: Result<seq<CodeUnit>, OtpError>)
    ensures |text| != |key| ==> r == Failure(LengthMismatch)
    ensures |text| == |key| ==> r.Success? && |r.value| == |text|
    ensures |text| == |key| ==> forall i :: 0 <= i < |text| ==> r.value[i] == text[i] ^ key[i]
    ensures |text| == |key| ==> r == Success(XorUnits(text, key))
  {
    if |text| != |key| {
      return Failure(LengthMismatch);
    }
    var result: seq<CodeUnit> := [];
    for i := 0 to |text|
      invariant |result| == i
      invariant forall j :: 0 <= j < i ==> result[j] == text[j] ^ key[j]
    {
      var encrypted := text[i] ^ key[i];
      result := result + [encrypted];
    }
    assert result == XorUnits(text, key);
    r := Success(result);
  }

  /** otpDecrypt: the same exclusive or. */
  method Decrypt(text: seq<CodeUnit>, key: seq<CodeUnit>) returns (r: Result<seq<CodeUnit>, OtpError>)
    ensures |text| != |key| ==> r == Failure(LengthMismatch)
    ensures |text| == |key| ==> r == Success(XorUnits(text, key))
  {
    r := Encrypt(text, key);
  }

  /** Applying the pad twice with the same key gives the text back. */
  lemma SelfInverse(text: seq<CodeUnit>, key: seq<CodeUnit>)
    requires |text| == |key|
    ensures |XorUnits(text, key)| == |key|
    ensures XorUnits(XorUnits(text, key), key) == text
  {
  }

  /**
   * Encryption followed by decryption with the same key, as a caller of the
   * two operations sees it.
   */
  method RoundTrip(text: seq<CodeUnit>, key: seq<CodeUnit>) returns (back: Result<seq<CodeUnit>, OtpError>)
    ensures |text| == |key| ==> back == Success(text)
    ensures |text| != |key| ==> back == Failure(LengthMismatch)
  {
    var cipher := Encrypt(text, key);
    if cipher.Failure? {
      return cipher;
    }
    SelfInverse(text, key);
    back := Decrypt(cipher.value, key);
  }

  /** "HI" under key "XY": 72 xor 88 = 16 and 73 xor 89 = 16. */
  lemma HiExample()
    ensures XorUnits([72, 73], [88, 89]) == [16, 16]
  {
  }
}
