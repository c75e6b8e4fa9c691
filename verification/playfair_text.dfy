/**
 * The letters of the Playfair square and the string clean-ups algorithms.js
 * applies to key phrases, plaintexts and ciphertexts before using them.
 */
module PlayfairText {

  /** The `i`-th letter of the square's alphabet: A to I, then K to Z. */
  function AlphabetAt(i: int): (c: char)
    requires 0 <= i < 25
    ensures IsTableLetter(c)
  {
    if i < 9 then ('A' as int + i) as char else ('K' as int + i - 9) as char
  }

  /** The 25 letters of the square: A to Z without J, in alphabet order. */
  const Alphabet: string := "ABCDEFGHIKLMNOPQRSTUVWXYZ"

  /** A letter that has a cell in the square. */
  predicate IsTableLetter(c: char) { 'A' <= c <= 'Z' && c != 'J' }

  predicate StrictlyIncreasing(s: string) {
    forall i, j :: 0 <= i < j < |s| ==> s[i] < s[j]
  }

  /** No character occurs twice. */
  predicate NoDup(s: string) {
    forall i, j :: 0 <= i < j < |s| ==> s[i] != s[j]
  }

  /** Letter `i` of the alphabet is AlphabetAt(i). */
  lemma AlphabetLetters()
    ensures |Alphabet| == 25
    ensures forall i :: 0 <= i < 25 ==> Alphabet[i] == AlphabetAt(i)
  {
    assert Alphabet == seq(25, AlphabetAt);
  }

  /** The alphabet holds exactly the table letters, in increasing order. */
  lemma AlphabetFacts()
    ensures |Alphabet| == 25
    ensures forall c :: c in Alphabet <==> IsTableLetter(c)
    ensures StrictlyIncreasing(Alphabet)
    ensures NoDup(Alphabet)
  {
    AlphabetLetters();
    forall c | IsTableLetter(c) ensures c in Alphabet {
      var i := if c < 'J' then c as int - 'A' as int else c as int - 'A' as int - 1;
      assert Alphabet[i] == c;
    }
  }

  /**
   * The characters the regular expression `\s` matches: ECMAScript's
   * WhiteSpace (tab, vertical tab, form feed, space, no-break space, the
   * byte-order mark and the Unicode space separators) and LineTerminator.
   */
  predicate IsWhitespace(c: char) {
    var u := c as int;
    u == 0x09 || u == 0x0A || u == 0x0B || u == 0x0C || u == 0x0D || u == 0x20 ||
    u == 0xA0 || u == 0x1680 || (0x2000 <= u <= 0x200A) || u == 0x2028 ||
    u == 0x2029 || u == 0x202F || u == 0x205F || u == 0x3000 || u == 0xFEFF
  }

  /** `replace(/\s/g, '')`. */
  function StripWhitespace(s: string): (r: string)
    ensures |r| <= |s|
    ensures forall c :: c in r <==> c in s && !IsWhitespace(c)
    ensures (forall c :: c in s ==> !IsWhitespace(c)) ==> r == s
    ensures |s| == 1 ==> r == if IsWhitespace(s[0]) then [] else s
  {
    if s == [] then []
    else Unspaced(s[0]) + StripWhitespace(s[1..])
  }

  /** What `replace(/\s/g, '')` leaves of one character. */
  function Unspaced(c: char): string {
    if IsWhitespace(c) then [] else [c]
  }

  /**
   * Removing white space from a text is removing it from each part: with
   * the one-character case, the kept characters stay in their order.
   */
  lemma {:induction false} StripWhitespaceAppend(a: string, b: string)
    ensures StripWhitespace(a + b) == StripWhitespace(a) + StripWhitespace(b)
  {
    if a == [] {
      assert a + b == b;
    } else {
      assert (a + b)[0] == a[0] && (a + b)[1..] == a[1..] + b;
      StripWhitespaceAppend(a[1..], b);
    }
  }

  /** `toUpperCase()` on one character, for the ASCII letters. */
  function UpperChar(c: char): (u: char)
    ensures !('a' <= u <= 'z')
    ensures 'a' <= c <= 'z' ==> u as int == c as int - 32
    ensures !('a' <= c <= 'z') ==> u == c
  {
    if 'a' <= c <= 'z' then (c as int - 32) as char else c
  }

  /** `toUpperCase()`. */
  function ToUpper(s: string): (r: string)
    ensures |r| == |s|
    ensures forall i :: 0 <= i < |r| ==> !('a' <= r[i] <= 'z')
    ensures forall i :: 0 <= i < |s| && 'a' <= s[i] <= 'z' ==> r[i] as int == s[i] as int - 32
    ensures forall i :: 0 <= i < |s| && !('a' <= s[i] <= 'z') ==> r[i] == s[i]
  {
    seq(|s|, i requires 0 <= i < |s| => UpperChar(s[i]))
  }

  /** `replace(/J/g, 'I')`. */
  function FoldJ(s: string): (r: string)
    ensures |r| == |s|
    ensures 'J' !in r
    ensures forall i :: 0 <= i < |s| && s[i] == 'J' ==> r[i] == 'I'
    ensures forall i :: 0 <= i < |s| && s[i] != 'J' ==> r[i] == s[i]
  {
    seq(|s|, i requires 0 <= i < |s| => if s[i] == 'J' then 'I' else s[i])
  }

  /**
   * `replace(/\s/g, '').toUpperCase().replace(/J/g, 'I')`, the normal form
   * of key phrases and ciphertexts. It leaves a text of table letters as it is.
   */
  function Canonical(s: string): (r: string)
    ensures 'J' !in r
    ensures (forall i :: 0 <= i < |s| ==> IsTableLetter(s[i])) ==> r == s
  {
    FoldJ(ToUpper(StripWhitespace(s)))
  }

  /** `replace(/[^A-Z]/g, '')`. */
  function KeepLetters(s: string): (r: string)
    ensures |r| <= |s|
    ensures forall c :: c in r <==> c in s && 'A' <= c <= 'Z'
    ensures |s| == 1 ==> r == if 'A' <= s[0] <= 'Z' then s else []
  {
    if s == [] then []
    else (if 'A' <= s[0] <= 'Z' then [s[0]] else []) + KeepLetters(s[1..])
  }

  /** Filtering a text is filtering each part: the kept capitals stay in their order. */
  lemma {:induction false} KeepLettersAppend(a: string, b: string)
    ensures KeepLetters(a + b) == KeepLetters(a) + KeepLetters(b)
  {
    if a == [] {
      assert a + b == b;
    } else {
      assert (a + b)[1..] == a[1..] + b;
      KeepLettersAppend(a[1..], b);
    }
  }

  /** The concatenation of a sequence of strings (`join('')`). */
  function Concat(parts: seq<string>): string
  {
    if parts == [] then [] else parts[0] + Concat(parts[1..])
  }

  /** Joining two lists of parts is joining each and putting the results together. */
  lemma {:induction false} ConcatAppend(xs: seq<string>, ys: seq<string>)
    ensures Concat(xs + ys) == Concat(xs) + Concat(ys)
  {
    if xs == [] {
      assert xs + ys == ys;
    } else {
      assert (xs + ys)[1..] == xs[1..] + ys;
      ConcatAppend(xs[1..], ys);
    }
  }
}
