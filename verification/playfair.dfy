/**
 * Playfair encryption and decryption of algorithms.js: preparing the
 * plaintext, the rules for one digraph, and playfairEncrypt and
 * playfairDecrypt.
 */
module Playfair {
  import opened PlayfairText
  import opened PlayfairTable

  // ---------------------------------------------------------------------
  // Preparing the plaintext
  // ---------------------------------------------------------------------

  /**
   * The text playfairPreparePlaintext splits into digraphs: the canonical
   * form with everything but A to Z removed. Only table letters are left.
   */
  function CleanPlaintext(text: string): (s: string)
    ensures forall c :: c in s ==> IsTableLetter(c)
  {
    KeepLetters(Canonical(text))
  }

  /**
   * The digraphs of a cleaned text: a letter is paired with the next one,
   * or with 'X' when the next one is the same letter (which then starts
   * the next digraph) or when there is no next one.
   */
  function Digraphs(s: string): (ds: seq<string>)
    ensures forall k :: 0 <= k < |ds| ==> |ds[k]| == 2
    ensures forall k :: 0 <= k < |ds| ==> ds[k][0] in s && (ds[k][1] in s || ds[k][1] == 'X')
    ensures forall k :: 0 <= k < |ds| ==> ds[k][0] == ds[k][1] ==> ds[k][0] == 'X'
    ensures |s| <= 2 * |ds| && |ds| <= |s|
    decreases |s|
  {
    if s == [] then []
    else
      var second := if |s| > 1 then s[1] else 'X';
      if s[0] == second then [[s[0], 'X']] + Digraphs(s[1..])
      else [[s[0], second]] + Digraphs(if |s| > 1 then s[2..] else [])
  }

  /** The digraphs from position `i` on: one digraph, then those after it. */
  lemma DigraphsFrom(s: string, i: nat)
    requires i < |s|
    ensures var second := if i + 1 < |s| then s[i + 1] else 'X';
      Digraphs(s[i..]) ==
        if s[i] == second then [[s[i], 'X']] + Digraphs(s[i + 1..])
        else [[s[i], second]] + Digraphs(if i + 2 <= |s| then s[i + 2..] else [])
  {
    var rest := s[i..];
    assert rest[0] == s[i] && rest[1..] == s[i + 1..];
    if i + 1 < |s| {
      assert rest[1] == s[i + 1] && rest[2..] == s[i + 2..];
    }
  }

  /** playfairPreparePlaintext: a cursor walks the cleaned text, one digraph per step. */
  method PreparePlaintext(text: string) returns (digraphs: seq<string>)
    ensures digraphs == Digraphs(CleanPlaintext(text))
  {
    var s := CleanPlaintext(text);
    digraphs := SplitDigraphs(s);
  }

  /** The while loop of playfairPreparePlaintext over the cleaned text `s`. */
  method SplitDigraphs(s: string) returns (digraphs: seq<string>)
    ensures digraphs == Digraphs(s)
  {
    digraphs := [];
    var i := 0;
    while i < |s|
      invariant 0 <= i <= |s| + 1
      invariant digraphs + Digraphs(if i <= |s| then s[i..] else []) == Digraphs(s)
      decreases |s| - i
    {
      DigraphsFrom(s, i);
      var first := s[i];
      var second := if i + 1 < |s| then s[i + 1] else 'X';
      if first == second {
        second := 'X';
        i := i + 1;
        assert Digraphs(s[i - 1..]) == [[first, second]] + Digraphs(s[i..]);
      } else {
        i := i + 2;
        assert Digraphs(s[i - 2..]) == [[first, second]] + Digraphs(if i <= |s| then s[i..] else []);
      }
      digraphs := digraphs + [[first, second]];
    }
  }

  /**
   * `long` is `short` with some 'X' characters inserted: the letters of
   * `short` in order, with only X's between them.
   */
  predicate PaddedWithX(long: string, short: string)
    decreases |long|
  {
    if long == [] then short == []
    else
      (short != [] && long[0] == short[0] && PaddedWithX(long[1..], short[1..])) ||
      (long[0] == 'X' && PaddedWithX(long[1..], short))
  }

  /** A digraph followed by more text, read as one string. */
  lemma ConcatCons(d: string, ds: seq<string>)
    ensures Concat([d] + ds) == d + Concat(ds)
  {
    assert ([d] + ds)[1..] == ds;
  }

  /** A letter followed by an inserted 'X'. */
  lemma PadX(c: char, tail: string, short: string)
    requires PaddedWithX(tail, short)
    ensures PaddedWithX([c, 'X'] + tail, [c] + short)
  {
    var long := [c, 'X'] + tail;
    assert long[1..] == ['X'] + tail && long[1..][1..] == tail;
    assert ([c] + short)[1..] == short;
  }

  /** Two letters kept as they are. */
  lemma PadPair(c: char, d: char, tail: string, short: string)
    requires PaddedWithX(tail, short)
    ensures PaddedWithX([c, d] + tail, [c, d] + short)
  {
    var long := [c, d] + tail;
    assert long[1..] == [d] + tail && long[1..][1..] == tail;
    assert ([c, d] + short)[1..] == [d] + short && ([d] + short)[1..] == short;
  }

  /** Joining the digraphs gives the cleaned text back up to inserted X's. */
  lemma {:induction false} DigraphsPadding(s: string)
    ensures PaddedWithX(Concat(Digraphs(s)), s)
    decreases |s|
  {
    if s != [] {
      var second := if |s| > 1 then s[1] else 'X';
      if s[0] == second {
        DigraphsPadding(s[1..]);
        ConcatCons([s[0], 'X'], Digraphs(s[1..]));
        PadX(s[0], Concat(Digraphs(s[1..])), s[1..]);
        assert [s[0]] + s[1..] == s;
      } else if |s| > 1 {
        DigraphsPadding(s[2..]);
        ConcatCons([s[0], s[1]], Digraphs(s[2..]));
        PadPair(s[0], s[1], Concat(Digraphs(s[2..])), s[2..]);
        assert [s[0], s[1]] + s[2..] == s;
      } else {
        DigraphsPadding([]);
        ConcatCons([s[0], 'X'], []);
        PadX(s[0], [], []);
        assert [s[0]] + [] == s;
      }
    }
  }

  // ---------------------------------------------------------------------
  // One digraph
  // ---------------------------------------------------------------------

  /** The first two characters of `d` are both in the square. */
  predicate Found(t: Table, d: string)
    requires IsGrid(t) && |d| >= 2
  {
    PositionOf(t, d[0]).Some? && PositionOf(t, d[1]).Some?
  }

  /** A position inside the square. */
  predicate InSquare(p: Position) {
    0 <= p.row < 5 && 0 <= p.col < 5
  }

  /** The letter in cell `p`. */
  function Cell(t: Table, p: Position): char
    requires IsGrid(t) && InSquare(p)
  {
    t[p.row][p.col]
  }

  /**
   * Where playfairEncryptDigraph takes the two letters from: letters in the
   * same row move one column right, letters in the same column one row
   * down, otherwise each takes the column of the other.
   */
  function EncryptPositions(a: Position, b: Position): (r: (Position, Position))
    requires InSquare(a) && InSquare(b)
    ensures InSquare(r.0) && InSquare(r.1)
  {
    if a.row == b.row then (Position(a.row, (a.col + 1) % 5), Position(b.row, (b.col + 1) % 5))
    else if a.col == b.col then (Position((a.row + 1) % 5, a.col), Position((b.row + 1) % 5, b.col))
    else (Position(a.row, b.col), Position(b.row, a.col))
  }

  /**
   * Where playfairDecryptDigraph takes the two letters from: the same rules
   * with the shifts reversed, one column left and one row up.
   */
  function DecryptPositions(a: Position, b: Position): (r: (Position, Position))
    requires InSquare(a) && InSquare(b)
    ensures InSquare(r.0) && InSquare(r.1)
  {
    if a.row == b.row then (Position(a.row, (a.col + 4) % 5), Position(b.row, (b.col + 4) % 5))
    else if a.col == b.col then (Position((a.row + 4) % 5, a.col), Position((b.row + 4) % 5, b.col))
    else (Position(a.row, b.col), Position(b.row, a.col))
  }

  /** One step forward or back around a row or column of five, without `%`. */
  lemma Wrap(i: int)
    requires 0 <= i < 5
    ensures (i + 1) % 5 == (if i == 4 then 0 else i + 1)
    ensures (i + 4) % 5 == (if i == 0 then 4 else i - 1)
  {
  }

  /** Decryption's position rule undoes encryption's. */
  lemma PositionsRoundTrip(a: Position, b: Position)
    requires InSquare(a) && InSquare(b)
    ensures var (a', b') := EncryptPositions(a, b); DecryptPositions(a', b') == (a, b)
  {
    if a.row == b.row {
      Wrap(a.col); Wrap(b.col); Wrap((a.col + 1) % 5); Wrap((b.col + 1) % 5);
    } else if a.col == b.col {
      Wrap(a.row); Wrap(b.row); Wrap((a.row + 1) % 5); Wrap((b.row + 1) % 5);
    }
  }

  /** Encryption's position rule undoes decryption's. */
  lemma PositionsRoundTripBack(a: Position, b: Position)
    requires InSquare(a) && InSquare(b)
    ensures var (a', b') := DecryptPositions(a, b); EncryptPositions(a', b') == (a, b)
  {
    if a.row == b.row {
      Wrap(a.col); Wrap(b.col); Wrap((a.col + 4) % 5); Wrap((b.col + 4) % 5);
    } else if a.col == b.col {
      Wrap(a.row); Wrap(b.row); Wrap((a.row + 4) % 5); Wrap((b.row + 4) % 5);
    }
  }

  /** No rule leaves a letter where it was. */
  lemma PositionsMove(a: Position, b: Position)
    requires InSquare(a) && InSquare(b)
    ensures EncryptPositions(a, b).0 != a && EncryptPositions(a, b).1 != b
  {
  }

  /**
   * playfairEncryptDigraph. A digraph with a letter not in the square is
   * returned as it is; so is a string shorter than two characters, whose
   * missing character JavaScript reads as `undefined`, found in no cell.
   */
  function EncryptDigraph(t: Table, d: string): (r: string)
    requires IsGrid(t)
    ensures !(|d| >= 2 && Found(t, d)) ==> r == d
    ensures |d| >= 2 && Found(t, d) ==> |r| == 2 && Found(t, r)
  {
    if |d| < 2 then d
    else
      var p1 := PositionOf(t, d[0]);
      var p2 := PositionOf(t, d[1]);
      if p1.None? || p2.None? then d
      else
        var (a, b) := EncryptPositions(p1.value, p2.value);
        CellFound(t, a.row, a.col);
        CellFound(t, b.row, b.col);
        [Cell(t, a), Cell(t, b)]
  }

  /**
   * playfairDecryptDigraph. As for encryption, a digraph with a letter not
   * in the square, or a string shorter than two characters, is returned as
   * it is.
   */
  function DecryptDigraph(t: Table, d: string): (r: string)
    requires IsGrid(t)
    ensures !(|d| >= 2 && Found(t, d)) ==> r == d
    ensures |d| >= 2 && Found(t, d) ==> |r| == 2 && Found(t, r)
  {
    if |d| < 2 then d
    else
      var p1 := PositionOf(t, d[0]);
      var p2 := PositionOf(t, d[1]);
      if p1.None? || p2.None? then d
      else
        var (a, b) := DecryptPositions(p1.value, p2.value);
        CellFound(t, a.row, a.col);
        CellFound(t, b.row, b.col);
        [Cell(t, a), Cell(t, b)]
  }

  /** Decryption undoes encryption on every two-letter string. */
  lemma DecryptEncryptDigraph(t: Table, d: string)
    requires ValidTable(t) && |d| == 2
    ensures DecryptDigraph(t, EncryptDigraph(t, d)) == d
  {
    if Found(t, d) {
      var a, b := PositionOf(t, d[0]).value, PositionOf(t, d[1]).value;
      var (a', b') := EncryptPositions(a, b);
      PositionOfCell(t, a'.row, a'.col);
      PositionOfCell(t, b'.row, b'.col);
      PositionsRoundTrip(a, b);
      assert d == [Cell(t, a), Cell(t, b)];
    }
  }

  /** Encryption undoes decryption on every two-letter string. */
  lemma EncryptDecryptDigraph(t: Table, d: string)
    requires ValidTable(t) && |d| == 2
    ensures EncryptDigraph(t, DecryptDigraph(t, d)) == d
  {
    if Found(t, d) {
      var a, b := PositionOf(t, d[0]).value, PositionOf(t, d[1]).value;
      var (a', b') := DecryptPositions(a, b);
      PositionOfCell(t, a'.row, a'.col);
      PositionOfCell(t, b'.row, b'.col);
      PositionsRoundTripBack(a, b);
      assert d == [Cell(t, a), Cell(t, b)];
    }
  }

  /** On a proper square no letter of a found digraph is enciphered as itself. */
  lemma NoLetterFixed(t: Table, d: string)
    requires ValidTable(t) && |d| == 2 && Found(t, d)
    ensures EncryptDigraph(t, d)[0] != d[0] && EncryptDigraph(t, d)[1] != d[1]
  {
    var a, b := PositionOf(t, d[0]).value, PositionOf(t, d[1]).value;
    PositionsMove(a, b);
    assert d == [Cell(t, a), Cell(t, b)];
  }

  // ---------------------------------------------------------------------
  // Whole texts
  // ---------------------------------------------------------------------

  /** Every element has two characters. */
  predicate AllPairs(ds: seq<string>) {
    forall k :: 0 <= k < |ds| ==> |ds[k]| == 2
  }

  /** `digraphs.map(digraph => playfairEncryptDigraph(table, digraph))`. */
  function EncryptAll(t: Table, ds: seq<string>): (es: seq<string>)
    requires IsGrid(t)
    ensures |es| == |ds|
    ensures AllPairs(ds) ==> AllPairs(es)
  {
    seq(|ds|, k requires 0 <= k < |ds| => EncryptDigraph(t, ds[k]))
  }

  /** `digraphs.map(digraph => playfairDecryptDigraph(table, digraph))`. */
  function DecryptAll(t: Table, ds: seq<string>): (ps: seq<string>)
    requires IsGrid(t)
    ensures |ps| == |ds|
    ensures AllPairs(ds) ==> AllPairs(ps)
  {
    seq(|ds|, k requires 0 <= k < |ds| => DecryptDigraph(t, ds[k]))
  }

  /**
   * The digraphs playfairDecrypt cuts the canonical ciphertext into: the
   * characters two by two, a last odd character dropped.
   */
  function Pairs(s: string): (ds: seq<string>)
    ensures AllPairs(ds)
    ensures |ds| == |s| / 2
    ensures Concat(ds) == s[..2 * (|s| / 2)]
    decreases |s|
  {
    if |s| < 2 then []
    else
      ConcatCons(s[..2], Pairs(s[2..]));
      assert s[..2] + s[2..][..2 * (|s[2..]| / 2)] == s[..2 * (|s| / 2)];
      [s[..2]] + Pairs(s[2..])
  }

  /** Cutting a join of two-character strings gives them back. */
  lemma {:induction false} PairsOfConcat(ds: seq<string>)
    requires AllPairs(ds)
    ensures Pairs(Concat(ds)) == ds
  {
    if ds != [] {
      var s := Concat(ds);
      assert s == ds[0] + Concat(ds[1..]);
      assert s[..2] == ds[0] && s[2..] == Concat(ds[1..]);
      PairsOfConcat(ds[1..]);
      assert ds == [ds[0]] + ds[1..];
    }
  }

  /** playfairEncrypt, as a value. */
  function EncryptText(text: string, keyPhrase: string): string
  {
    Concat(EncryptAll(TableOf(keyPhrase), Digraphs(CleanPlaintext(text))))
  }

  /** playfairDecrypt, as a value. */
  function DecryptText(cipher: string, keyPhrase: string): string
  {
    Concat(DecryptAll(TableOf(keyPhrase), Pairs(Canonical(cipher))))
  }

  /** playfairEncrypt: build the square, prepare the text, encipher digraph by digraph. */
  method Encrypt(text: string, keyPhrase: string) returns (cipher: string)
    ensures cipher == EncryptText(text, keyPhrase)
  {
    var table := GenerateTable(keyPhrase);
    var digraphs := PreparePlaintext(text);
    cipher := Concat(EncryptAll(table, digraphs));
  }

  /** playfairDecrypt: build the square, cut the canonical text in pairs, decipher. */
  method Decrypt(cipher: string, keyPhrase: string) returns (plain: string)
    ensures plain == DecryptText(cipher, keyPhrase)
  {
    var table := GenerateTable(keyPhrase);
    var text := Canonical(cipher);
    var digraphs := CutPairs(text);
    plain := Concat(DecryptAll(table, digraphs));
  }

  /** The pairs from position `i` on: the pair at `i`, then the pairs from `i + 2` on. */
  lemma PairsFrom(text: string, i: nat)
    requires i + 1 < |text|
    ensures Pairs(text[i..]) == [[text[i], text[i + 1]]] + Pairs(text[i + 2..])
  {
    var rest := text[i..];
    assert rest[..2] == [text[i], text[i + 1]] && rest[2..] == text[i + 2..];
  }

  /** The loop of playfairDecrypt that takes the text two characters at a time. */
  method CutPairs(text: string) returns (digraphs: seq<string>)
    ensures digraphs == Pairs(text)
  {
    digraphs := [];
    var i := 0;
    while i < |text|
      invariant 0 <= i <= |text| + 1
      invariant digraphs + Pairs(if i <= |text| then text[i..] else []) == Pairs(text)
      decreases |text| - i
    {
      if i + 1 < |text| {
        PairsFrom(text, i);
        digraphs := digraphs + [[text[i], text[i + 1]]];
      } else {
        assert Pairs(text[i..]) == [];
      }
      i := i + 2;
    }
  }

  /** Every character is a table letter. */
  predicate AllTableLetters(s: string) {
    forall i :: 0 <= i < |s| ==> IsTableLetter(s[i])
  }

  /** Joining strings of table letters gives a string of table letters. */
  lemma {:induction false} ConcatTableLetters(parts: seq<string>)
    requires forall k :: 0 <= k < |parts| ==> AllTableLetters(parts[k])
    ensures AllTableLetters(Concat(parts))
  {
    if parts != [] {
      ConcatTableLetters(parts[1..]);
      var s := Concat(parts);
      assert s == parts[0] + Concat(parts[1..]);
      forall i | 0 <= i < |s| ensures IsTableLetter(s[i]) {
        if i >= |parts[0]| {
          assert s[i] == Concat(parts[1..])[i - |parts[0]|];
        }
      }
    }
  }

  /** A digraph of table letters enciphers to table letters. */
  lemma EncryptedLetters(t: Table, d: string)
    requires IsGrid(t) && |d| == 2
    requires forall ch :: IsTableLetter(ch) <==> PositionOf(t, ch).Some?
    requires IsTableLetter(d[0]) && IsTableLetter(d[1])
    ensures AllTableLetters(EncryptDigraph(t, d))
  {
    var e := EncryptDigraph(t, d);
    assert Found(t, d);
    assert Found(t, e);
    assert IsTableLetter(e[0]) && IsTableLetter(e[1]);
  }

  /** A digraph built from table letters and 'X' is made of table letters. */
  lemma PairLetters(d: string, s: string)
    requires forall c :: c in s ==> IsTableLetter(c)
    requires |d| == 2 && (d[0] in s || d[0] == 'X') && (d[1] in s || d[1] == 'X')
    ensures AllTableLetters(d)
  {
    forall i | 0 <= i < 2 ensures IsTableLetter(d[i]) {
      assert d[i] in s || d[i] == 'X';
    }
  }

  /**
   * Every prepared digraph is two table letters (capitals other than J),
   * and two equal letters only as XX.
   */
  lemma PreparedLetters(text: string)
    ensures forall k :: 0 <= k < |Digraphs(CleanPlaintext(text))| ==>
      var d := Digraphs(CleanPlaintext(text))[k];
      |d| == 2 && AllTableLetters(d) && (d[0] == d[1] ==> d == "XX")
  {
    var s := CleanPlaintext(text);
    var ds := Digraphs(s);
    forall k | 0 <= k < |ds| ensures AllTableLetters(ds[k]) {
      PairLetters(ds[k], s);
    }
  }

  /** Enciphering digraphs of table letters gives digraphs of table letters. */
  lemma EncryptAllLetters(t: Table, ds: seq<string>)
    requires IsGrid(t) && AllPairs(ds)
    requires forall ch :: IsTableLetter(ch) <==> PositionOf(t, ch).Some?
    requires forall k :: 0 <= k < |ds| ==> AllTableLetters(ds[k])
    ensures forall k :: 0 <= k < |ds| ==> AllTableLetters(EncryptAll(t, ds)[k])
  {
    forall k | 0 <= k < |ds| ensures AllTableLetters(EncryptAll(t, ds)[k]) {
      EncryptedLetters(t, ds[k]);
    }
  }

  /** The ciphertext consists of table letters, an even number of them. */
  lemma CiphertextLetters(text: string, keyPhrase: string)
    ensures AllTableLetters(EncryptText(text, keyPhrase))
    ensures |EncryptText(text, keyPhrase)| == 2 * |Digraphs(CleanPlaintext(text))|
  {
    var t := TableOf(keyPhrase);
    var ds := Digraphs(CleanPlaintext(text));
    PreparedLetters(text);
    TableLetters(keyPhrase);
    EncryptAllLetters(t, ds);
    var es := EncryptAll(t, ds);
    ConcatTableLetters(es);
    PairsOfConcat(es);
  }

  /**
   * Decrypting a ciphertext with the same key phrase gives the prepared
   * plaintext: the cleaned text with its padding X's, which decryption
   * does not remove.
   */
  lemma RoundTrip(text: string, keyPhrase: string)
    ensures DecryptText(EncryptText(text, keyPhrase), keyPhrase) == Concat(Digraphs(CleanPlaintext(text)))
    ensures PaddedWithX(DecryptText(EncryptText(text, keyPhrase), keyPhrase), CleanPlaintext(text))
  {
    var t := TableOf(keyPhrase);
    var ds := Digraphs(CleanPlaintext(text));
    var es := EncryptAll(t, ds);
    var c := Concat(es);
    CiphertextLetters(text, keyPhrase);
    assert Canonical(c) == c;
    PairsOfConcat(es);
    forall k | 0 <= k < |ds| ensures DecryptAll(t, es)[k] == ds[k] {
      DecryptEncryptDigraph(t, ds[k]);
    }
    assert DecryptAll(t, es) == ds;
    DigraphsPadding(CleanPlaintext(text));
  }

  // ---------------------------------------------------------------------
  // The worked example: "HELLO" under the key phrase "MONARCHY"
  // ---------------------------------------------------------------------

  /** `replace(/[^A-Z]/g, '')` keeps a text of capital letters as it is. */
  lemma {:induction false} KeepCapitals(s: string)
    requires forall i :: 0 <= i < |s| ==> 'A' <= s[i] <= 'Z'
    ensures KeepLetters(s) == s
  {
    if s != [] {
      KeepCapitals(s[1..]);
      assert [s[0]] + s[1..] == s;
    }
  }

  /** A text of table letters is left as it is by the preparation. */
  lemma CleanOfTableLetters(text: string)
    requires forall i :: 0 <= i < |text| ==> IsTableLetter(text[i])
    ensures CleanPlaintext(text) == text
  {
    KeepCapitals(text);
  }

  /** The double L is split by an X, and the odd last letter padded: HE LX LO. */
  lemma HelloDigraphs(s: string)
    requires s == "HELLO"
    ensures Digraphs(s) == ["HE", "LX", "LO"]
  {
    var a := s[2..];
    assert a == "LLO";
    var b := a[1..];
    assert b == "LO";
    assert b[2..] == [];
    assert Digraphs(b) == ["LO"];
    assert Digraphs(a) == ["LX"] + Digraphs(b);
  }

  /** Enciphering two letters of one row takes the letter right of each, wrapping around. */
  lemma EncryptRowRule(t: Table, d: string, a: Position, b: Position)
    requires ValidTable(t) && InSquare(a) && InSquare(b)
    requires a.row == b.row
    requires d == [Cell(t, a), Cell(t, b)]
    ensures EncryptDigraph(t, d) == [t[a.row][(a.col + 1) % 5], t[b.row][(b.col + 1) % 5]]
  {
    PositionOfCell(t, a.row, a.col);
    PositionOfCell(t, b.row, b.col);
    assert EncryptPositions(a, b) == (Position(a.row, (a.col + 1) % 5), Position(b.row, (b.col + 1) % 5));
  }

  /** Enciphering two letters of one column takes the letter below each, wrapping around. */
  lemma EncryptColumnRule(t: Table, d: string, a: Position, b: Position)
    requires ValidTable(t) && InSquare(a) && InSquare(b)
    requires a.row != b.row && a.col == b.col
    requires d == [Cell(t, a), Cell(t, b)]
    ensures EncryptDigraph(t, d) == [t[(a.row + 1) % 5][a.col], t[(b.row + 1) % 5][b.col]]
  {
    PositionOfCell(t, a.row, a.col);
    PositionOfCell(t, b.row, b.col);
    assert EncryptPositions(a, b) == (Position((a.row + 1) % 5, a.col), Position((b.row + 1) % 5, b.col));
  }

  /** Two letters in different rows and columns take each other's column. */
  lemma EncryptRectangleRule(t: Table, d: string, a: Position, b: Position)
    requires ValidTable(t) && InSquare(a) && InSquare(b)
    requires a.row != b.row && a.col != b.col
    requires d == [Cell(t, a), Cell(t, b)]
    ensures EncryptDigraph(t, d) == [t[a.row][b.col], t[b.row][a.col]]
  {
    PositionOfCell(t, a.row, a.col);
    PositionOfCell(t, b.row, b.col);
  }

  /** Deciphering two letters of one row takes the letter left of each, wrapping around. */
  lemma DecryptRowRule(t: Table, d: string, a: Position, b: Position)
    requires ValidTable(t) && InSquare(a) && InSquare(b)
    requires a.row == b.row
    requires d == [Cell(t, a), Cell(t, b)]
    ensures DecryptDigraph(t, d) == [t[a.row][(a.col + 4) % 5], t[b.row][(b.col + 4) % 5]]
  {
    PositionOfCell(t, a.row, a.col);
    PositionOfCell(t, b.row, b.col);
    assert DecryptPositions(a, b) == (Position(a.row, (a.col + 4) % 5), Position(b.row, (b.col + 4) % 5));
  }

  /** Deciphering two letters of one column takes the letter above each, wrapping around. */
  lemma DecryptColumnRule(t: Table, d: string, a: Position, b: Position)
    requires ValidTable(t) && InSquare(a) && InSquare(b)
    requires a.row != b.row && a.col == b.col
    requires d == [Cell(t, a), Cell(t, b)]
    ensures DecryptDigraph(t, d) == [t[(a.row + 4) % 5][a.col], t[(b.row + 4) % 5][b.col]]
  {
    PositionOfCell(t, a.row, a.col);
    PositionOfCell(t, b.row, b.col);
    assert DecryptPositions(a, b) == (Position((a.row + 4) % 5, a.col), Position((b.row + 4) % 5, b.col));
  }

  /** Deciphering a rectangle swaps the columns, as enciphering does. */
  lemma DecryptRectangleRule(t: Table, d: string, a: Position, b: Position)
    requires ValidTable(t) && InSquare(a) && InSquare(b)
    requires a.row != b.row && a.col != b.col
    requires d == [Cell(t, a), Cell(t, b)]
    ensures DecryptDigraph(t, d) == [t[a.row][b.col], t[b.row][a.col]]
  {
    PositionOfCell(t, a.row, a.col);
    PositionOfCell(t, b.row, b.col);
  }

  /** The cells of the MONARCHY square that enciphering HELLO visits. */
  lemma MonarchyCells(key: string)
    requires key == "MONARCHY"
    ensures var t := TableOf(key);
      && t[0][0] == 'M' && t[0][1] == 'O' && t[1][0] == 'C' && t[1][1] == 'H'
      && t[2][0] == 'E' && t[2][1] == 'F' && t[3][0] == 'L' && t[3][1] == 'P'
      && t[3][3] == 'S' && t[4][0] == 'U' && t[4][3] == 'X'
  {
    MonarchyTable(key);
  }

  /** H and E span a rectangle: HE becomes CF. */
  lemma MonarchyHE(key: string, d: string)
    requires key == "MONARCHY" && d == "HE"
    ensures EncryptDigraph(TableOf(key), d) == "CF"
  {
    MonarchyCells(key);
    EncryptRectangleRule(TableOf(key), d, Position(1, 1), Position(2, 0));
  }

  /** L and X span a rectangle: LX becomes SU. */
  lemma MonarchyLX(key: string, d: string)
    requires key == "MONARCHY" && d == "LX"
    ensures EncryptDigraph(TableOf(key), d) == "SU"
  {
    MonarchyCells(key);
    EncryptRectangleRule(TableOf(key), d, Position(3, 0), Position(4, 3));
  }

  /** L and O span a rectangle: LO becomes PM. */
  lemma MonarchyLO(key: string, d: string)
    requires key == "MONARCHY" && d == "LO"
    ensures EncryptDigraph(TableOf(key), d) == "PM"
  {
    MonarchyCells(key);
    EncryptRectangleRule(TableOf(key), d, Position(3, 0), Position(0, 1));
  }
}
