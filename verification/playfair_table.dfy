/**
 * The Playfair key square of algorithms.js: playfairGenerateTable and
 * playfairFindPosition.
 */
module PlayfairTable {
  import opened Wrappers
  import opened PlayfairText

  /** Rows of cells; the square is 5 rows of 5 one-letter cells. */
  type Table = seq<seq<char>>

  /** A cell of the square, the `{ row, col }` object of playfairFindPosition. */
  datatype Position = Position(row: int, col: int)

  predicate IsGrid(t: Table) {
    |t| == 5 && forall r :: 0 <= r < 5 ==> |t[r]| == 5
  }

  /** A 5 by 5 square whose 25 cells are pairwise different. */
  predicate ValidTable(t: Table) {
    IsGrid(t) &&
    forall r1, c1, r2, c2 ::
      0 <= r1 < 5 && 0 <= c1 < 5 && 0 <= r2 < 5 && 0 <= c2 < 5 && (r1 != r2 || c1 != c2) ==>
        t[r1][c1] != t[r2][c2]
  }

  // ---------------------------------------------------------------------
  // Building the square
  // ---------------------------------------------------------------------

  /**
   * The key phrase's table letters without repeats, in the order the first
   * loop of playfairGenerateTable appends them to `matrix` (a character is
   * in the alphabet exactly when it is a table letter, see AlphabetFacts).
   */
  function KeyLetters(key: string): string
  {
    if key == [] then []
    else
      var prev := KeyLetters(key[..|key| - 1]);
      var c := key[|key| - 1];
      if IsTableLetter(c) && c !in prev then prev + [c] else prev
  }

  /** Index of the first occurrence of `c` in `s`. */
  function FirstIndex(s: string, c: char): (i: int)
    requires c in s
    ensures 0 <= i < |s| && s[i] == c
    ensures c !in s[..i]
  {
    var p := s[..|s| - 1];
    assert s == p + [s[|s| - 1]];
    if c in p then
      var i := FirstIndex(p, c);
      assert s[..i] == p[..i];
      i
    else
      |s| - 1
  }

  /**
   * The key letters are the table letters of the key, each once, ordered by
   * where each first occurs in the key.
   */
  lemma {:induction false} KeyLettersInOrder(key: string)
    ensures NoDup(KeyLetters(key))
    ensures forall c :: c in KeyLetters(key) <==> c in key && IsTableLetter(c)
    ensures forall i, j :: 0 <= i < j < |KeyLetters(key)| ==>
      FirstIndex(key, KeyLetters(key)[i]) < FirstIndex(key, KeyLetters(key)[j])
  {
    if key != [] {
      var p := key[..|key| - 1];
      var c := key[|key| - 1];
      assert key == p + [c];
      KeyLettersInOrder(p);
      var prev := KeyLetters(p);
      var k := KeyLetters(key);
      forall i | 0 <= i < |prev| ensures FirstIndex(key, prev[i]) == FirstIndex(p, prev[i]) < |p| {
      }
      if IsTableLetter(c) && c !in prev {
        assert k == prev + [c];
        assert c !in p;
        assert FirstIndex(key, c) == |p|;
      } else {
        assert k == prev;
      }
    }
  }

  /** The set of letters of `s`: the `used` set of playfairGenerateTable. */
  function Letters(s: string): (used: set<char>)
    ensures forall c :: c in used <==> c in s
  {
    set c | c in s
  }

  /** The letters of `a` that are not in `used`, in the order of `a`. */
  function Unchosen(a: string, used: set<char>): string
  {
    if a == [] then []
    else
      var prev := Unchosen(a[..|a| - 1], used);
      var c := a[|a| - 1];
      if c !in used then prev + [c] else prev
  }

  /** The remaining letters are those not chosen, and keep the order of `a`. */
  lemma {:induction false} UnchosenInOrder(a: string, used: set<char>)
    ensures forall c :: c in Unchosen(a, used) <==> c in a && c !in used
    ensures StrictlyIncreasing(a) ==> StrictlyIncreasing(Unchosen(a, used))
  {
    if a != [] {
      var p := a[..|a| - 1];
      var c := a[|a| - 1];
      assert a == p + [c];
      UnchosenInOrder(p, used);
      var prev := Unchosen(p, used);
      if StrictlyIncreasing(a) && c !in used {
        var u := Unchosen(a, used);
        assert u == prev + [c];
        forall i, j | 0 <= i < j < |u| ensures u[i] < u[j] {
          if j == |prev| {
            var x := prev[i];
            assert x in p;
            var k :| 0 <= k < |p| && p[k] == x;
            assert a[k] == x;
          }
        }
      }
    }
  }

  /** Joining two repeat-free strings with no letter in common gives a repeat-free string. */
  lemma AppendNoDup(a: string, b: string)
    requires NoDup(a) && NoDup(b)
    requires forall c :: c in b ==> c !in a
    ensures NoDup(a + b)
  {
    var m := a + b;
    forall i, j | 0 <= i < j < |m| ensures m[i] != m[j] {
      if j >= |a| {
        assert m[j] == b[j - |a|] && m[j] in b;
        if i >= |a| {
          assert m[i] == b[i - |a|];
        } else {
          assert m[i] == a[i] && m[i] in a;
        }
      }
    }
  }

  /** A string without repeats has each of its characters exactly once. */
  lemma {:induction false} NoDupCount(s: string, c: char)
    requires NoDup(s)
    ensures multiset(s)[c] == if c in s then 1 else 0
  {
    if s != [] {
      assert s == [s[0]] + s[1..];
      NoDupCount(s[1..], c);
      assert s[0] !in s[1..];
    }
  }

  /** Two repeat-free strings with the same characters are permutations of each other. */
  lemma SamePermutation(a: string, b: string)
    requires NoDup(a) && NoDup(b)
    requires forall c :: c in a <==> c in b
    ensures multiset(a) == multiset(b)
    ensures |a| == |b|
  {
    forall c ensures multiset(a)[c] == multiset(b)[c] {
      NoDupCount(a, c);
      NoDupCount(b, c);
    }
    assert multiset(a) == multiset(b);
    assert |a| == |multiset(a)| == |multiset(b)| == |b|;
  }

  /**
   * The `matrix` string of playfairGenerateTable: the key letters, then the
   * letters of the alphabet the key does not use.
   */
  function MatrixOf(keyPhrase: string): string
  {
    var chosen := KeyLetters(Canonical(keyPhrase));
    chosen + Unchosen(Alphabet, Letters(chosen))
  }

  /** The matrix is a permutation of the alphabet: 25 different table letters. */
  lemma MatrixIsPermutation(keyPhrase: string)
    ensures |MatrixOf(keyPhrase)| == 25
    ensures NoDup(MatrixOf(keyPhrase))
    ensures forall c :: c in MatrixOf(keyPhrase) <==> IsTableLetter(c)
    ensures multiset(MatrixOf(keyPhrase)) == multiset(Alphabet)
  {
    var key := Canonical(keyPhrase);
    var chosen := KeyLetters(key);
    var rest := Unchosen(Alphabet, Letters(chosen));
    var m := chosen + rest;
    assert m == MatrixOf(keyPhrase);
    KeyLettersInOrder(key);
    AlphabetFacts();
    UnchosenInOrder(Alphabet, Letters(chosen));
    assert NoDup(rest);
    AppendNoDup(chosen, rest);
    forall c ensures c in MatrixOf(keyPhrase) <==> IsTableLetter(c) {
      assert c in m <==> c in chosen || c in rest;
    }
    SamePermutation(m, Alphabet);
  }

  /** The matrix laid out in rows of five. */
  function Rows(m: string): (t: Table)
    requires |m| == 25
    ensures IsGrid(t)
  {
    seq(5, r requires 0 <= r < 5 => m[5 * r .. 5 * r + 5])
  }

  /** Cell (r, c) of the rows is matrix letter 5r + c; distinct letters give distinct cells. */
  lemma RowsCells(m: string)
    requires |m| == 25
    ensures forall r, c :: 0 <= r < 5 && 0 <= c < 5 ==> Rows(m)[r][c] == m[5 * r + c]
    ensures NoDup(m) ==> ValidTable(Rows(m))
  {
    var t := Rows(m);
    forall r, c | 0 <= r < 5 && 0 <= c < 5 ensures t[r][c] == m[5 * r + c] {
      assert t[r] == m[5 * r .. 5 * r + 5];
    }
    if NoDup(m) {
      forall r1, c1, r2, c2 | 0 <= r1 < 5 && 0 <= c1 < 5 && 0 <= r2 < 5 && 0 <= c2 < 5 && (r1 != r2 || c1 != c2)
        ensures t[r1][c1] != t[r2][c2]
      {
        var i, j := 5 * r1 + c1, 5 * r2 + c2;
        assert i != j;
        if i < j { assert m[i] != m[j]; } else { assert m[j] != m[i]; }
      }
    }
  }

  /** Rows of five, read one after the other, give the matrix back. */
  lemma {:induction false} ConcatRows(t: Table, m: string)
    requires |m| == 5 * |t|
    requires forall r :: 0 <= r < |t| ==> t[r] == m[5 * r .. 5 * r + 5]
    ensures Concat(t) == m
  {
    if t != [] {
      assert t[1..][0..] == t[1..];
      forall r | 0 <= r < |t| - 1 ensures t[1..][r] == m[5..][5 * r .. 5 * r + 5] {
        var k := 5 * r + 5;
        assert 5 * (r + 1) == k;
        assert t[1..][r] == t[r + 1] == m[k .. k + 5];
        assert m[5..][5 * r .. 5 * r + 5] == m[k .. k + 5];
      }
      ConcatRows(t[1..], m[5..]);
      assert m == m[..5] + m[5..];
    }
  }

  /** The rows of the matrix, read one after the other, give the matrix back. */
  lemma ConcatRowsOf(m: string)
    requires |m| == 25
    ensures Concat(Rows(m)) == m
  {
    var t := Rows(m);
    forall r | 0 <= r < |t| ensures t[r] == m[5 * r .. 5 * r + 5] {
    }
    ConcatRows(t, m);
  }

  /**
   * playfairGenerateTable as a value: the key letters first, then the rest
   * of the alphabet, row by row.
   */
  function TableOf(keyPhrase: string): (t: Table)
    ensures ValidTable(t)
    ensures Concat(t) == MatrixOf(keyPhrase)
  {
    MatrixIsPermutation(keyPhrase);
    var m := MatrixOf(keyPhrase);
    var t := Rows(m);
    RowsCells(m);
    ConcatRowsOf(m);
    t
  }

  /**
   * The square starts with the key letters (which are, by
   * KeyLettersInOrder, the table letters of the canonical key phrase in the
   * order they first occur) and goes on with the other letters in alphabet
   * order.
   */
  lemma TableLayout(keyPhrase: string)
    ensures var key := KeyLetters(Canonical(keyPhrase));
      && Concat(TableOf(keyPhrase))[..|key|] == key
      && StrictlyIncreasing(Concat(TableOf(keyPhrase))[|key|..])
  {
    var key := KeyLetters(Canonical(keyPhrase));
    var rest := Unchosen(Alphabet, Letters(key));
    var m := MatrixOf(keyPhrase);
    assert m[..|key|] == key && m[|key|..] == rest;
    assert StrictlyIncreasing(Alphabet) by { AlphabetFacts(); }
    UnchosenInOrder(Alphabet, Letters(key));
    assert StrictlyIncreasing(rest);
    assert Concat(TableOf(keyPhrase)) == m;
  }

  /** One more key character: KeyLetters grows by it when it is a new table letter. */
  lemma KeyLettersStep(key: string, i: int)
    requires 0 <= i < |key|
    ensures KeyLetters(key[..i + 1]) ==
      var prev := KeyLetters(key[..i]);
      if IsTableLetter(key[i]) && key[i] !in prev then prev + [key[i]] else prev
  {
    assert key[..i + 1][..i] == key[..i];
  }

  /** One more alphabet letter: Unchosen grows by it when it was not chosen. */
  lemma UnchosenStep(a: string, j: int, used: set<char>)
    requires 0 <= j < |a|
    ensures Unchosen(a[..j + 1], used) ==
      Unchosen(a[..j], used) + if a[j] in used then [] else [a[j]]
  {
    assert a[..j + 1][..j] == a[..j];
  }

  /** playfairGenerateTable: two accumulator loops build `matrix`, a third cuts it into rows. */
  method GenerateTable(keyPhrase: string) returns (table: Table)
    ensures table == TableOf(keyPhrase)
    ensures ValidTable(table)
    ensures multiset(Concat(table)) == multiset(Alphabet)
  {
    var key := Canonical(keyPhrase);
    var matrix, used := AddKeyLetters(key);
    matrix := AddRemainingLetters(matrix, used);
    assert matrix == MatrixOf(keyPhrase);
    MatrixIsPermutation(keyPhrase);
    table := SplitRows(matrix);
  }

  /** The first loop of playfairGenerateTable: each new table letter of the key, in order. */
  method AddKeyLetters(key: string) returns (matrix: string, used: set<char>)
    ensures matrix == KeyLetters(key)
    ensures used == Letters(matrix)
  {
    matrix, used := [], {};
    for i := 0 to |key|
      invariant matrix == KeyLetters(key[..i])
      invariant forall c :: c in used <==> c in matrix
    {
      KeyLettersStep(key, i);
      var c := key[i];
      assert c in Alphabet <==> IsTableLetter(c) by { AlphabetFacts(); }
      if c in Alphabet && c !in used {
        matrix := matrix + [c];
        used := used + {c};
      }
    }
    assert key[..|key|] == key;
  }

  /** The second loop of playfairGenerateTable: the alphabet letters not yet used, in order. */
  method AddRemainingLetters(chosen: string, used: set<char>) returns (matrix: string)
    ensures matrix == chosen + Unchosen(Alphabet, used)
  {
    matrix := chosen;
    for j := 0 to |Alphabet|
      invariant matrix == chosen + Unchosen(Alphabet[..j], used)
    {
      UnchosenStep(Alphabet, j, used);
      if Alphabet[j] !in used {
        matrix := matrix + [Alphabet[j]];
      }
    }
    assert Alphabet[..|Alphabet|] == Alphabet;
  }

  /** The third loop of playfairGenerateTable: five rows of five letters. */
  method SplitRows(matrix: string) returns (table: Table)
    requires |matrix| == 25
    ensures table == Rows(matrix)
  {
    table := [];
    for r := 0 to 5
      invariant |table| == r
      invariant forall q :: 0 <= q < r ==> table[q] == matrix[5 * q .. 5 * q + 5]
    {
      table := table + [matrix[r * 5 .. (r + 1) * 5]];
    }
  }

  /** A key of different table letters is its own list of key letters. */
  lemma {:induction false} KeyLettersOfDistinct(key: string)
    requires NoDup(key)
    requires forall i :: 0 <= i < |key| ==> IsTableLetter(key[i])
    ensures KeyLetters(key) == key
  {
    if key != [] {
      var p := key[..|key| - 1];
      KeyLettersOfDistinct(p);
      assert key == p + [key[|key| - 1]];
      assert key[|key| - 1] !in p;
    }
  }

  /** Filtering distributes over concatenation. */
  lemma {:induction false} UnchosenAppend(a: string, b: string, used: set<char>)
    ensures Unchosen(a + b, used) == Unchosen(a, used) + Unchosen(b, used)
  {
    if b != [] {
      var p := b[..|b| - 1];
      assert (a + b)[..|a + b| - 1] == a + p;
      assert (a + b)[|a + b| - 1] == b[|b| - 1];
      UnchosenAppend(a, p, used);
    } else {
      assert a + b == a;
    }
  }

  /** Unchosen of 25 letters, taken five at a time. */
  lemma UnchosenByRows(a: string, used: set<char>)
    requires |a| == 25
    ensures Unchosen(a, used) ==
      Unchosen(a[0..5], used) + Unchosen(a[5..10], used) + Unchosen(a[10..15], used) +
      Unchosen(a[15..20], used) + Unchosen(a[20..25], used)
  {
    assert a == a[0..5] + a[5..10] + a[10..15] + a[15..20] + a[20..25];
    UnchosenAppend(a[0..5] + a[5..10] + a[10..15] + a[15..20], a[20..25], used);
    UnchosenAppend(a[0..5] + a[5..10] + a[10..15], a[15..20], used);
    UnchosenAppend(a[0..5] + a[5..10], a[10..15], used);
    UnchosenAppend(a[0..5], a[5..10], used);
  }

  /** What Unchosen keeps of one letter. */
  function Kept(c: char, used: set<char>): string
  {
    if c in used then [] else [c]
  }

  /** Unchosen of a five-letter string, letter by letter. */
  lemma UnchosenOfFive(s: string, used: set<char>)
    requires |s| == 5
    ensures Unchosen(s, used) ==
      Kept(s[0], used) + Kept(s[1], used) + Kept(s[2], used) + Kept(s[3], used) + Kept(s[4], used)
  {
    assert Unchosen(s[..1], used) == Kept(s[0], used) by {
      assert s[..0] == [];
      UnchosenStep(s, 0, used);
    }
    assert Unchosen(s[..2], used) == Kept(s[0], used) + Kept(s[1], used) by {
      UnchosenStep(s, 1, used);
    }
    assert Unchosen(s[..3], used) == Kept(s[0], used) + Kept(s[1], used) + Kept(s[2], used) by {
      UnchosenStep(s, 2, used);
    }
    assert Unchosen(s[..4], used) ==
      Kept(s[0], used) + Kept(s[1], used) + Kept(s[2], used) + Kept(s[3], used) by {
      UnchosenStep(s, 3, used);
    }
    UnchosenStep(s, 4, used);
    assert s[..5] == s;
  }

  /*
   * The worked example with key "MONARCHY". Each literal is passed as a
   * parameter fixed by the precondition so that the verifier evaluates one
   * step at a time.
   */

  lemma MonarchyKeyIsCanonical(key: string)
    requires key == "MONARCHY"
    ensures NoDup(key)
    ensures forall i :: 0 <= i < |key| ==> IsTableLetter(key[i])
    ensures Canonical(key) == key
  {
    assert forall i :: 0 <= i < |key| ==> IsTableLetter(key[i]);
  }

  lemma MonarchyKeyLetters(key: string)
    requires key == "MONARCHY"
    ensures KeyLetters(Canonical(key)) == "MONARCHY"
  {
    MonarchyKeyIsCanonical(key);
    KeyLettersOfDistinct(key);
  }

  /*
   * What "MONARCHY" leaves over in each row of five letters of the alphabet;
   * one lemma per row keeps each evaluation small.
   */

  lemma MonarchyRow0(used: set<char>)
    requires used == {'M', 'O', 'N', 'A', 'R', 'C', 'H', 'Y'}
    ensures Unchosen(Alphabet[0..5], used) == "BDE"
  {
    assert Alphabet[0..5] == "ABCDE";
    UnchosenOfFive(Alphabet[0..5], used);
  }

  lemma MonarchyRow1(used: set<char>)
    requires used == {'M', 'O', 'N', 'A', 'R', 'C', 'H', 'Y'}
    ensures Unchosen(Alphabet[5..10], used) == "FGIK"
  {
    assert Alphabet[5..10] == "FGHIK";
    UnchosenOfFive(Alphabet[5..10], used);
  }

  lemma MonarchyRow2(used: set<char>)
    requires used == {'M', 'O', 'N', 'A', 'R', 'C', 'H', 'Y'}
    ensures Unchosen(Alphabet[10..15], used) == "LP"
  {
    assert Alphabet[10..15] == "LMNOP";
    UnchosenOfFive(Alphabet[10..15], used);
  }

  lemma MonarchyRow3(used: set<char>)
    requires used == {'M', 'O', 'N', 'A', 'R', 'C', 'H', 'Y'}
    ensures Unchosen(Alphabet[15..20], used) == "QSTU"
  {
    assert Alphabet[15..20] == "QRSTU";
    UnchosenOfFive(Alphabet[15..20], used);
  }

  lemma MonarchyRow4(used: set<char>)
    requires used == {'M', 'O', 'N', 'A', 'R', 'C', 'H', 'Y'}
    ensures Unchosen(Alphabet[20..25], used) == "VWXZ"
  {
    assert Alphabet[20..25] == "VWXYZ";
    UnchosenOfFive(Alphabet[20..25], used);
  }

  lemma MonarchyRest(used: set<char>)
    requires used == {'M', 'O', 'N', 'A', 'R', 'C', 'H', 'Y'}
    ensures Unchosen(Alphabet, used) == "BDEFGIKLPQSTUVWXZ"
  {
    UnchosenByRows(Alphabet, used);
    MonarchyRow0(used);
    MonarchyRow1(used);
    MonarchyRow2(used);
    MonarchyRow3(used);
    MonarchyRow4(used);
  }

  lemma MonarchyUsed(chosen: string)
    requires chosen == "MONARCHY"
    ensures Letters(chosen) == {'M', 'O', 'N', 'A', 'R', 'C', 'H', 'Y'}
  {
  }

  /** The matrix of any key phrase whose key letters are "MONARCHY". */
  lemma MonarchyMatrixOf(keyPhrase: string, chosen: string)
    requires chosen == "MONARCHY"
    requires KeyLetters(Canonical(keyPhrase)) == chosen
    ensures MatrixOf(keyPhrase) == "MONARCHYBDEFGIKLPQSTUVWXZ"
  {
    var rest := Unchosen(Alphabet, Letters(chosen));
    MonarchyUsed(chosen);
    MonarchyRest(Letters(chosen));
    MonarchyJoin(chosen, rest);
  }

  lemma MonarchyJoin(chosen: string, rest: string)
    requires chosen == "MONARCHY" && rest == "BDEFGIKLPQSTUVWXZ"
    ensures chosen + rest == "MONARCHYBDEFGIKLPQSTUVWXZ"
  {
  }

  lemma MonarchyMatrix(key: string)
    requires key == "MONARCHY"
    ensures MatrixOf(key) == "MONARCHYBDEFGIKLPQSTUVWXZ"
  {
    MonarchyKeyLetters(key);
    MonarchyMatrixOf(key, KeyLetters(Canonical(key)));
  }

  lemma MonarchyRows(m: string)
    requires m == "MONARCHYBDEFGIKLPQSTUVWXZ"
    ensures Rows(m) == ["MONAR", "CHYBD", "EFGIK", "LPQST", "UVWXZ"]
  {
    assert m[0..5] == "MONAR";
    assert m[5..10] == "CHYBD";
    assert m[10..15] == "EFGIK";
    assert m[15..20] == "LPQST";
    assert m[20..25] == "UVWXZ";
    assert Rows(m)[0] == m[0..5] && Rows(m)[1] == m[5..10] && Rows(m)[2] == m[10..15];
    assert Rows(m)[3] == m[15..20] && Rows(m)[4] == m[20..25];
  }

  /** The classic square for the key "MONARCHY". */
  lemma MonarchyTable(key: string)
    requires key == "MONARCHY"
    ensures TableOf(key) == ["MONAR", "CHYBD", "EFGIK", "LPQST", "UVWXZ"]
  {
    MonarchyMatrix(key);
    assert TableOf(key) == Rows(MatrixOf(key));
    MonarchyRows(MatrixOf(key));
  }

  // ---------------------------------------------------------------------
  // Looking a letter up
  // ---------------------------------------------------------------------

  /** The cells before position `p` in row-major order. */
  predicate Before(r: int, c: int, p: Position) {
    r < p.row || (r == p.row && c < p.col)
  }

  /** `p` is the first cell holding `ch`, or `None` when no cell holds it. */
  predicate IsFirstPosition(t: Table, ch: char, p: Option<Position>)
    requires IsGrid(t)
  {
    match p
    case None => forall r, c :: 0 <= r < 5 && 0 <= c < 5 ==> t[r][c] != ch
    case Some(q) =>
      0 <= q.row < 5 && 0 <= q.col < 5 && t[q.row][q.col] == ch &&
      forall r, c :: 0 <= r < 5 && 0 <= c < 5 && Before(r, c, q) ==> t[r][c] != ch
  }

  /** The first cell at or after cell (r, c), in row-major order, that holds `ch`. */
  function SearchFrom(t: Table, ch: char, r: int, c: int): (p: Option<Position>)
    requires IsGrid(t) && 0 <= r <= 5 && 0 <= c < 5
    ensures p.None? ==>
      forall r', c' :: 0 <= r' < 5 && 0 <= c' < 5 && !Before(r', c', Position(r, c)) ==> t[r'][c'] != ch
    ensures p.Some? ==>
      && 0 <= p.value.row < 5 && 0 <= p.value.col < 5
      && t[p.value.row][p.value.col] == ch
      && !Before(p.value.row, p.value.col, Position(r, c))
      && forall r', c' :: 0 <= r' < 5 && 0 <= c' < 5 && !Before(r', c', Position(r, c)) && Before(r', c', p.value) ==> t[r'][c'] != ch
    decreases 5 - r, 5 - c
  {
    if r == 5 then None
    else if t[r][c] == ch then Some(Position(r, c))
    else if c == 4 then SearchFrom(t, ch, r + 1, 0)
    else SearchFrom(t, ch, r, c + 1)
  }

  /** playfairFindPosition as a value. */
  function PositionOf(t: Table, ch: char): (p: Option<Position>)
    requires IsGrid(t)
    ensures IsFirstPosition(t, ch, p)
  {
    SearchFrom(t, ch, 0, 0)
  }

  /** At most one answer fits the description of the first cell. */
  lemma FirstPositionUnique(t: Table, ch: char, p1: Option<Position>, p2: Option<Position>)
    requires IsGrid(t)
    requires IsFirstPosition(t, ch, p1) && IsFirstPosition(t, ch, p2)
    ensures p1 == p2
  {
  }

  /** On a square without repeats every cell's letter is found at that cell. */
  lemma PositionOfCell(t: Table, r: int, c: int)
    requires ValidTable(t)
    requires 0 <= r < 5 && 0 <= c < 5
    ensures PositionOf(t, t[r][c]) == Some(Position(r, c))
  {
  }

  /** playfairFindPosition: row by row, column by column, stop at the first match. */
  method FindPosition(t: Table, ch: char) returns (pos: Option<Position>)
    requires IsGrid(t)
    ensures IsFirstPosition(t, ch, pos)
    ensures pos == PositionOf(t, ch)
  {
    for row := 0 to 5
      invariant forall r, c :: 0 <= r < row && 0 <= c < 5 ==> t[r][c] != ch
    {
      for col := 0 to 5
        invariant forall r, c :: 0 <= r < 5 && 0 <= c < 5 && Before(r, c, Position(row, col)) ==> t[r][c] != ch
      {
        if t[row][col] == ch {
          pos := Some(Position(row, col));
          FirstPositionUnique(t, ch, pos, PositionOf(t, ch));
          return;
        }
      }
    }
    pos := None;
    FirstPositionUnique(t, ch, pos, PositionOf(t, ch));
  }

  /** Every cell's letter is found somewhere (not necessarily at that cell). */
  lemma CellFound(t: Table, r: int, c: int)
    requires IsGrid(t)
    requires 0 <= r < 5 && 0 <= c < 5
    ensures PositionOf(t, t[r][c]).Some?
  {
  }

  /** Cell (r, c) of a key phrase's square is letter 5r + c of its matrix. */
  lemma TableCells(keyPhrase: string)
    ensures |MatrixOf(keyPhrase)| == 25
    ensures forall r, c :: 0 <= r < 5 && 0 <= c < 5 ==>
      TableOf(keyPhrase)[r][c] == MatrixOf(keyPhrase)[5 * r + c]
  {
    MatrixIsPermutation(keyPhrase);
    RowsCells(MatrixOf(keyPhrase));
  }

  /** Each letter of a matrix laid out in a square is found in the square. */
  lemma MatrixLetterFound(t: Table, m: string, i: int)
    requires IsGrid(t) && |m| == 25
    requires forall r, c :: 0 <= r < 5 && 0 <= c < 5 ==> t[r][c] == m[5 * r + c]
    requires 0 <= i < 25
    ensures PositionOf(t, m[i]).Some?
  {
    var r := if i < 5 then 0 else if i < 10 then 1 else if i < 15 then 2 else if i < 20 then 3 else 4;
    var c := i - 5 * r;
    assert t[r][c] == m[i];
    CellFound(t, r, c);
  }

  /** Every cell of the square of any key phrase is a table letter. */
  lemma CellLetters(keyPhrase: string)
    ensures forall r, c :: 0 <= r < 5 && 0 <= c < 5 ==> IsTableLetter(TableOf(keyPhrase)[r][c])
  {
    var t := TableOf(keyPhrase);
    var m := MatrixOf(keyPhrase);
    MatrixIsPermutation(keyPhrase);
    TableCells(keyPhrase);
    forall r, c | 0 <= r < 5 && 0 <= c < 5 ensures IsTableLetter(t[r][c]) {
      assert t[r][c] == m[5 * r + c] && m[5 * r + c] in m;
    }
  }

  /** The square of any key phrase holds exactly the table letters: those are the letters found in it. */
  lemma TableLetters(keyPhrase: string)
    ensures forall ch :: IsTableLetter(ch) <==> PositionOf(TableOf(keyPhrase), ch).Some?
  {
    var t := TableOf(keyPhrase);
    var m := MatrixOf(keyPhrase);
    CellLetters(keyPhrase);
    forall ch ensures IsTableLetter(ch) <==> PositionOf(t, ch).Some? {
      if IsTableLetter(ch) {
        assert ch in m by { MatrixIsPermutation(keyPhrase); }
        var i :| 0 <= i < |m| && m[i] == ch;
        TableCells(keyPhrase);
        MatrixLetterFound(t, m, i);
      }
    }
  }
}
