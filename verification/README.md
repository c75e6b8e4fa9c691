# Classical ciphers of `algorithms.js`, modelled and verified in Dafny

The model covers the three ciphers of `algorithms.js`:

- **Caesar shift** (`caesarEncrypt`, `caesarDecrypt`).
- **One-time pad** (`otpEncrypt`, `otpDecrypt`).
- **Playfair cipher**:
  - building the 5×5 key square (`playfairGenerateTable`);
  - looking a letter up (`playfairFindPosition`);
  - splitting the plaintext into digraphs (`playfairPreparePlaintext`);
  - the rules for one digraph (`playfairEncryptDigraph`, `playfairDecryptDigraph`);
  - the two whole-text operations (`playfairEncrypt`, `playfairDecrypt`).

The modules follow the shape of the source:

- **`Caesar`** (`caesar.dfy`): pure functions on strings. This mirrors the `split`/`map`/`join` expression of the source. JavaScript's truncating `%` is written out as `Rem26`. The shift is an `Option<int>`: `None` stands for a shift that `parseInt` turns into `NaN`.
- **`OneTimePad`** (`one_time_pad.dfy`): works on UTF-16 code units (`bv16`).
  - `otpEncrypt`'s loop is a method proved against the function `XorUnits`.
  - The thrown length error is a `Failure(LengthMismatch)` result.
- **`PlayfairText`** (`playfair_text.dfy`): the square's 25-letter alphabet and the string clean-ups the source applies:
  - `replace(/\s/g, '')`;
  - `toUpperCase()`;
  - `replace(/J/g, 'I')`;
  - `replace(/[^A-Z]/g, '')`;
  - `join('')`.
- **`PlayfairTable`** (`playfair_table.dfy`): the key square.
  - `playfairGenerateTable` is a method. Its three loops are the methods `AddKeyLetters`, `AddRemainingLetters` and `SplitRows`, and each is proved equal to a specification function.
  - The square is proved to be a permutation of the alphabet, laid out as the source describes.
  - `playfairFindPosition` is a method with the nested loop and early return, proved to return the first matching cell.
- **`Playfair`** (`playfair.dfy`):
  - the cursor loop of `playfairPreparePlaintext`;
  - the position rules of the two digraph functions and their round trips;
  - `playfairEncrypt`;
  - `playfairDecrypt` with its stride-two loop;
  - the end-to-end properties: the ciphertext is made of table letters, and deciphering it gives back the prepared plaintext with its padding X's.

Two worked examples in `explanations.js` disagree with the code of `algorithms.js`. The model follows the code:

- **One-time pad:** explanations.js:56 gives 72 ⊕ 88 = 24. The XOR at algorithms.js:58 gives 16 (`OneTimePad.HiExample`).
- **Playfair:** explanations.js:94-95 gives `HELLO` under `MONARCHY` as `YDRWQS`.
  - The rectangle rule at algorithms.js:174 maps the digraphs HE, LX, LO to CF, SU, PM (`Playfair.MonarchyHE`, `Playfair.MonarchyLX`, `Playfair.MonarchyLO`).
  - The square itself matches explanations.js:92 (`PlayfairTable.MonarchyTable`).

## Model

| member | source | states |
|---|---|---|
| Caesar.Rem26 | algorithms.js:14 | JavaScript's `%` by 26: the result lies strictly between -26 and 26, differs from the argument by a multiple of 26, and takes the sign of the argument |
| Caesar.NormalizeShift | algorithms.js:14 | `((shift % 26) + 26) % 26` lies in 0..25 and is the shift modulo 26 |
| Caesar.ModShift | algorithms.js:14 | shifting by the normalised shift lands on the same place modulo 26 as shifting by the raw shift |
| Caesar.LetterIndex | algorithms.js:18-22 | `code - base` of an ASCII letter lies in 0..25 |
| Caesar.ShiftChar | algorithms.js:16-25 | a letter stays a letter of the same case and moves `k` places along the alphabet, wrapping around; any other character is unchanged |
| Caesar.Encrypt | algorithms.js:9-26 | an unparsable shift returns the text; otherwise the length is kept, non-letters are unchanged, and each letter keeps its case and moves `shift mod 26` places |
| Caesar.Negate | algorithms.js:30 | definition of the unary minus on the parsed shift, with `NaN` staying `NaN`; `Caesar.Decrypt` states its effect |
| Caesar.Decrypt | algorithms.js:28-31 | the same with the letter moved `shift` places back; `None` still returns the text |
| Caesar.Restore | algorithms.js:14 | a letter moved `s` places and then `t` places, with `s + t` a multiple of 26, is back where it was |
| Caesar.DecryptEncrypt | algorithms.js:28-31 | decrypting an encryption under the same shift gives the text back, for every integer shift |
| Caesar.EncryptDecrypt | algorithms.js:28-31 | encrypting a decryption under the same shift gives the text back |
| Caesar.HelloExample | algorithms.js:9-26 | `HELLO` under shift 3 is `KHOOR` |
| Caesar.KhoorExample | algorithms.js:28-31 | `KHOOR` under shift 3 decrypts to `HELLO` |
| Caesar.WrapExample | algorithms.js:16-25 | `xyz` under shift 2 is `zab`: the shift wraps around and keeps lower case |
| OneTimePad.XorUnits | algorithms.js:55-60 | definition: position-wise exclusive or; `OneTimePad.Encrypt` states its value at each position and `OneTimePad.SelfInverse` that it undoes itself |
| OneTimePad.Encrypt | algorithms.js:49-63 | differing lengths fail with `LengthMismatch`; otherwise the result has the text's length, and position `i` is `text[i] xor key[i]` |
| OneTimePad.Decrypt | algorithms.js:65-68 | decryption is the same exclusive or, with the same length error |
| OneTimePad.SelfInverse | algorithms.js:58 | applying the exclusive or twice with the same key gives the text back |
| OneTimePad.RoundTrip | algorithms.js:49-68 | for equal lengths, encrypting and then decrypting yields the text; otherwise the length error |
| OneTimePad.HiExample | algorithms.js:58 | `HI` (72, 73) under key `XY` (88, 89) gives code units 16 and 16 |
| PlayfairText.AlphabetAt | algorithms.js:82 | letter `i` of the square's alphabet is a table letter, that is a capital other than J |
| PlayfairText.AlphabetLetters | algorithms.js:82 | the alphabet constant has 25 letters, A to I and then K to Z |
| PlayfairText.AlphabetFacts | algorithms.js:82 | the alphabet holds exactly the table letters, in strictly increasing order, without repeats |
| PlayfairText.StripWhitespace | algorithms.js:76 | `replace(/\s/g, '')` keeps exactly the characters that are not ECMAScript white space or line terminators, drops a single white-space character and keeps any other, and leaves a text without white space unchanged |
| PlayfairText.StripWhitespaceAppend | algorithms.js:76 | removing white space from a joined text is removing it from each part and joining; with the one-character case this makes it the order-keeping deletion of every white-space character |
| PlayfairText.UpperChar | algorithms.js:76 | `toUpperCase` of one character maps a lower-case ASCII letter to its capital (32 code points lower) and changes nothing else |
| PlayfairText.ToUpper | algorithms.js:76 | `toUpperCase()` keeps the length, leaves no lower-case ASCII letter, moves each of a to z 32 code points down to its capital, and leaves every other character where it is |
| PlayfairText.FoldJ | algorithms.js:79 | `replace(/J/g, 'I')` keeps the length, turns every J into I, and changes nothing else |
| PlayfairText.Canonical | algorithms.js:76-79 | the normal form of key phrases and ciphertexts has no J and leaves a text of table letters unchanged |
| PlayfairText.KeepLetters | algorithms.js:131 | `replace(/[^A-Z]/g, '')` keeps exactly the capitals A to Z: a single capital is kept and any other single character dropped |
| PlayfairText.KeepLettersAppend | algorithms.js:131 | filtering a joined text is filtering each part and joining; with the one-character case this makes it the order-keeping filter for A to Z |
| PlayfairText.Concat | algorithms.js:203 | definition of `join('')`: the parts one after another; `PlayfairText.ConcatAppend` characterises it |
| PlayfairText.ConcatAppend | algorithms.js:203 | joining two lists of parts is joining each list and putting the results together |
| PlayfairTable.KeyLetters | algorithms.js:89-94 | definition of the first loop's `matrix`; `PlayfairTable.KeyLettersInOrder` and `PlayfairTable.KeyLettersStep` characterise it |
| PlayfairTable.Unchosen | algorithms.js:97-101 | definition of the letters the second loop appends; `PlayfairTable.UnchosenInOrder` and `PlayfairTable.UnchosenStep` characterise it |
| PlayfairTable.MatrixOf | algorithms.js:85-101 | definition of the finished `matrix` string; `PlayfairTable.MatrixIsPermutation` and `PlayfairTable.TableLayout` characterise it |
| PlayfairTable.KeyLettersInOrder | algorithms.js:85-94 | the first loop's `matrix` has no repeats, holds exactly the table letters of the key phrase, and keeps them in the order they first occur |
| PlayfairTable.Letters | algorithms.js:86 | definition of the `used` set as the letters of a string; `PlayfairTable.AddKeyLetters` states that the loop's `used` is the set of the matrix it built |
| PlayfairTable.UnchosenInOrder | algorithms.js:96-101 | the second loop appends exactly the alphabet letters not used, in alphabet order |
| PlayfairTable.KeyLettersStep | algorithms.js:89-94 | one step of the first loop appends a character exactly when it is a table letter not used yet |
| PlayfairTable.UnchosenStep | algorithms.js:97-101 | one step of the second loop appends an alphabet letter exactly when it is not used |
| PlayfairTable.MatrixIsPermutation | algorithms.js:74-101 | the `matrix` string has 25 different table letters and is a permutation of the alphabet |
| PlayfairTable.Rows | algorithms.js:104-107 | cutting 25 letters into slices of five gives 5 rows of 5 |
| PlayfairTable.RowsCells | algorithms.js:104-107 | cell (r, c) is letter 5r + c of the matrix, and a matrix without repeats gives a square without repeats |
| PlayfairTable.ConcatRowsOf | algorithms.js:104-107 | joining the rows gives the matrix back |
| PlayfairTable.TableOf | algorithms.js:74-110 | the square is 5 by 5 with 25 different cells, and read row by row it is the matrix |
| PlayfairTable.TableLayout | algorithms.js:85-101 | the square read row by row starts with the key letters, and the rest is in strictly increasing alphabet order |
| PlayfairTable.GenerateTable | algorithms.js:74-110 | the method's three loops build exactly the square `TableOf` describes: 5 by 5, no repeats, a permutation of the alphabet |
| PlayfairTable.AddKeyLetters | algorithms.js:85-94 | the first loop leaves the key letters in `matrix` and exactly those letters in `used` |
| PlayfairTable.AddRemainingLetters | algorithms.js:96-101 | the second loop appends the unused alphabet letters in order |
| PlayfairTable.SplitRows | algorithms.js:103-107 | the third loop pushes the five slices of five |
| PlayfairTable.KeyLettersOfDistinct | algorithms.js:89-94 | a key of distinct table letters is taken over unchanged |
| PlayfairTable.UnchosenByRows | algorithms.js:96-101 | the remaining letters of the alphabet are those of its five rows of five, joined |
| PlayfairTable.MonarchyKeyIsCanonical | algorithms.js:76-79 | `MONARCHY` is already in normal form: distinct table letters, unchanged by the clean-up |
| PlayfairTable.MonarchyUsed | algorithms.js:86-92 | after the key loop, `used` holds the letters M, O, N, A, R, C, H, Y |
| PlayfairTable.MonarchyKeyLetters | algorithms.js:76-94 | the key phrase `MONARCHY` contributes the key letters `MONARCHY` |
| PlayfairTable.MonarchyRest | algorithms.js:96-101 | after `MONARCHY` the remaining letters are `BDEFGIKLPQSTUVWXZ` |
| PlayfairTable.MonarchyMatrix | algorithms.js:74-101 | the matrix of `MONARCHY` is `MONARCHYBDEFGIKLPQSTUVWXZ` |
| PlayfairTable.MonarchyRows | algorithms.js:104-107 | that matrix cut into rows gives `MONAR / CHYBD / EFGIK / LPQST / UVWXZ` |
| PlayfairTable.MonarchyTable | algorithms.js:74-110 | the square of `MONARCHY` has rows `MONAR / CHYBD / EFGIK / LPQST / UVWXZ` |
| PlayfairTable.SearchFrom | algorithms.js:113-118 | the scan from a cell onwards returns the first cell in row-major order that holds the letter, or `None` when no later cell does |
| PlayfairTable.PositionOf | algorithms.js:112-121 | the lookup returns the first matching cell, or `None` when no cell holds the letter |
| PlayfairTable.FirstPositionUnique | algorithms.js:112-121 | at most one answer is the first matching cell |
| PlayfairTable.PositionOfCell | algorithms.js:112-121 | in a square without repeats each cell's letter is found at that very cell |
| PlayfairTable.FindPosition | algorithms.js:112-121 | the nested loop with early return yields the first matching cell, or `None` |
| PlayfairTable.CellFound | algorithms.js:112-121 | every cell's letter is found somewhere in the square |
| PlayfairTable.TableCells | algorithms.js:104-107 | cell (r, c) of a key phrase's square is letter 5r + c of its matrix |
| PlayfairTable.MatrixLetterFound | algorithms.js:112-121 | every letter of the matrix is found in the square laid out from it |
| PlayfairTable.CellLetters | algorithms.js:74-110 | every cell of every square is a table letter |
| PlayfairTable.TableLetters | algorithms.js:74-121 | a character is found in the square exactly when it is a table letter, so J and everything that is not a capital are absent |
| Playfair.CleanPlaintext | algorithms.js:125-131 | the cleaned plaintext has only table letters |
| Playfair.Digraphs | algorithms.js:134-150 | every digraph has two characters, taken from the text or an inserted X; equal letters only as XX; the text has at most twice as many characters as there are digraphs, and at least as many |
| Playfair.DigraphsFrom | algorithms.js:137-147 | one step of the cursor: a doubled letter, or a final X, is paired with X and the cursor moves by one; any other letter is paired with the next letter, or with X when it is the last one, and the cursor moves by two |
| Playfair.PreparePlaintext | algorithms.js:123-153 | preparing the plaintext gives exactly the digraphs of the cleaned text |
| Playfair.SplitDigraphs | algorithms.js:134-150 | the cursor loop, moving one or two places per step, produces exactly `Digraphs` of the text it walks |
| Playfair.DigraphsPadding | algorithms.js:134-150 | joining the digraphs gives the cleaned text with only X's inserted: every character of the text is consumed, in order |
| Playfair.PreparedLetters | algorithms.js:123-153 | every prepared digraph is two table letters, and two equal letters only as XX |
| Playfair.EncryptPositions | algorithms.js:161-174 | the encryption rule maps two cells of the square to two cells of the square |
| Playfair.DecryptPositions | algorithms.js:183-196 | the decryption rule maps two cells of the square to two cells of the square |
| Playfair.Wrap | algorithms.js:163-192 | `(i + 1) % 5` and `(i + 4) % 5` are the next and the previous place around a row or column of five |
| Playfair.PositionsRoundTrip | algorithms.js:155-196 | the decryption rule (left, up, swap columns) undoes the encryption rule (right, down, swap columns) |
| Playfair.PositionsRoundTripBack | algorithms.js:155-196 | the encryption rule undoes the decryption rule |
| Playfair.PositionsMove | algorithms.js:161-174 | no encryption rule leaves a letter in its cell |
| Playfair.EncryptDigraph | algorithms.js:155-175 | a digraph with a character not in the square, or one shorter than two characters, is returned unchanged; otherwise the result is two letters of the square |
| Playfair.DecryptDigraph | algorithms.js:177-197 | the same for decryption |
| Playfair.DecryptEncryptDigraph | algorithms.js:155-197 | on a square without repeats, decrypting an encrypted two-character string gives it back, whether or not its letters are in the square |
| Playfair.EncryptDecryptDigraph | algorithms.js:155-197 | on a square without repeats, encrypting a decrypted two-character string gives it back |
| Playfair.NoLetterFixed | algorithms.js:155-175 | on a square without repeats, neither letter of a found digraph is enciphered as itself |
| Playfair.EncryptAll | algorithms.js:203 | the `map` keeps the number of digraphs, and pairs stay pairs |
| Playfair.DecryptAll | algorithms.js:219 | the same for decryption |
| Playfair.Pairs | algorithms.js:212-217 | the ciphertext is cut into `|s| / 2` pairs whose join is the text without a final unpaired character |
| Playfair.PairsOfConcat | algorithms.js:212-217 | cutting a join of pairs gives the pairs back |
| Playfair.PairsFrom | algorithms.js:213-216 | one step of the stride-two loop: the pair at `i`, then the pairs from `i + 2` |
| Playfair.CutPairs | algorithms.js:212-217 | the stride-two loop produces exactly those pairs |
| Playfair.EncryptText | algorithms.js:199-204 | definition of `playfairEncrypt`'s result; `Playfair.CiphertextLetters` and `Playfair.RoundTrip` state its properties |
| Playfair.DecryptText | algorithms.js:206-220 | definition of `playfairDecrypt`'s result; `Playfair.RoundTrip` states that it undoes `Playfair.EncryptText` |
| Playfair.Encrypt | algorithms.js:199-204 | `playfairEncrypt` is the join of the enciphered prepared digraphs under the key phrase's square |
| Playfair.Decrypt | algorithms.js:206-220 | `playfairDecrypt` is the join of the deciphered pairs of the canonical ciphertext |
| Playfair.ConcatTableLetters | algorithms.js:203 | joining strings of table letters gives a string of table letters |
| Playfair.EncryptedLetters | algorithms.js:155-175 | a digraph of table letters enciphers to table letters |
| Playfair.PairLetters | algorithms.js:137-149 | a digraph of letters of the cleaned text and X's is made of table letters |
| Playfair.EncryptAllLetters | algorithms.js:203 | enciphering digraphs of table letters gives digraphs of table letters |
| Playfair.CiphertextLetters | algorithms.js:199-204 | the ciphertext consists of table letters only, two per prepared digraph |
| Playfair.RoundTrip | algorithms.js:199-220 | deciphering a ciphertext under the same key phrase gives the joined prepared digraphs, which is the cleaned plaintext with its padding X's kept |
| Playfair.KeepCapitals | algorithms.js:131 | a text of capitals passes `replace(/[^A-Z]/g, '')` unchanged |
| Playfair.CleanOfTableLetters | algorithms.js:123-131 | a text of table letters is left unchanged by the preparation's clean-up |
| Playfair.HelloDigraphs | algorithms.js:134-150 | `HELLO` splits into `HE`, `LX`, `LO` |
| Playfair.EncryptRowRule | algorithms.js:161-165 | two letters of one row are each replaced by the letter to their right, the last column wrapping to the first |
| Playfair.EncryptColumnRule | algorithms.js:167-171 | two letters of one column, in different rows, are each replaced by the letter below, the last row wrapping to the first |
| Playfair.EncryptRectangleRule | algorithms.js:173-174 | two letters in different rows and columns each take the other's column in their own row |
| Playfair.DecryptRowRule | algorithms.js:183-187 | deciphering two letters of one row takes the letter to the left of each, wrapping around |
| Playfair.DecryptColumnRule | algorithms.js:189-193 | deciphering two letters of one column takes the letter above each, wrapping around |
| Playfair.DecryptRectangleRule | algorithms.js:195-196 | deciphering a rectangle swaps the columns exactly as enciphering does |
| Playfair.MonarchyCells | algorithms.js:74-110 | the cells of the `MONARCHY` square that enciphering `HELLO` visits |
| Playfair.MonarchyHE | algorithms.js:155-175 | under `MONARCHY`, HE enciphers to CF |
| Playfair.MonarchyLX | algorithms.js:155-175 | under `MONARCHY`, LX enciphers to SU |
| Playfair.MonarchyLO | algorithms.js:155-175 | under `MONARCHY`, LO enciphers to PM |

## Left out

- `parseInt` (algorithms.js:10) is not modelled. `Caesar.Encrypt` takes the already-parsed shift as an `Option<int>`.
- Caesar.Decrypt: takes the same parsed shift and negates it. The source negates the raw argument with unary minus, which uses `Number`, before `parseInt` runs. For an argument such as `"3abc"`, `parseInt` gives 3 but `-"3abc"` is `NaN`, so the source's decryption returns the text unchanged. A numeric string in exponent form, such as `"1e3"`, gives a different finite shift. `parseInt` reads 1 for encryption, but `-"1e3"` is -1000, so decryption shifts by -1000, which is 14 modulo 26, and the round trip fails. Such arguments are outside the model.
- `parseInt` returns a double, and the model's shift is an exact integer. In the source, a digit string beyond 2^53 is rounded when parsed. A Number argument of 10^21 or more becomes a string in exponent form (`"1e+21"`), so `parseInt` reads only its leading digits. These roundings are not modelled. For finite shifts, the `%` and `+ 26` at algorithms.js:14 are exact on doubles and need no separate model.
- Caesar.Encrypt: `parseInt` can return plus or minus `Infinity` for a digit string of about 309 digits or more, and the `Option<int>` shift cannot represent it. Such a shift passes the `isNaN` test at algorithms.js:11. `Infinity % 26` is `NaN` at line 14, so the source maps every letter to U+0000. For the same argument `caesarDecrypt` returns the text unchanged, because `parseInt("-Infinity")` is `NaN`.
- `toUpperCase()` (algorithms.js:76, 125, 210) is modelled for ASCII only. Unicode case mappings that change length (ß to SS) or map non-ASCII characters onto ASCII capitals (dotless ı to I) are left out.
- Strings are sequences of `char`. The Playfair and Caesar code indexes UTF-16 code units, so characters outside the Basic Multilingual Plane are not modelled as surrogate pairs. The one-time pad does work on `bv16` code units.
- `otpGenerateKey` (algorithms.js:37-47) is left out: it draws from `Math.random`.
- `displayPlayfairTable` (algorithms.js:226-242) is left out: it only builds HTML.
- Decryption removes no padding X's. The code has no such step, so none is modelled, and `Playfair.RoundTrip` states the padded result.
- `HELLO` under `MONARCHY` has no single lemma for the whole ciphertext `CFSUPM`. Its parts are proved separately: the split into HE LX LO, the square, and each digraph's result.

The line ranges in the table refer to `algorithms.js`.
