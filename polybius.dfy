/** The Polybius square cipher: a 5x5 table of the letters A-Z without J.
    Each letter is enciphered as its row and column digits `1`-`5`; lower
    case is folded to upper case, J is enciphered as I, and every other
    character is dropped. Deciphering reads the digits back in pairs. */
module Polybius {
  import opened CText

  /** The table's letters in row-major order. */
  const Alphabet: string := "ABCDEFGHIKLMNOPQRSTUVWXYZ"

  /** The letter at row-major position `k`: A-I, then K-Z. */
  function Letter(k: nat): char
    requires k < 25
  {
    ('A' as int + k + (if k >= 9 then 1 else 0)) as char
  }

  /** The row-major position of an upper-case letter other than J. */
  function Position(c: char): (k: nat)
    requires IsUpper(c) && c != 'J'
    ensures k < 25
  {
    c as int - 'A' as int - (if c > 'J' then 1 else 0)
  }

  /** The digit `1`-`5` naming row or column `d`. */
  function Digit(d: nat): char
    requires d < 5
  {
    ('1' as int + d) as char
  }

  /** The alphabet literal spells out `Letter` position by position. */
  lemma AlphabetLetters()
    ensures |Alphabet| == 25
    ensures forall k :: 0 <= k < 25 ==> Alphabet[k] == Letter(k)
  {
    forall k | 0 <= k < 25
      ensures Alphabet[k] == Letter(k)
    {
      if k < 13 {
        if k < 6 {
          assert k in {0, 1, 2, 3, 4, 5};
        } else {
          assert k in {6, 7, 8, 9, 10, 11, 12};
        }
      } else if k < 19 {
        assert k in {13, 14, 15, 16, 17, 18};
      } else {
        assert k in {19, 20, 21, 22, 23, 24};
      }
    }
  }

  /** Every cell holds an upper-case letter other than J, at its own
      position. */
  lemma LetterPosition(k: nat)
    requires k < 25
    ensures IsUpper(Letter(k)) && Letter(k) != 'J' && Position(Letter(k)) == k
  {
  }

  /** Every upper-case letter other than J is in the cell at its position. */
  lemma PositionLetter(c: char)
    requires IsUpper(c) && c != 'J'
    ensures Letter(Position(c)) == c
  {
  }

  /** The table holds 25 distinct letters and no J. */
  lemma AlphabetDistinct()
    ensures forall i, j :: 0 <= i < j < 25 ==> Alphabet[i] != Alphabet[j]
    ensures forall i :: 0 <= i < 25 ==> IsUpper(Alphabet[i]) && Alphabet[i] != 'J'
  {
    AlphabetLetters();
    forall i, j | 0 <= i < j < 25
      ensures Alphabet[i] != Alphabet[j]
    {
      LetterPosition(i);
      LetterPosition(j);
    }
    forall i | 0 <= i < 25
      ensures IsUpper(Alphabet[i]) && Alphabet[i] != 'J'
    {
      LetterPosition(i);
    }
  }

  /** Splitting a position into row and column. */
  lemma RowColumn(row: nat, col: nat)
    requires col < 5
    ensures (5 * row + col) / 5 == row && (5 * row + col) % 5 == col
  {
  }

  // ---------------------------------------------------------------------
  // Enciphering

  /** The letter a plaintext character stands for: upper case, J as I. */
  function Normalize(c: char): char {
    var u := ToUpper(c);
    if u == 'J' then 'I' else u
  }

  /** The characters that are enciphered rather than dropped. */
  predicate Encodable(c: char) {
    IsUpper(ToUpper(c))
  }

  /** The digit pair for one plaintext character, or nothing. */
  function EncodeChar(c: char): string {
    if Encodable(c) then
      var k := Position(Normalize(c));
      [Digit(k / 5), Digit(k % 5)]
    else []
  }

  /** The ciphertext `pbEncode` writes for `s`. */
  function Ciphertext(s: string): string {
    if s == [] then [] else Ciphertext(s[..|s| - 1]) + EncodeChar(s[|s| - 1])
  }

  /** The letters of `s` as the cipher sees them. */
  function Letters(s: string): string {
    if s == [] then []
    else Letters(s[..|s| - 1]) + (if Encodable(s[|s| - 1]) then [Normalize(s[|s| - 1])] else [])
  }

  /** A string of digit pairs each naming a table cell. */
  predicate WellFormed(c: string) {
    |c| % 2 == 0 && forall i :: 0 <= i < |c| ==> '1' <= c[i] <= '5'
  }

  lemma {:induction false} CiphertextAppend(a: string, b: string)
    ensures Ciphertext(a + b) == Ciphertext(a) + Ciphertext(b)
    decreases |b|
  {
    if b == [] {
      assert a + b == a;
    } else {
      var b', x := b[..|b| - 1], b[|b| - 1];
      PrefixOfConcat(a, b, |b| - 1);
      assert (a + b)[|a + b| - 1] == x;
      CiphertextAppend(a, b');
      calc {
        Ciphertext(a + b);
        Ciphertext(a + b') + EncodeChar(x);
        Ciphertext(a) + Ciphertext(b') + EncodeChar(x);
        Ciphertext(a) + Ciphertext(b);
      }
    }
  }

  /** Every letter becomes exactly two digits `1`-`5` and every other
      character nothing. */
  lemma {:induction false} CiphertextIsDigitPairs(s: string)
    ensures |Ciphertext(s)| == 2 * |Letters(s)|
    ensures WellFormed(Ciphertext(s))
    decreases |s|
  {
    if s != [] {
      CiphertextIsDigitPairs(s[..|s| - 1]);
    }
  }

  /** Enciphering depends only on the letters: it ignores case and
      non-letters, and treats J as I. */
  lemma {:induction false} CiphertextOfLetters(s: string)
    ensures Ciphertext(Letters(s)) == Ciphertext(s)
    decreases |s|
  {
    if s != [] {
      var s' := s[..|s| - 1];
      var c := s[|s| - 1];
      CiphertextOfLetters(s');
      if Encodable(c) {
        CiphertextAppend(Letters(s'), [Normalize(c)]);
        assert [Normalize(c)][..0] == [];
      } else {
        assert Letters(s) == Letters(s');
      }
    }
  }

  /** Case and J/I folding for single characters. */
  lemma EncodeCharFolds(c: char)
    ensures EncodeChar(c) == EncodeChar(ToUpper(c))
    ensures EncodeChar('J') == EncodeChar('j') == EncodeChar('I') == EncodeChar('i')
  {
  }

  // ---------------------------------------------------------------------
  // Deciphering

  /** One ciphertext pair: the letter in row `a`, column `b` when both are
      digits naming a cell, and nothing otherwise. */
  function DecodePair(a: char, b: char): string {
    if !IsDigit(a) || !IsDigit(b) then []
    else
      var row := a as int - '1' as int;
      var col := b as int - '1' as int;
      if row < 0 || row >= 5 || col < 0 || col >= 5 then []
      else [Letter(5 * row + col)]
  }

  /** The plaintext `pbDecode` writes for `c`, read pair by pair from the
      end; it is only ever applied to even-length ciphertext, where the
      pairs are those `pbDecode` reads from the front. */
  function Plaintext(c: string): string
  {
    if |c| < 2 then [] else Plaintext(c[..|c| - 2]) + DecodePair(c[|c| - 2], c[|c| - 1])
  }

  lemma {:induction false} PlaintextAppend(a: string, b: string)
    requires |a| % 2 == 0 && |b| % 2 == 0
    ensures Plaintext(a + b) == Plaintext(a) + Plaintext(b)
    decreases |b|
  {
    if b == [] {
      assert a + b == a;
    } else {
      var b', x, y := b[..|b| - 2], b[|b| - 2], b[|b| - 1];
      PrefixOfConcat(a, b, |b| - 2);
      assert (a + b)[|a + b| - 2] == x && (a + b)[|a + b| - 1] == y;
      PlaintextAppend(a, b');
      calc {
        Plaintext(a + b);
        Plaintext(a + b') + DecodePair(x, y);
        Plaintext(a) + Plaintext(b') + DecodePair(x, y);
        Plaintext(a) + Plaintext(b);
      }
    }
  }

  /** One character's digit pair deciphers to its letter. */
  lemma PlaintextOfEncodeChar(c: char)
    ensures Plaintext(EncodeChar(c)) == (if Encodable(c) then [Normalize(c)] else [])
  {
    if Encodable(c) {
      var k := Position(Normalize(c));
      PositionLetter(Normalize(c));
      RowColumn(k / 5, k % 5);
      var e := [Digit(k / 5), Digit(k % 5)];
      assert e[..0] == [];
      assert Plaintext(e) == DecodePair(e[0], e[1]);
    }
  }

  /** One well-formed pair enciphers back to itself. */
  lemma EncodeCharOfPair(a: char, b: char)
    requires '1' <= a <= '5' && '1' <= b <= '5'
    ensures |DecodePair(a, b)| == 1 && EncodeChar(DecodePair(a, b)[0]) == [a, b]
  {
    var row := a as int - '1' as int;
    var col := b as int - '1' as int;
    RowColumn(row, col);
    LetterPosition(5 * row + col);
  }

  /** Deciphering the ciphertext gives back the letters: upper case, with
      J replaced by I and non-letters gone. */
  lemma {:induction false} DecipherEncipher(s: string)
    ensures Plaintext(Ciphertext(s)) == Letters(s)
    decreases |s|
  {
    if s != [] {
      var s' := s[..|s| - 1];
      var c := s[|s| - 1];
      DecipherEncipher(s');
      CiphertextIsDigitPairs(s');
      assert |EncodeChar(c)| == 0 || |EncodeChar(c)| == 2;
      PlaintextAppend(Ciphertext(s'), EncodeChar(c));
      PlaintextOfEncodeChar(c);
      calc {
        Plaintext(Ciphertext(s));
        Plaintext(Ciphertext(s') + EncodeChar(c));
        Plaintext(Ciphertext(s')) + Plaintext(EncodeChar(c));
        Letters(s);
      }
    }
  }

  /** Enciphering the plaintext of well-formed ciphertext gives it back,
      since the table is a bijection onto its 25 letters. */
  lemma {:induction false} EncipherDecipher(c: string)
    requires WellFormed(c)
    ensures Ciphertext(Plaintext(c)) == c
    decreases |c|
  {
    if c != [] {
      var c' := c[..|c| - 2];
      var a, b := c[|c| - 2], c[|c| - 1];
      assert WellFormed(c');
      EncipherDecipher(c');
      EncodeCharOfPair(a, b);
      var p := DecodePair(a, b);
      CiphertextAppend(Plaintext(c'), p);
      assert p[..0] == [];
      assert Ciphertext(p) == EncodeChar(p[0]);
      LastPair(c);
    }
  }

  lemma PrefixOfConcat<T>(a: seq<T>, b: seq<T>, k: nat)
    requires k <= |b|
    ensures (a + b)[..|a| + k] == a + b[..k]
  {
  }

  lemma PrefixSplit<T>(s: seq<T>, i: nat, j: nat)
    requires i <= j <= |s|
    ensures s[..j][..i] == s[..i] && s[..j] + s[j..] == s
  {
  }

  lemma LastPair(c: string)
    requires |c| >= 2
    ensures c == c[..|c| - 2] + [c[|c| - 2], c[|c| - 1]]
  {
  }

  /** The loop's folding of one character agrees with `Normalize`. */
  lemma NormalizeStep(x: char, c: char)
    requires 'A' <= ToUpper(x) <= 'Z'
    requires c == if ToUpper(x) == 'J' then 'I' else ToUpper(x)
    ensures Encodable(x) && c == Normalize(x) && IsUpper(c) && c != 'J'
    ensures EncodeChar(c) == EncodeChar(x)
  {
  }

  /** One more plaintext character extends the ciphertext by its pair. */
  lemma CiphertextStep(s: string, i: nat)
    requires i < |s|
    ensures Ciphertext(s[..i + 1]) == Ciphertext(s[..i]) + EncodeChar(s[i])
    ensures |Ciphertext(s[..i + 1])| <= |Ciphertext(s)|
  {
    PrefixSplit(s, i, i + 1);
    CiphertextAppend(s[..i + 1], s[i + 1..]);
  }

  /** One more ciphertext pair extends the plaintext by its letter. */
  lemma PlaintextStep(c: string, i: nat)
    requires i + 2 <= |c| && i % 2 == 0 && |c| % 2 == 0
    ensures Plaintext(c[..i + 2]) == Plaintext(c[..i]) + DecodePair(c[i], c[i + 1])
    ensures |Plaintext(c[..i + 2])| <= |Plaintext(c)|
  {
    PrefixSplit(c, i, i + 2);
    PlaintextAppend(c[..i + 2], c[i + 2..]);
  }

  // ---------------------------------------------------------------------
  // The cipher object

  /** `PolybiusCipher_t`: the 5x5 table. */
  class PolybiusCipher {
    const table: array2<char>

    /** The table holds the alphabet row by row. */
    ghost predicate Standard()
      reads table
    {
      table.Length0 == 5 && table.Length1 == 5 &&
      forall r, c :: 0 <= r < 5 && 0 <= c < 5 ==> table[r, c] == Letter(5 * r + c)
    }

    constructor ()
      ensures fresh(table) && table.Length0 == 5 && table.Length1 == 5
    {
      table := new char[5, 5];
    }

    /** `pbInitCipher`: fills the table row by row from the alphabet. */
    method InitCipher()
      requires table.Length0 == 5 && table.Length1 == 5
      modifies table
      ensures Standard()
    {
      var index := 0;
      var row := 0;
      while row < 5
        invariant 0 <= row <= 5 && index == 5 * row
        invariant forall r, c :: 0 <= r < row && 0 <= c < 5 ==> table[r, c] == Alphabet[5 * r + c]
      {
        var col := 0;
        while col < 5
          invariant 0 <= col <= 5 && index == 5 * row + col
          invariant forall r, c :: 0 <= r < row && 0 <= c < 5 ==> table[r, c] == Alphabet[5 * r + c]
          invariant forall c :: 0 <= c < col ==> table[row, c] == Alphabet[5 * row + c]
        {
          table[row, col] := Alphabet[index];
          index := index + 1;
          col := col + 1;
        }
        row := row + 1;
      }
      AlphabetLetters();
    }

    /** `pbEncode`: writes the ciphertext of `plaintext` and a NUL into
        `encoded`, leaving the rest of the buffer alone. */
    method Encode(plaintext: string, encoded: array<char>)
      requires Standard() && '\0' !in plaintext
      requires |Ciphertext(plaintext)| < encoded.Length
      modifies encoded
      ensures encoded[..|Ciphertext(plaintext)| + 1] == Ciphertext(plaintext) + ['\0']
      ensures encoded[|Ciphertext(plaintext)| + 1..] == old(encoded[|Ciphertext(plaintext)| + 1..])
    {
      ghost var out: string := [];
      var index := 0;
      var i := 0;
      while i < |plaintext|
        invariant 0 <= i <= |plaintext|
        invariant out == Ciphertext(plaintext[..i]) && index == |out| < encoded.Length
        invariant encoded[..index] == out
        invariant forall j :: index <= j < encoded.Length ==> encoded[j] == old(encoded[j])
      {
        CiphertextStep(plaintext, i);
        var c := ToUpper(plaintext[i]);
        if 'A' <= c <= 'Z' {
          if c == 'J' {
            c := 'I';
          }
          NormalizeStep(plaintext[i], c);
          EncodeLetter(c, encoded, index);
          index := index + 2;
        } else {
          assert EncodeChar(plaintext[i]) == [];
        }
        out := out + EncodeChar(plaintext[i]);
        i := i + 1;
      }
      assert plaintext[..i] == plaintext;
      encoded[index] := '\0';
    }

    /** The table search for one letter: at the cell holding `c`, its row
        and column digits are written at `index`. The inner loop stops at
        the match; the outer one runs on over the remaining rows. */
    method EncodeLetter(c: char, encoded: array<char>, index: nat)
      requires Standard() && IsUpper(c) && c != 'J'
      requires index + 2 <= encoded.Length
      modifies encoded
      ensures encoded[..index + 2] == old(encoded[..index]) + EncodeChar(c)
      ensures forall j :: index + 2 <= j < encoded.Length ==> encoded[j] == old(encoded[j])
    {
      ghost var k := Position(c);
      PositionLetter(c);
      RowColumn(k / 5, k % 5);
      var row := 0;
      while row < 5
        invariant 0 <= row <= 5
        invariant row <= k / 5 ==> encoded[..] == old(encoded[..])
        invariant row > k / 5 ==> encoded[..index + 2] == old(encoded[..index]) + EncodeChar(c)
        invariant forall j :: index + 2 <= j < encoded.Length ==> encoded[j] == old(encoded[j])
      {
        var col := 0;
        while col < 5
          invariant 0 <= col <= 5
          invariant row == k / 5 ==> col <= k % 5
          invariant row <= k / 5 ==> encoded[..] == old(encoded[..])
          invariant row > k / 5 ==> encoded[..index + 2] == old(encoded[..index]) + EncodeChar(c)
          invariant forall j :: index + 2 <= j < encoded.Length ==> encoded[j] == old(encoded[j])
        {
          if table[row, col] == c {
            RowColumn(row, col);
            LetterPosition(5 * row + col);
            encoded[index] := Digit(row);
            encoded[index + 1] := Digit(col);
            break;
          }
          col := col + 1;
        }
        row := row + 1;
      }
    }

    /** `pbDecode`: writes the plaintext of `ciphertext` and a NUL into
        `decoded`, leaving the rest of the buffer alone. The pairs are read
        two characters at a time, so the ciphertext must have even length:
        with odd length the last step reads the terminator as a pair's
        second character and then steps past it. */
    method Decode(ciphertext: string, decoded: array<char>)
      requires Standard() && '\0' !in ciphertext && |ciphertext| % 2 == 0
      requires |Plaintext(ciphertext)| < decoded.Length
      modifies decoded
      ensures decoded[..|Plaintext(ciphertext)| + 1] == Plaintext(ciphertext) + ['\0']
      ensures decoded[|Plaintext(ciphertext)| + 1..] == old(decoded[|Plaintext(ciphertext)| + 1..])
    {
      ghost var pairs := |ciphertext| / 2;
      ghost var k := 0;
      ghost var out: string := [];
      var index := 0;
      var i := 0;
      while i < |ciphertext|
        invariant 0 <= k <= pairs && i == 2 * k && |ciphertext| == 2 * pairs
        invariant out == Plaintext(ciphertext[..i]) && index == |out| < decoded.Length
        invariant decoded[..index] == out
        invariant forall j :: index <= j < decoded.Length ==> decoded[j] == old(decoded[j])
      {
        PlaintextStep(ciphertext, i);
        ghost var p := DecodePair(ciphertext[i], ciphertext[i + 1]);
        index := DecodeStep(ciphertext[i], ciphertext[i + 1], decoded, index, out);
        out := out + p;
        i := i + 2;
        k := k + 1;
      }
      assert ciphertext[..i] == ciphertext;
      decoded[index] := '\0';
    }

    /** One step of `pbDecode`: when `a` and `b` are digits naming a cell,
        that cell's letter is written at `index` and `index` moves past it;
        otherwise nothing is written. `out` is what the buffer holds before
        `index`, and afterwards it holds `out` followed by the pair's
        plaintext. */
    method DecodeStep(a: char, b: char, decoded: array<char>, index: nat, ghost out: string) returns (next: nat)
      requires Standard() && index == |out| && index < decoded.Length
      requires decoded[..index] == out
      modifies decoded
      ensures next == index + |DecodePair(a, b)| && next <= index + 1
      ensures decoded[..next] == out + DecodePair(a, b)
      ensures forall j :: next <= j < decoded.Length ==> decoded[j] == old(decoded[j])
    {
      next := index;
      if IsDigit(a) && IsDigit(b) {
        var row := a as int - '1' as int;
        var col := b as int - '1' as int;
        if 0 <= row < 5 && 0 <= col < 5 {
          decoded[index] := table[row, col];
          next := index + 1;
        }
      }
    }
  }
}
