/** The random string program: ten thousand lines of upper-case letters,
    each line 5 to 10 characters long, drawn from the shared generator
    after seeding it with the clock. The clock reading and the outcome of
    opening the output file are parameters; the file is the sequence of
    lines returned. */
module RandomStrings {
  import opened CText
  import opened Msws

  const NumStrings: nat := 10000
  const MaxStringLength: nat := 10
  const MinStringLength: nat := 5

  /** `generateRandomChar`: `'A'` plus a draw from `0..25`. */
  function RandomChar(g: Generator): (r: (char, Generator))
    ensures IsUpper(r.0)
  {
    var (v, g1) := Draw(g, 0, 25);
    (('A' as int + v) as char, g1)
  }

  /** The `n` characters `generateRandomString` writes, one draw each. */
  function RandomString(g: Generator, n: nat): (r: (string, Generator))
    ensures |r.0| == n
    decreases n
  {
    if n == 0 then ([], g)
    else
      var (c, g1) := RandomChar(g);
      var (s, g2) := RandomString(g1, n - 1);
      ([c] + s, g2)
  }

  /** Every character drawn is an upper-case letter. */
  lemma {:induction false} RandomStringUpper(g: Generator, n: nat)
    ensures forall i :: 0 <= i < n ==> IsUpper(RandomString(g, n).0[i])
    decreases n
  {
    if n > 0 {
      RandomStringUpper(RandomChar(g).1, n - 1);
    }
  }

  /** The lines the program writes: for each, a length from `5..10` and
      then that many letters. */
  function Lines(g: Generator, k: nat): (seq<string>, Generator)
    decreases k
  {
    if k == 0 then ([], g)
    else
      var (n, g1) := Draw(g, MinStringLength, MaxStringLength);
      var (s, g2) := RandomString(g1, n);
      var (rest, g3) := Lines(g2, k - 1);
      ([s] + rest, g3)
  }

  /** There are `k` lines, each of 5 to 10 upper-case letters. */
  lemma {:induction false} LinesShape(g: Generator, k: nat)
    ensures |Lines(g, k).0| == k
    ensures forall i :: 0 <= i < k ==>
              MinStringLength <= |Lines(g, k).0[i]| <= MaxStringLength &&
              forall j :: 0 <= j < |Lines(g, k).0[i]| ==> IsUpper(Lines(g, k).0[i][j])
    decreases k
  {
    if k > 0 {
      var (n, g1) := Draw(g, MinStringLength, MaxStringLength);
      var (s, g2) := RandomString(g1, n);
      LinesShape(g2, k - 1);
      RandomStringUpper(g1, n);
      LinesStep(g, k);
      var lines := Lines(g, k).0;
      assert lines == [s] + Lines(g2, k - 1).0;
      forall i | 0 <= i < k
        ensures MinStringLength <= |lines[i]| <= MaxStringLength
        ensures forall j :: 0 <= j < |lines[i]| ==> IsUpper(lines[i][j])
      {
        if i > 0 {
          assert lines[i] == Lines(g2, k - 1).0[i - 1];
        }
      }
    }
  }

  /** Writing `m` letters and then `n` more is writing `m + n` letters. */
  lemma {:induction false} RandomStringCompose(g: Generator, m: nat, n: nat)
    ensures var (a, g1) := RandomString(g, m);
            var (b, g2) := RandomString(g1, n);
            RandomString(g, m + n) == (a + b, g2)
    decreases m
  {
    if m > 0 {
      var (c, g1) := RandomChar(g);
      RandomStringCompose(g1, m - 1, n);
      var (a, h) := RandomString(g1, m - 1);
      var b := RandomString(h, n).0;
      assert m - 1 + n == m + n - 1;
      assert [c] + (a + b) == ([c] + a) + b;
    } else {
      assert [] + RandomString(g, n).0 == RandomString(g, n).0;
    }
  }

  /** `generateRandomChar`. */
  method GenerateRandomChar(rng: Rng) returns (c: char)
    modifies rng
    ensures (c, rng.Gen()) == RandomChar(old(rng.Gen()))
  {
    var v := rng.GenRand(0, 25);
    c := ('A' as int + v) as char;
  }

  /** `generateRandomString`: `length` letters from the front of `str`,
      then a NUL, and nothing after it touched. */
  method GenerateRandomString(rng: Rng, str: array<char>, length: int)
    requires 0 <= length < str.Length
    modifies rng, str
    ensures str[..length] == RandomString(old(rng.Gen()), length).0
    ensures rng.Gen() == RandomString(old(rng.Gen()), length).1
    ensures str[length] == '\0'
    ensures str[length + 1..] == old(str[length + 1..])
  {
    ghost var g0 := rng.Gen();
    ghost var goal := RandomString(g0, length);
    var i := 0;
    while i < length
      invariant 0 <= i <= length
      invariant str[..i] + RandomString(rng.Gen(), length - i).0 == goal.0
      invariant RandomString(rng.Gen(), length - i).1 == goal.1
      invariant forall j :: length <= j < str.Length ==> str[j] == old(str[j])
    {
      ghost var g := rng.Gen();
      var c := GenerateRandomChar(rng);
      ghost var prefix := str[..i];
      str[i] := c;
      assert str[..i + 1] == prefix + [c];
      StringLoopStep(prefix, c, g, length - i, goal);
      i := i + 1;
    }
    assert str[..length] + [] == str[..length];
    str[length] := '\0';
  }

  lemma StringLoopStep(prefix: string, c: char, g: Generator, m: nat, goal: (string, Generator))
    requires m > 0 && c == RandomChar(g).0
    requires prefix + RandomString(g, m).0 == goal.0 && RandomString(g, m).1 == goal.1
    ensures (prefix + [c]) + RandomString(RandomChar(g).1, m - 1).0 == goal.0
    ensures RandomString(RandomChar(g).1, m - 1).1 == goal.1
  {
    RandomStringStep(g, m);
    var rest := RandomString(RandomChar(g).1, m - 1).0;
    assert (prefix + [c]) + rest == prefix + ([c] + rest);
  }

  lemma RandomStringStep(g: Generator, m: nat)
    requires m > 0
    ensures var (c, g1) := RandomChar(g);
            RandomString(g, m).0 == [c] + RandomString(g1, m - 1).0 &&
            RandomString(g, m).1 == RandomString(g1, m - 1).1
  {
  }

  lemma LinesStep(g: Generator, k: nat)
    requires k > 0
    ensures var (n, g1) := Draw(g, MinStringLength, MaxStringLength);
            var (s, g2) := RandomString(g1, n);
            Lines(g, k).0 == [s] + Lines(g2, k - 1).0 &&
            Lines(g, k).1 == Lines(g2, k - 1).1
  {
  }

  /** A buffer holding `s`, a NUL and anything after it reads as `s`. */
  lemma BufferLine(buf: string, s: string, n: nat)
    requires n < |buf| && buf[..n] == s && buf[n] == '\0'
    requires forall j :: 0 <= j < n ==> IsUpper(s[j])
    ensures CString(buf) == s
  {
    assert '\0' !in s;
    SplitAround(buf, n);
    CStringAtNul(s, buf[n + 1..]);
  }

  lemma SplitAround<T>(s: seq<T>, n: nat)
    requires n < |s|
    ensures s == s[..n] + [s[n]] + s[n + 1..]
  {
  }

  /** One pass of the file loop: the line drawn next is the head of the
      lines still to come. */
  lemma LinesLoopStep(lines: seq<string>, g: Generator, n: int, g1: Generator,
                      line: string, g2: Generator, k: nat, goal: seq<string>)
    requires k > 0
    requires (n, g1) == Draw(g, MinStringLength, MaxStringLength) && n >= 0
    requires (line, g2) == RandomString(g1, n)
    requires lines + Lines(g, k).0 == goal
    ensures (lines + [line]) + Lines(g2, k - 1).0 == goal
  {
    LinesStep(g, k);
    var rest := Lines(g2, k - 1).0;
    assert (lines + [line]) + rest == lines + ([line] + rest);
  }

  /** `generateRandomStringsToFile` as `main` calls it: 1 when the file
      cannot be opened, otherwise 0 and the lines written, from a generator
      seeded with `now`. */
  method GenerateRandomStringsToFile(now: U64, openOk: bool) returns (status: int, lines: seq<string>)
    ensures !openOk ==> status == 1 && lines == []
    ensures openOk ==> status == 0 && lines == Lines(Generator(now, WeylConstant), NumStrings).0
  {
    if !openOk {
      return 1, [];
    }
    var rng := new Rng();
    rng.SetSeed(now);
    var str := new char[MaxStringLength + 1];
    ghost var goal := Lines(rng.Gen(), NumStrings);
    lines := [];
    var i := 0;
    while i < NumStrings
      invariant 0 <= i <= NumStrings
      invariant str.Length == MaxStringLength + 1
      invariant lines + Lines(rng.Gen(), NumStrings - i).0 == goal.0
      modifies rng, str
    {
      ghost var g := rng.Gen();
      var n := rng.GenRand(MinStringLength, MaxStringLength);
      ghost var g1 := rng.Gen();
      GenerateRandomString(rng, str, n);
      RandomStringUpper(g1, n);
      BufferLine(str[..], str[..n], n);
      var line := CString(str[..]);
      LinesLoopStep(lines, g, n, g1, line, rng.Gen(), NumStrings - i, goal.0);
      lines := lines + [line];
      i := i + 1;
    }
    assert lines + [] == lines;
    status := 0;
  }
}
