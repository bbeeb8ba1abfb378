/** The random integer program: `genrand <count> <file> [-a]` writes
    `count` integers from `-100..100` to the file, one per line, from the
    shared generator seeded with the clock. The clock reading and the
    outcome of opening the file are parameters; the file's new lines and
    standard output are returned. */
module RandomInts {
  import opened CText
  import opened Msws

  const Low: int := -100
  const High: int := 100

  /** The fourth argument selects append mode exactly when it is `-a`. */
  predicate AppendMode(argv: seq<string>) {
    |argv| == 4 && argv[3] == "-a"
  }

  /** The count is a positive `atoi` of the first argument. */
  predicate ArgsOk(argv: seq<string>) {
    3 <= |argv| <= 4 && Atoi(argv[1]) > 0
  }

  /** The report printed after a successful run. */
  function Report(n: int, fileName: string): string {
    "Successfully wrote " + IntToString(n) + " random integers to " + fileName + "\n"
  }

  /** `main`: exit status 1 for a wrong argument count, a count that is not
      positive, or a file that cannot be opened; otherwise status 0, the
      values written, in the mode `-a` selects, and the report. */
  method GenRandMain(argv: seq<string>, now: U64, openOk: bool)
    returns (status: int, appendMode: bool, written: seq<int>, stdout: string)
    ensures !ArgsOk(argv) ==> status == 1 && written == [] && stdout == []
    ensures ArgsOk(argv) ==> appendMode == AppendMode(argv)
    ensures ArgsOk(argv) && !openOk ==> status == 1 && written == [] && stdout == []
    ensures ArgsOk(argv) && openOk ==>
              status == 0 &&
              written == Draws(Generator(now, WeylConstant), Atoi(argv[1]), Low, High).0 &&
              stdout == Report(Atoi(argv[1]), argv[2])
  {
    written, stdout, appendMode := [], [], false;
    if |argv| < 3 || |argv| > 4 {
      return 1, appendMode, written, stdout;
    }
    var numIntegers := Atoi(argv[1]);
    if numIntegers <= 0 {
      return 1, appendMode, written, stdout;
    }
    var fileName := argv[2];
    appendMode := |argv| == 4 && argv[3] == "-a";
    if !openOk {
      return 1, appendMode, written, stdout;
    }
    var rng := new Rng();
    rng.SetSeed(now);
    ghost var goal := Draws(rng.Gen(), numIntegers, Low, High).0;
    var i := 0;
    while i < numIntegers
      invariant 0 <= i <= numIntegers
      invariant written + Draws(rng.Gen(), numIntegers - i, Low, High).0 == goal
      modifies rng
    {
      ghost var g := rng.Gen();
      var randomNumber := rng.GenRand(Low, High);
      DrawsLoopStep(written, g, randomNumber, rng.Gen(), numIntegers - i, goal);
      written := written + [randomNumber];
      i := i + 1;
    }
    assert written + [] == written;
    stdout := Report(numIntegers, fileName);
    status := 0;
  }

  /** One pass of the writing loop: the value drawn next is the head of the
      values still to come. */
  lemma DrawsLoopStep(written: seq<int>, g: Generator, v: int, g1: Generator, k: nat, goal: seq<int>)
    requires k > 0 && (v, g1) == Draw(g, Low, High)
    requires written + Draws(g, k, Low, High).0 == goal
    ensures (written + [v]) + Draws(g1, k - 1, Low, High).0 == goal
  {
    DrawsStep(g, k, Low, High);
    var rest := Draws(g1, k - 1, Low, High).0;
    assert (written + [v]) + rest == written + ([v] + rest);
  }

  /** A successful run writes exactly the requested number of values, each
      inside `-100..100`. */
  lemma WrittenValues(argv: seq<string>, now: U64)
    requires ArgsOk(argv)
    ensures var vs := Draws(Generator(now, WeylConstant), Atoi(argv[1]), Low, High).0;
            |vs| == Atoi(argv[1]) && forall i :: 0 <= i < |vs| ==> Low <= vs[i] <= High
  {
    DrawsInRange(Generator(now, WeylConstant), Atoi(argv[1]), Low, High);
  }

  /** `-a` in any position but the fourth, or any other fourth argument,
      leaves the file in overwrite mode. */
  lemma AppendOnlyAsFourth()
    ensures !AppendMode(["genrand", "5", "-a"])
    ensures !AppendMode(["genrand", "5", "out.txt", "-A"])
    ensures AppendMode(["genrand", "5", "out.txt", "-a"])
  {
  }
}
