/** `arger`: prints its text arguments upper-cased, lower-cased or
    capitalised, as chosen by a flag, separated by single spaces. Standard
    output is modelled as the string the program writes. */
module Arger {
  import opened CText

  // ---------------------------------------------------------------------
  // Case maps

  /** The output of `to_uppercase`. */
  function Upper(s: string): string {
    if s == [] then [] else Upper(s[..|s| - 1]) + [ToUpper(s[|s| - 1])]
  }

  /** The output of `to_lowercase`. */
  function Lower(s: string): string {
    if s == [] then [] else Lower(s[..|s| - 1]) + [ToLower(s[|s| - 1])]
  }

  /** `to_uppercase` maps `a`-`z` to `A`-`Z` (32 code points down) and
      keeps every other character and the length. */
  lemma {:induction false} UpperPointwise(s: string)
    ensures |Upper(s)| == |s|
    ensures forall i :: 0 <= i < |s| ==> Upper(s)[i] == ToUpper(s[i])
    ensures forall i :: 0 <= i < |s| && IsLower(s[i]) ==>
              IsUpper(Upper(s)[i]) && Upper(s)[i] as int == s[i] as int - 32
    ensures forall i :: 0 <= i < |s| && !IsLower(s[i]) ==> Upper(s)[i] == s[i]
    decreases |s|
  {
    if s != [] {
      UpperPointwise(s[..|s| - 1]);
    }
  }

  /** `to_lowercase` maps `A`-`Z` to `a`-`z` (32 code points up) and keeps
      every other character and the length. */
  lemma {:induction false} LowerPointwise(s: string)
    ensures |Lower(s)| == |s|
    ensures forall i :: 0 <= i < |s| ==> Lower(s)[i] == ToLower(s[i])
    ensures forall i :: 0 <= i < |s| && IsUpper(s[i]) ==>
              IsLower(Lower(s)[i]) && Lower(s)[i] as int == s[i] as int + 32
    ensures forall i :: 0 <= i < |s| && !IsUpper(s[i]) ==> Lower(s)[i] == s[i]
    decreases |s|
  {
    if s != [] {
      LowerPointwise(s[..|s| - 1]);
    }
  }

  /** Both case maps are idempotent, and lower-casing after upper-casing
      is lower-casing. */
  lemma CaseMapsIdempotent(s: string)
    ensures Upper(Upper(s)) == Upper(s)
    ensures Lower(Lower(s)) == Lower(s)
    ensures Lower(Upper(s)) == Lower(s)
  {
    UpperPointwise(s);
    LowerPointwise(s);
    UpperPointwise(Upper(s));
    LowerPointwise(Lower(s));
    LowerPointwise(Upper(s));
  }

  // ---------------------------------------------------------------------
  // Capitalisation

  /** One step of `capitalize`: the character written and the next
      `is_start_of_word`. */
  function CapStep(start: bool, c: char): (char, bool) {
    if c == ' ' then (c, true)
    else if start && IsLower(c) then (ToUpper(c), false)
    else if !start && IsUpper(c) then (ToLower(c), false)
    else (c, false)
  }

  /** `is_start_of_word` after `s`. */
  function StartAfter(s: string): bool {
    if s == [] then true else CapStep(StartAfter(s[..|s| - 1]), s[|s| - 1]).1
  }

  /** The output of `capitalize`. */
  function Capitalized(s: string): string {
    if s == [] then []
    else Capitalized(s[..|s| - 1]) + [CapStep(StartAfter(s[..|s| - 1]), s[|s| - 1]).0]
  }

  /** Position `i` of `s` begins a word: it is first or follows a space. */
  predicate AtWordStart(s: string, i: nat)
    requires i < |s|
  {
    i == 0 || s[i - 1] == ' '
  }

  lemma {:induction false} StartAfterIsLastSpace(s: string)
    ensures StartAfter(s) <==> s == [] || s[|s| - 1] == ' '
  {
  }

  /** `capitalize` upper-cases a character at a word start, lower-cases
      any other, and keeps spaces and the length. An upper-case letter or
      a non-letter at a word start is kept, so `1abc` stays `1abc`. */
  lemma {:induction false} CapitalizedPointwise(s: string)
    ensures |Capitalized(s)| == |s|
    ensures forall i :: 0 <= i < |s| ==>
              Capitalized(s)[i] == (if AtWordStart(s, i) then ToUpper(s[i]) else ToLower(s[i]))
    decreases |s|
  {
    if s != [] {
      var s' := s[..|s| - 1];
      CapitalizedPointwise(s');
      StartAfterIsLastSpace(s');
      forall i | 0 <= i < |s|
        ensures Capitalized(s)[i] == (if AtWordStart(s, i) then ToUpper(s[i]) else ToLower(s[i]))
      {
        if i < |s'| {
          assert s[i] == s'[i];
          assert i > 0 ==> s[i - 1] == s'[i - 1];
        }
      }
    }
  }

  /** The example from the description of `capitalize`. */
  lemma CapitalizedExamples()
    ensures Capitalized("1abc") == "1abc"
    ensures Capitalized("hELLO wORLD") == "Hello World"
  {
    CapitalizedPointwise("1abc");
    CapitalizedPointwise("hELLO wORLD");
  }

  /** Capitalising words one at a time and joining them with a space is
      capitalising the joined text: the space restarts the word. */
  lemma CapitalizedJoin(a: string, b: string)
    ensures Capitalized(a + " " + b) == Capitalized(a) + " " + Capitalized(b)
  {
    var t := a + " " + b;
    var r := Capitalized(a) + " " + Capitalized(b);
    CapitalizedPointwise(t);
    CapitalizedPointwise(a);
    CapitalizedPointwise(b);
    forall i | 0 <= i < |t|
      ensures Capitalized(t)[i] == r[i]
    {
      if i < |a| {
        assert t[i] == a[i];
        assert i > 0 ==> t[i - 1] == a[i - 1];
      } else if i > |a| {
        var j := i - |a| - 1;
        assert t[i] == b[j];
        assert j > 0 ==> t[i - 1] == b[j - 1];
      }
    }
  }

  lemma UpperAppend(a: string, b: string)
    ensures Upper(a + b) == Upper(a) + Upper(b)
  {
    UpperPointwise(a + b);
    UpperPointwise(a);
    UpperPointwise(b);
  }

  lemma LowerAppend(a: string, b: string)
    ensures Lower(a + b) == Lower(a) + Lower(b)
  {
    LowerPointwise(a + b);
    LowerPointwise(a);
    LowerPointwise(b);
  }

  // ---------------------------------------------------------------------
  // The program

  /** What the flag selects; a flag matches by its first characters. */
  datatype Mode = UpperMode | LowerMode | CapMode | BadFlag

  /** Character `i` of a C string: its NUL terminator past the end. */
  function At(s: string, i: nat): char {
    if i < |s| then s[i] else '\0'
  }

  function ModeOf(option: string): Mode {
    if At(option, 0) == '-' && At(option, 1) == 'u' then UpperMode
    else if At(option, 0) == '-' && At(option, 1) == 'l' then LowerMode
    else if At(option, 0) == '-' && At(option, 1) == 'c' && At(option, 2) == 'a' && At(option, 3) == 'p'
    then CapMode
    else BadFlag
  }

  function Transform(m: Mode, s: string): string {
    match m
    case UpperMode => Upper(s)
    case LowerMode => Lower(s)
    case CapMode => Capitalized(s)
    case BadFlag => []
  }

  /** The words of `ws` joined by single spaces. */
  function Join(ws: seq<string>): string {
    if ws == [] then []
    else if |ws| == 1 then ws[0]
    else Join(ws[..|ws| - 1]) + " " + ws[|ws| - 1]
  }

  /** Each word of `ws` transformed, then joined. */
  function TransformAll(m: Mode, ws: seq<string>): seq<string> {
    seq(|ws|, i requires 0 <= i < |ws| => Transform(m, ws[i]))
  }

  const UsageText := "Error: Insufficient arguments.\nUsage: arger [-u | -l | -cap] text...\n"

  function BadFlagText(option: string): string {
    "Error: Invalid flag '" + option + "'.\n"
  }

  /** The exit status and standard output for `argv`. */
  function Run(argv: seq<string>): (int, string) {
    if |argv| < 3 then (-1, UsageText)
    else if ModeOf(argv[1]) == BadFlag then (-1, BadFlagText(argv[1]))
    else (0, Join(TransformAll(ModeOf(argv[1]), argv[2..])))
  }

  /** Flags are matched by prefix, so longer spellings select the same
      mode and a bare `-c` or a missing dash is refused. */
  lemma FlagsMatchByPrefix()
    ensures ModeOf("-u") == ModeOf("-upper") == UpperMode
    ensures ModeOf("-l") == ModeOf("-lower") == LowerMode
    ensures ModeOf("-cap") == ModeOf("-capitalize") == CapMode
    ensures ModeOf("-c") == ModeOf("-ca") == ModeOf("u") == ModeOf("") == BadFlag
  {
  }

  /** The transformation of every word, joined by single spaces, is the
      transformation of the words joined by single spaces: the program
      acts on its arguments as one space-separated text. */
  lemma {:induction false} TransformJoin(m: Mode, ws: seq<string>)
    requires m != BadFlag
    ensures Join(TransformAll(m, ws)) == Transform(m, Join(ws))
    decreases |ws|
  {
    if |ws| > 1 {
      var init := ws[..|ws| - 1];
      TransformJoin(m, init);
      assert TransformAll(m, ws)[..|ws| - 1] == TransformAll(m, init);
      match m
      case UpperMode =>
        UpperAppend(Join(init) + " ", ws[|ws| - 1]);
        UpperAppend(Join(init), " ");
      case LowerMode =>
        LowerAppend(Join(init) + " ", ws[|ws| - 1]);
        LowerAppend(Join(init), " ");
      case CapMode =>
        CapitalizedJoin(Join(init), ws[|ws| - 1]);
    } else if |ws| == 0 {
      assert Transform(m, []) == [];
    }
  }

  /** Fewer than two arguments after the program name, or a bad flag, fail
      with status -1 and no transformed text; otherwise the status is 0 and
      the output is the transformed, space-joined text. */
  lemma RunOutcome(argv: seq<string>)
    ensures Run(argv).0 == -1 <==> |argv| < 3 || ModeOf(argv[1]) == BadFlag
    ensures Run(argv).0 == 0 <==> !(|argv| < 3 || ModeOf(argv[1]) == BadFlag)
    ensures Run(argv).0 == 0 ==> Run(argv).1 == Transform(ModeOf(argv[1]), Join(argv[2..]))
  {
    if |argv| >= 3 && ModeOf(argv[1]) != BadFlag {
      TransformJoin(ModeOf(argv[1]), argv[2..]);
    }
  }

  // ---------------------------------------------------------------------
  // Methods

  /** `to_uppercase`: writes each character, upper-casing `a`-`z`. */
  method ToUppercase(str: string) returns (out: string)
    ensures out == Upper(str)
  {
    out := [];
    var i := 0;
    while i < |str|
      invariant 0 <= i <= |str| && out == Upper(str[..i])
    {
      assert str[..i + 1][..i] == str[..i];
      if 'a' <= str[i] <= 'z' {
        out := out + [(str[i] as int - 32) as char];
      } else {
        out := out + [str[i]];
      }
      i := i + 1;
    }
    assert str[..i] == str;
  }

  /** `to_lowercase`: writes each character, lower-casing `A`-`Z`. */
  method ToLowercase(str: string) returns (out: string)
    ensures out == Lower(str)
  {
    out := [];
    var i := 0;
    while i < |str|
      invariant 0 <= i <= |str| && out == Lower(str[..i])
    {
      assert str[..i + 1][..i] == str[..i];
      if 'A' <= str[i] <= 'Z' {
        out := out + [(str[i] as int + 32) as char];
      } else {
        out := out + [str[i]];
      }
      i := i + 1;
    }
    assert str[..i] == str;
  }

  /** `capitalize`: the word-start flag is set by a space and cleared by
      any other character. */
  method Capitalize(str: string) returns (out: string)
    ensures out == Capitalized(str)
  {
    out := [];
    var isStartOfWord := true;
    var i := 0;
    while i < |str|
      invariant 0 <= i <= |str| && out == Capitalized(str[..i])
      invariant isStartOfWord == StartAfter(str[..i])
    {
      assert str[..i + 1][..i] == str[..i];
      var c := str[i];
      if c == ' ' {
        out := out + [c];
        isStartOfWord := true;
      } else if isStartOfWord && 'a' <= c <= 'z' {
        out := out + [(c as int - 32) as char];
        isStartOfWord := false;
      } else if !isStartOfWord && 'A' <= c <= 'Z' {
        out := out + [(c as int + 32) as char];
      } else {
        out := out + [c];
        isStartOfWord := false;
      }
      i := i + 1;
    }
    assert str[..i] == str;
  }

  /** `main`: the flag is examined before each argument is written, so a
      bad flag is reported before any text. */
  method Execute(argv: seq<string>) returns (status: int, out: string)
    ensures (status, out) == Run(argv)
  {
    if |argv| < 3 {
      return -1, UsageText;
    }
    var option := argv[1];
    out := [];
    ghost var m := ModeOf(option);
    var i := 2;
    while i < |argv|
      invariant 2 <= i <= |argv|
      invariant m != BadFlag || i == 2
      invariant i == 2 ==> out == []
      invariant i > 2 ==> out == Join(TransformAll(m, argv[2..i]))
    {
      if i > 2 {
        out := out + " ";
      }
      var word: string;
      if At(option, 0) == '-' && At(option, 1) == 'u' {
        word := ToUppercase(argv[i]);
      } else if At(option, 0) == '-' && At(option, 1) == 'l' {
        word := ToLowercase(argv[i]);
      } else if At(option, 0) == '-' && At(option, 1) == 'c' && At(option, 2) == 'a' && At(option, 3) == 'p' {
        word := Capitalize(argv[i]);
      } else {
        assert out == [] && [] + BadFlagText(option) == BadFlagText(option);
        out := out + BadFlagText(option);
        return -1, out;
      }
      assert argv[2..i + 1][..i - 2] == argv[2..i];
      assert TransformAll(m, argv[2..i + 1])[..i - 2] == TransformAll(m, argv[2..i]);
      out := out + word;
      i := i + 1;
    }
    assert argv[2..i] == argv[2..];
    status := 0;
  }
}
