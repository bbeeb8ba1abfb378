/** Loading lines of integers into dynamic blocks: a block is an `int`
    array with its size; a line is split on spaces as `strtok` does and
    each piece converted with `atoi`. Allocation outcomes are oracle
    flags. */
module LoadMem {
  import opened CText

  /** `dyn_block`. */
  class DynBlock {
    var data: array?<int>
    var size: nat

    constructor (data: array?<int>, size: nat)
      ensures this.data == data && this.size == size
    {
      this.data := data;
      this.size := size;
    }
  }

  /** `alloc_dyn_block`: null when an allocation fails; otherwise a
      fresh block of `size` uninitialised ints. */
  method AllocDynBlock(size: nat, allocOk: bool) returns (block: DynBlock?)
    ensures block == null <==> !allocOk
    ensures block != null ==>
              fresh(block) && block.data != null && fresh(block.data) &&
              block.size == size && block.data.Length == size
  {
    if !allocOk {
      return null;
    }
    var data := new int[size];
    block := new DynBlock(data, size);
  }

  /** `store_mem_blk`: copies `values[..size]` to the front of the block
      when the block and its data exist and `size` fits; otherwise copies
      nothing. */
  method StoreMemBlk(block: DynBlock?, values: seq<int>, size: nat)
    requires size <= |values|
    requires block != null && block.data != null ==> block.data.Length == block.size
    modifies if block != null && block.data != null then {block.data} else {}
    ensures block != null && block.data != null ==>
              if size > block.size then block.data[..] == old(block.data[..])
              else block.data[..] == values[..size] + old(block.data[size..])
  {
    if block == null || block.data == null {
      return;
    }
    if size > block.size {
      return;
    }
    ghost var before := block.data[..];
    var i := 0;
    while i < size
      invariant 0 <= i <= size
      invariant forall j :: 0 <= j < i ==> block.data[j] == values[j]
      invariant forall j :: i <= j < block.data.Length ==> block.data[j] == before[j]
    {
      block.data[i] := values[i];
      i := i + 1;
    }
    assert block.data[..] == values[..size] + before[size..];
  }

  // ---------------------------------------------------------------------
  // Splitting a line

  /** `s` without its leading spaces. */
  function DropSpaces(s: string): (r: string)
    ensures |r| <= |s|
  {
    if s != [] && s[0] == ' ' then DropSpaces(s[1..]) else s
  }

  /** The run of non-spaces at the front of `s`. */
  function TakeToken(s: string): (r: string)
    ensures |r| <= |s|
  {
    if s != [] && s[0] != ' ' then [s[0]] + TakeToken(s[1..]) else []
  }

  /** The pieces `strtok(line, " ")` returns, in order. */
  function Tokens(s: string): seq<string>
    decreases |s|
  {
    var t := DropSpaces(s);
    if t == [] then []
    else
      var w := TakeToken(t);
      TakeTokenShape(t);
      [w] + Tokens(t[|w|..])
  }

  /** The values `parse_line_to_block` stores for `s`. */
  function Values(s: string): seq<int> {
    seq(|Tokens(s)|, i requires 0 <= i < |Tokens(s)| => Atoi(Tokens(s)[i]))
  }

  lemma {:induction false} DropSpacesShape(s: string)
    ensures s == Spaces(|s| - |DropSpaces(s)|) + DropSpaces(s)
    ensures DropSpaces(s) == [] || DropSpaces(s)[0] != ' '
    decreases |s|
  {
    if s != [] && s[0] == ' ' {
      DropSpacesShape(s[1..]);
      var n := |s| - |DropSpaces(s)|;
      assert Spaces(n) == [' '] + Spaces(n - 1);
    } else {
      assert Spaces(0) + s == s;
    }
  }

  lemma {:induction false} TakeTokenShape(s: string)
    ensures s != [] && s[0] != ' ' ==> TakeToken(s) != []
    ensures TakeToken(s) <= s && ' ' !in TakeToken(s)
    ensures |TakeToken(s)| < |s| ==> s[|TakeToken(s)|] == ' '
    decreases |s|
  {
    if s != [] && s[0] != ' ' {
      TakeTokenShape(s[1..]);
    }
  }

  /** Every token is a non-empty run without spaces, and the tokens are
      the line's non-space characters in order (`TokensLayout` adds that
      each one is a whole, maximal run). */
  lemma {:induction false} TokensAreRuns(s: string)
    ensures forall i :: 0 <= i < |Tokens(s)| ==> Tokens(s)[i] != [] && ' ' !in Tokens(s)[i]
    ensures Concat(Tokens(s)) == NonSpaces(s)
    decreases |s|
  {
    var t := DropSpaces(s);
    DropSpacesShape(s);
    NonSpacesAppend(Spaces(|s| - |t|), t);
    NonSpacesOfSpaces(|s| - |t|);
    if t != [] {
      var w := TakeToken(t);
      TakeTokenShape(t);
      TokensAreRuns(t[|w|..]);
      assert t == w + t[|w|..];
      NonSpacesAppend(w, t[|w|..]);
      NonSpacesOfToken(w);
      assert Tokens(s) == [w] + Tokens(t[|w|..]);
      assert Concat(Tokens(s)) == w + Concat(Tokens(t[|w|..]));
    }
  }

  /** The line is its tokens laid out between runs of spaces, and every
      run between two tokens is non-empty: with `TokensAreRuns`, each
      token is a maximal run of non-spaces, and the tokens are all such
      runs, left to right. */
  lemma {:induction false} TokensLayout(s: string)
    ensures exists gaps: seq<nat> :: (|gaps| == |Tokens(s)| + 1 && Layout(Tokens(s), gaps) == s &&
      forall i :: 0 < i < |Tokens(s)| ==> gaps[i] > 0)
    decreases |s|
  {
    var t := DropSpaces(s);
    var n := |s| - |t|;
    DropSpacesShape(s);
    assert s == Spaces(n) + t;
    if t == [] {
      assert Layout(Tokens(s), [n]) == Spaces(n) + [] == s;
    } else {
      var w := TakeToken(t);
      var rest := t[|w|..];
      TakeTokenShape(t);
      TokensLayout(rest);
      TokensAreRuns(rest);
      assert t == w + rest;
      assert Tokens(s) == [w] + Tokens(rest);
      var g :| |g| == |Tokens(rest)| + 1 && Layout(Tokens(rest), g) == rest &&
        forall i :: 0 < i < |Tokens(rest)| ==> g[i] > 0;
      assert Tokens(rest) != [] ==> rest != [] && rest[0] == ' ';
      var gaps := LayoutCons(n, w, Tokens(rest), g);
      calc {
        Layout(Tokens(s), gaps);
        Layout([w] + Tokens(rest), gaps);
        Spaces(n) + (w + rest);
        Spaces(n) + t;
        s;
      }
    }
  }

  /** `n` spaces. */
  function Spaces(n: nat): string {
    seq(n, _ => ' ')
  }

  /** `ws` with `gaps[i]` spaces before `ws[i]` and `gaps[|ws|]` after the last. */
  function Layout(ws: seq<string>, gaps: seq<nat>): string
    requires |gaps| == |ws| + 1
    decreases |ws|
  {
    Spaces(gaps[0]) + if ws == [] then [] else ws[0] + Layout(ws[1..], gaps[1..])
  }

  /** Putting `n` spaces and the word `w` in front of a layout of `ws`;
      when `ws` is laid out starting with a space, every inner gap of the
      longer layout is non-empty too. */
  lemma LayoutCons(n: nat, w: string, ws: seq<string>, g: seq<nat>) returns (gaps: seq<nat>)
    requires |g| == |ws| + 1
    requires forall i :: 0 <= i < |ws| ==> ws[i] != [] && ' ' !in ws[i]
    requires forall i :: 0 < i < |ws| ==> g[i] > 0
    requires ws != [] ==> Layout(ws, g) != [] && Layout(ws, g)[0] == ' '
    ensures gaps == [n] + g
    ensures Layout([w] + ws, gaps) == Spaces(n) + (w + Layout(ws, g))
    ensures forall i :: 0 < i < |ws| + 1 ==> gaps[i] > 0
  {
    gaps := [n] + g;
    assert ([w] + ws)[1..] == ws;
    assert gaps[1..] == g;
    LayoutLeadingSpace(ws, g);
    forall i | 0 < i < |ws| + 1
      ensures gaps[i] > 0
    {
      assert gaps[i] == g[i - 1];
    }
  }

  /** A layout of non-empty, space-free words that starts with a space
      has a non-empty first gap. */
  lemma LayoutLeadingSpace(ws: seq<string>, gaps: seq<nat>)
    requires |gaps| == |ws| + 1
    requires forall i :: 0 <= i < |ws| ==> ws[i] != [] && ' ' !in ws[i]
    ensures Layout(ws, gaps) != [] && Layout(ws, gaps)[0] == ' ' ==> gaps[0] > 0
  {
    if gaps[0] == 0 && ws != [] {
      assert Spaces(0) == [];
      assert Layout(ws, gaps)[0] == ws[0][0];
      assert ws[0][0] in ws[0];
    }
  }

  /** The characters of `ws`, in order. */
  function Concat(ws: seq<string>): string {
    if ws == [] then [] else ws[0] + Concat(ws[1..])
  }

  /** The non-space characters of `s`, in order. */
  function NonSpaces(s: string): string {
    if s == [] then [] else (if s[0] == ' ' then [] else [s[0]]) + NonSpaces(s[1..])
  }

  lemma {:induction false} NonSpacesAppend(a: string, b: string)
    ensures NonSpaces(a + b) == NonSpaces(a) + NonSpaces(b)
    decreases |a|
  {
    if a == [] {
      assert a + b == b;
    } else {
      assert (a + b)[1..] == a[1..] + b;
      NonSpacesAppend(a[1..], b);
    }
  }

  lemma {:induction false} NonSpacesOfSpaces(n: nat)
    ensures NonSpaces(Spaces(n)) == []
  {
    if n > 0 {
      assert Spaces(n)[1..] == Spaces(n - 1);
      NonSpacesOfSpaces(n - 1);
    }
  }

  lemma {:induction false} NonSpacesOfToken(w: string)
    requires ' ' !in w
    ensures NonSpaces(w) == w
  {
    if w != [] {
      NonSpacesOfToken(w[1..]);
      assert w == [w[0]] + w[1..];
    }
  }

  /** A space before the newline makes the newline a token of its own,
      which `atoi` reads as 0. */
  lemma TrailingSpaceAddsZero()
    ensures Values("1 2 \n") == [1, 2, 0]
    ensures Values("1 2\n") == [1, 2]
  {
    TokensWithTrailingSpace();
    TokensWithoutTrailingSpace();
    AtoiExamples();
    ValuesOfTokens("1 2 \n", ["1", "2", "\n"]);
    ValuesOfTokens("1 2\n", ["1", "2\n"]);
  }

  lemma ValuesOfTokens(s: string, ts: seq<string>)
    requires Tokens(s) == ts
    ensures |Values(s)| == |ts| && forall i :: 0 <= i < |ts| ==> Values(s)[i] == Atoi(ts[i])
  {
  }

  lemma TokensWithTrailingSpace()
    ensures Tokens("1 2 \n") == ["1", "2", "\n"]
  {
    assert TakeToken("") == [];
    assert TakeToken("\n") == "\n";
    assert TakeToken("2 \n") == "2";
    assert TakeToken("1 2 \n") == "1";
    assert DropSpaces(" \n") == "\n";
    assert DropSpaces(" 2 \n") == "2 \n";
    assert "\n"[1..] == "";
    assert "2 \n"[1..] == " \n";
    assert "1 2 \n"[1..] == " 2 \n";
    assert Tokens("") == [];
    assert Tokens("\n") == ["\n"];
    assert Tokens("2 \n") == ["2", "\n"];
  }

  lemma TokensWithoutTrailingSpace()
    ensures Tokens("1 2\n") == ["1", "2\n"]
  {
    assert TakeToken("") == [];
    assert TakeToken("2\n") == "2\n";
    assert TakeToken("1 2\n") == "1";
    assert DropSpaces(" 2\n") == "2\n";
    assert "2\n"[2..] == "";
    assert "1 2\n"[1..] == " 2\n";
    assert Tokens("") == [];
    assert Tokens("2\n") == ["2\n"];
  }

  lemma AtoiExamples()
    ensures Atoi("1") == 1 && Atoi("2") == 2 && Atoi("\n") == 0 && Atoi("2\n") == 2
  {
    assert DigitRun("1") == "1";
    assert DigitRun("2") == "2";
    assert DigitRun("2\n") == "2";
    assert DigitRun("") == "";
    assert SkipSpaces("\n") == "";
    assert SkipSpaces("1") == "1";
    assert SkipSpaces("2") == "2";
    assert SkipSpaces("2\n") == "2\n";
  }

  /** One `strtok` step: the first token's value, then the rest. */
  lemma ValuesStep(s: string, token: string, rest: string)
    requires DropSpaces(s) != [] && token == TakeToken(DropSpaces(s))
    requires rest == DropSpaces(s)[|token|..]
    ensures Values(s) == [Atoi(token)] + Values(rest)
  {
    assert Tokens(s) == [token] + Tokens(rest);
  }

  lemma ValuesEnd(s: string)
    requires DropSpaces(s) == []
    ensures Values(s) == []
  {
  }

  // ---------------------------------------------------------------------
  // Parsing a line

  /** One `strtok` call: skips leading spaces, then returns the run of
      non-spaces (empty at the end of the line) and the position after it. */
  method NextToken(line: string, pos: nat) returns (token: string, next: nat)
    requires pos <= |line|
    ensures pos <= next <= |line|
    ensures var t := DropSpaces(line[pos..]);
            (t == [] <==> token == []) &&
            (t != [] ==> token == TakeToken(t) && line[next..] == t[|token|..])
    ensures token == [] ==> next == |line|
  {
    var i := pos;
    while i < |line| && line[i] == ' '
      invariant pos <= i <= |line|
      invariant DropSpaces(line[pos..]) == DropSpaces(line[i..])
    {
      DropSpacesAt(line, i);
      i := i + 1;
    }
    DropSpacesStop(line, i);
    var j := i;
    while j < |line| && line[j] != ' '
      invariant i <= j <= |line|
      invariant TakeToken(line[i..]) == line[i..j] + TakeToken(line[j..])
    {
      TakeTokenAt(line, i, j);
      j := j + 1;
    }
    TakeTokenStop(line, i, j);
    token := line[i..j];
    next := if j == i then |line| else j;
  }

  lemma DropSpacesAt(line: string, i: nat)
    requires i < |line| && line[i] == ' '
    ensures DropSpaces(line[i..]) == DropSpaces(line[i + 1..])
  {
    assert line[i..][1..] == line[i + 1..];
  }

  lemma DropSpacesStop(line: string, i: nat)
    requires i <= |line| && (i < |line| ==> line[i] != ' ')
    ensures DropSpaces(line[i..]) == line[i..]
  {
  }

  lemma TakeTokenAt(line: string, i: nat, j: nat)
    requires i <= j < |line| && line[j] != ' '
    requires TakeToken(line[i..]) == line[i..j] + TakeToken(line[j..])
    ensures TakeToken(line[i..]) == line[i..j + 1] + TakeToken(line[j + 1..])
  {
    assert line[j..][1..] == line[j + 1..];
    assert line[i..j + 1] == line[i..j] + [line[j]];
  }

  lemma TakeTokenStop(line: string, i: nat, j: nat)
    requires i <= j <= |line| && (j < |line| ==> line[j] == ' ')
    requires TakeToken(line[i..]) == line[i..j] + TakeToken(line[j..])
    ensures TakeToken(line[i..]) == line[i..j]
    ensures line[i..][j - i..] == line[j..]
  {
    assert TakeToken(line[j..]) == [];
    assert line[i..j] + [] == line[i..j];
  }

  /** `parse_line_to_block`: a fresh block holding one `atoi` value per
      token, or null when an allocation fails. */
  method ParseLineToBlock(line: string, allocOk: bool) returns (block: DynBlock?)
    ensures block == null <==> !allocOk
    ensures block != null ==>
              fresh(block) && block.data != null && fresh(block.data) &&
              block.size == |Values(line)| && block.data[..] == Values(line)
  {
    var values: seq<int> := [];
    var pos := 0;
    var token, next := NextToken(line, pos);
    while token != []
      invariant pos <= next <= |line|
      invariant var t := DropSpaces(line[pos..]);
                (t == [] <==> token == []) &&
                (t != [] ==> token == TakeToken(t) && line[next..] == t[|token|..])
      invariant Values(line) == values + Values(line[pos..])
      decreases |line| - pos
    {
      ValuesStep(line[pos..], token, line[next..]);
      assert values + ([Atoi(token)] + Values(line[next..])) == (values + [Atoi(token)]) + Values(line[next..]);
      values := values + [Atoi(token)];
      TakeTokenShape(DropSpaces(line[pos..]));
      pos := next;
      token, next := NextToken(line, pos);
    }
    ValuesEnd(line[pos..]);
    assert values + [] == values;
    block := AllocDynBlock(|values|, allocOk);
    if block != null {
      forall i | 0 <= i < |values| {
        block.data[i] := values[i];
      }
    }
  }
}
