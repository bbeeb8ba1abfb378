/** The C library text primitives the programs rely on: the `isspace`,
    `isdigit`, `islower` and `isupper` classes and the case maps of the C
    locale, the end of a C string, the `%s` and `%d`
    conversions of `sscanf`, `atoi`, and `%d` formatting in `snprintf`.
    Characters stand for the bytes of a C `char` buffer. */
module CText {
  import opened Wrappers

  /** `isspace` in the C locale: space, \t, \n, \v, \f, \r. */
  predicate IsSpace(c: char) {
    c == ' ' || c == '\t' || c == '\n' || c == '\U{000B}' || c == '\U{000C}' || c == '\r'
  }

  /** `isdigit`. */
  predicate IsDigit(c: char) {
    '0' <= c <= '9'
  }

  /** `islower` and `isupper` in the C locale. */
  predicate IsLower(c: char) {
    'a' <= c <= 'z'
  }

  predicate IsUpper(c: char) {
    'A' <= c <= 'Z'
  }

  /** `toupper` in the C locale: only `a`-`z` change. */
  function ToUpper(c: char): char {
    if IsLower(c) then (c as int - 32) as char else c
  }

  /** `tolower` in the C locale: only `A`-`Z` change. */
  function ToLower(c: char): char {
    if IsUpper(c) then (c as int + 32) as char else c
  }

  predicate NoSpace(s: string) {
    forall i :: 0 <= i < |s| ==> !IsSpace(s[i])
  }

  /** The characters of a buffer that a C string function sees: everything
      before the first NUL. */
  function CString(s: string): (r: string)
    ensures r <= s && '\0' !in r
    ensures |r| < |s| ==> s[|r|] == '\0'
  {
    if s == [] || s[0] == '\0' then [] else [s[0]] + CString(s[1..])
  }

  /** Past a NUL-free prefix, the C string continues into what follows. */
  lemma {:induction false} CStringOfAppend(a: string, b: string)
    requires '\0' !in a
    ensures CString(a + b) == a + CString(b)
  {
    if a != [] {
      assert a[0] in a;
      assert (a + b)[0] == a[0] && a[0] != '\0';
      assert (a + b)[1..] == a[1..] + b;
      assert '\0' !in a[1..] by {
        forall c | c in a[1..] ensures c != '\0' {
          var i :| 0 <= i < |a[1..]| && a[1..][i] == c;
          assert a[i + 1] == c;
        }
      }
      CStringOfAppend(a[1..], b);
      assert CString(a + b) == [a[0]] + CString(a[1..] + b);
      assert a == [a[0]] + a[1..];
      assert [a[0]] + (a[1..] + CString(b)) == a + CString(b);
    } else {
      assert a + b == b && a + CString(b) == CString(b);
    }
  }

  /** A NUL written after a NUL-free prefix ends the C string there. */
  lemma CStringAtNul(a: string, b: string)
    requires '\0' !in a
    ensures CString(a + ['\0'] + b) == a
  {
    CStringOfAppend(a, ['\0'] + b);
    assert a + ['\0'] + b == a + (['\0'] + b);
  }

  /** Leading white space dropped, as every `sscanf` conversion but `%c` does. */
  function SkipSpaces(s: string): (r: string)
    ensures |r| <= |s|
  {
    if s != [] && IsSpace(s[0]) then SkipSpaces(s[1..]) else s
  }

  /** What is skipped is white space, and what is left is a suffix that
      starts with something else. */
  lemma {:induction false} SkipSpacesShape(s: string)
    ensures SkipSpaces(s) == s[|s| - |SkipSpaces(s)|..]
    ensures forall i :: 0 <= i < |s| - |SkipSpaces(s)| ==> IsSpace(s[i])
    ensures SkipSpaces(s) == [] || !IsSpace(SkipSpaces(s)[0])
  {
    if s != [] && IsSpace(s[0]) {
      SkipSpacesShape(s[1..]);
      assert s[1..][|s[1..]| - |SkipSpaces(s[1..])|..] == s[|s| - |SkipSpaces(s)|..];
      forall i | 0 <= i < |s| - |SkipSpaces(s)| ensures IsSpace(s[i]) {
        if i > 0 {
          assert s[i] == s[1..][i - 1];
        }
      }
    }
  }

  /** The longest prefix free of white space. */
  function Word(s: string): (r: string)
    ensures |r| <= |s|
  {
    if s != [] && !IsSpace(s[0]) then [s[0]] + Word(s[1..]) else []
  }

  /** The word is a space-free prefix that ends at white space or at the end. */
  lemma {:induction false} WordShape(s: string)
    ensures Word(s) <= s && NoSpace(Word(s))
    ensures |Word(s)| < |s| ==> IsSpace(s[|Word(s)|])
  {
    if s != [] && !IsSpace(s[0]) {
      WordShape(s[1..]);
      var w := Word(s);
      assert w == [s[0]] + Word(s[1..]);
      forall i | 0 <= i < |w| ensures !IsSpace(w[i]) {
        if i > 0 {
          assert w[i] == Word(s[1..])[i - 1];
        }
      }
    }
  }

  /** `%s`: skip white space, then take a non-empty run of non-space
      characters. `None` is an input failure (nothing but white space left).
      The pair holds the token and the unread rest. */
  function ScanString(s: string): Option<(string, string)> {
    var t := SkipSpaces(s);
    if t == [] then None
    else
      var w := Word(t);
      Some((w, t[|w|..]))
  }

  /** A `%s` token is a non-empty run without white space, and the token and
      the unread rest are what is left of the input once the leading blanks
      are skipped. */
  lemma ScanStringShape(s: string)
    requires ScanString(s).Some?
    ensures ScanString(s).value.0 != [] && NoSpace(ScanString(s).value.0)
    ensures |ScanString(s).value.0| + |ScanString(s).value.1| <= |s|
    ensures s[|s| - |ScanString(s).value.0| - |ScanString(s).value.1|..] ==
      ScanString(s).value.0 + ScanString(s).value.1
  {
    var t := SkipSpaces(s);
    SkipSpacesShape(s);
    var w := Word(t);
    WordShape(t);
    assert t == w + t[|w|..];
    WordShape(t);
    assert w[0] == t[0];
  }

  /** The token and the rest are made of characters of the input. */
  lemma ScanStringWithin(s: string)
    requires ScanString(s).Some?
    ensures forall c :: c in ScanString(s).value.0 ==> c in s
    ensures forall c :: c in ScanString(s).value.1 ==> c in s
  {
    var tok := ScanString(s).value.0;
    var rest := ScanString(s).value.1;
    var k := |s| - |tok| - |rest|;
    ScanStringShape(s);
    assert s[k..] == tok + rest;
    forall c | c in tok ensures c in s {
      var i :| 0 <= i < |tok| && tok[i] == c;
      assert (tok + rest)[i] == c;
      assert s[k + i] == c;
    }
    forall c | c in rest ensures c in s {
      var i :| 0 <= i < |rest| && rest[i] == c;
      assert (tok + rest)[|tok| + i] == c;
      assert s[k + |tok| + i] == c;
    }
  }

  /** `%s` fails exactly on a string of nothing but white space. */
  lemma ScanStringFailsOnBlank(s: string)
    ensures ScanString(s).None? <==> forall i :: 0 <= i < |s| ==> IsSpace(s[i])
  {
    SkipSpacesShape(s);
    var t := SkipSpaces(s);
    if t != [] {
      assert s[|s| - |t|] == t[0];
    }
  }

  /** The longest prefix made of decimal digits. */
  function DigitRun(s: string): (r: string)
    ensures r <= s && forall i :: 0 <= i < |r| ==> IsDigit(r[i])
    ensures |r| < |s| ==> !IsDigit(s[|r|])
  {
    if s != [] && IsDigit(s[0]) then [s[0]] + DigitRun(s[1..]) else []
  }

  /** The value of a string of decimal digits, most significant first. */
  function DigitsValue(ds: string): nat
    requires forall i :: 0 <= i < |ds| ==> IsDigit(ds[i])
  {
    if ds == [] then 0
    else 10 * DigitsValue(ds[..|ds| - 1]) + DigitValue(ds[|ds| - 1])
  }

  function DigitValue(c: char): (d: nat)
    requires IsDigit(c)
    ensures d < 10
  {
    c as int - '0' as int
  }

  /** `%d` (and `strtol` in base 10): skip white space, an optional sign, then
      at least one digit. `None` is a matching failure; otherwise the value and
      the unread rest. The value is unbounded: a C `int` overflow here is
      undefined behaviour, which the model does not reproduce. */
  function ScanInt(s: string): Option<(int, string)>
  {
    ScanSigned(SkipSpaces(s))
  }

  function ScanSigned(t: string): Option<(int, string)>
  {
    if t != [] && t[0] == '-' then
      match ScanDigits(t[1..])
      case Some(p) => Some((-p.0, p.1))
      case None => None
    else if t != [] && t[0] == '+' then ScanDigits(t[1..])
    else ScanDigits(t)
  }

  /** A non-empty run of digits and what follows it. */
  function ScanDigits(u: string): Option<(int, string)>
  {
    var ds := DigitRun(u);
    if ds == [] then None else Some((DigitsValue(ds), u[|ds|..]))
  }

  /** `atoi`: the `%d` value, or 0 when there is none. */
  function Atoi(s: string): int {
    match ScanInt(s)
    case Some(p) => p.0
    case None => 0
  }

  function DigitChar(d: nat): (c: char)
    requires d < 10
    ensures IsDigit(c)
  {
    ('0' as int + d) as char
  }

  /** `%d` formatting of a non-negative value: no leading zeros. */
  function NatToString(n: nat): (r: string)
    decreases n
  {
    if n < 10 then [DigitChar(n)] else NatToString(n / 10) + [DigitChar(n % 10)]
  }

  /** `%d` formatting: a minus sign for negative values, then the digits. */
  function IntToString(n: int): string {
    if n < 0 then "-" + NatToString(-n) else NatToString(n)
  }

  lemma {:induction false} NatToStringDigits(n: nat)
    ensures NatToString(n) != []
    ensures forall i :: 0 <= i < |NatToString(n)| ==> IsDigit(NatToString(n)[i])
    ensures DigitsValue(NatToString(n)) == n
    decreases n
  {
    if n >= 10 {
      NatToStringDigits(n / 10);
      var p := NatToString(n / 10);
      var s := p + [DigitChar(n % 10)];
      assert s[..|s| - 1] == p;
    }
  }

  lemma {:induction false} DigitRunOfDigits(ds: string, rest: string)
    requires forall i :: 0 <= i < |ds| ==> IsDigit(ds[i])
    requires rest == [] || !IsDigit(rest[0])
    ensures DigitRun(ds + rest) == ds
  {
    if ds != [] {
      assert (ds + rest)[1..] == ds[1..] + rest;
      DigitRunOfDigits(ds[1..], rest);
    }
  }

  lemma ScanDigitsOf(ds: string, rest: string)
    requires ds != [] && forall i :: 0 <= i < |ds| ==> IsDigit(ds[i])
    requires rest == [] || !IsDigit(rest[0])
    ensures ScanDigits(ds + rest) == Some((DigitsValue(ds) as int, rest))
  {
    DigitRunOfDigits(ds, rest);
    assert (ds + rest)[|ds|..] == rest;
  }

  /** `%d` reads back exactly what `%d` wrote, leaving whatever follows the
      digits unread. */
  lemma ScanIntOfIntToString(n: int, rest: string)
    requires rest == [] || !IsDigit(rest[0])
    ensures ScanInt(IntToString(n) + rest) == Some((n, rest))
  {
    if n < 0 {
      ScanIntOfNegative(n, rest);
    } else {
      ScanIntOfNonNegative(n, rest);
    }
  }

  lemma ScanIntOfNonNegative(n: nat, rest: string)
    requires rest == [] || !IsDigit(rest[0])
    ensures ScanInt(IntToString(n) + rest) == Some((n, rest))
  {
    NatToStringDigits(n);
    var ds := NatToString(n);
    ScanDigitsOf(ds, rest);
    var u := ds + rest;
    assert IsDigit(ds[0]);
    assert u[0] == ds[0];
    assert !IsSpace(u[0]);
    assert IntToString(n) + rest == u;
    assert SkipSpaces(u) == u;
    assert ScanSigned(u) == ScanDigits(u);
  }

  lemma ScanIntOfNegative(n: int, rest: string)
    requires rest == [] || !IsDigit(rest[0])
    requires n < 0
    ensures ScanInt(IntToString(n) + rest) == Some((n, rest))
  {
    NatToStringDigits(-n);
    var ds := NatToString(-n);
    ScanDigitsOf(ds, rest);
    var u := ds + rest;
    var s := ['-'] + u;
    assert IntToString(n) + rest == s;
    assert s[1..] == u;
    assert s[0] == '-' && !IsSpace(s[0]);
    assert SkipSpaces(s) == s;
    assert ScanSigned(s) == Some((n, rest));
  }

  /** Appending text that begins with white space after a successful `%s`
      leaves the token unchanged and only lengthens the unread rest. */
  lemma ScanStringExtend(s: string, t: string)
    requires ScanString(s).Some?
    requires t == [] || IsSpace(t[0])
    ensures ScanString(s + t) == Some((ScanString(s).value.0, ScanString(s).value.1 + t))
  {
    SkipSpacesExtend(s, t);
    var u := SkipSpaces(s);
    WordExtend(u, t);
    assert (u + t)[|Word(u)|..] == u[|Word(u)|..] + t;
  }

  lemma {:induction false} SkipSpacesExtend(s: string, t: string)
    requires SkipSpaces(s) != []
    ensures SkipSpaces(s + t) == SkipSpaces(s) + t
  {
    if IsSpace(s[0]) {
      assert (s + t)[1..] == s[1..] + t;
      SkipSpacesExtend(s[1..], t);
    }
  }

  lemma {:induction false} WordExtend(u: string, t: string)
    requires t == [] || IsSpace(t[0])
    ensures Word(u + t) == Word(u)
  {
    if u != [] && !IsSpace(u[0]) {
      assert (u + t)[1..] == u[1..] + t;
      WordExtend(u[1..], t);
    }
  }

  /** The same for `%d`. */
  lemma ScanIntExtend(s: string, t: string)
    requires ScanInt(s).Some?
    requires t == [] || IsSpace(t[0])
    ensures ScanInt(s + t) == Some((ScanInt(s).value.0, ScanInt(s).value.1 + t))
  {
    SkipSpacesExtend(s, t);
    ScanSignedExtend(SkipSpaces(s), t);
  }

  lemma ScanSignedExtend(u: string, t: string)
    requires ScanSigned(u).Some?
    requires t == [] || IsSpace(t[0])
    ensures ScanSigned(u + t) == Some((ScanSigned(u).value.0, ScanSigned(u).value.1 + t))
  {
    if u[0] == '-' || u[0] == '+' {
      assert (u + t)[1..] == u[1..] + t;
      ScanDigitsExtend(u[1..], t);
    } else {
      ScanDigitsExtend(u, t);
    }
  }

  lemma ScanDigitsExtend(u: string, t: string)
    requires ScanDigits(u).Some?
    requires t == [] || IsSpace(t[0])
    ensures ScanDigits(u + t) == Some((ScanDigits(u).value.0, ScanDigits(u).value.1 + t))
  {
    var ds := DigitRun(u);
    assert u == ds + u[|ds|..];
    assert u + t == ds + (u[|ds|..] + t);
    ScanDigitsOf(ds, u[|ds|..] + t);
  }

  /** A token with no white space is its own longest space-free prefix. */
  lemma {:induction false} WordOfToken(tok: string)
    requires NoSpace(tok)
    ensures Word(tok) == tok
  {
    if tok != [] {
      assert NoSpace(tok[1..]) by {
        forall i | 0 <= i < |tok[1..]| ensures !IsSpace(tok[1..][i]) {
          assert tok[1..][i] == tok[i + 1];
        }
      }
      WordOfToken(tok[1..]);
      assert tok == [tok[0]] + tok[1..];
    }
  }

  /** `%s` on a token followed by white space (or nothing) reads the token. */
  lemma ScanStringOfToken(tok: string, t: string)
    requires tok != [] && NoSpace(tok)
    requires t == [] || IsSpace(t[0])
    ensures ScanString(tok + t) == Some((tok, t))
  {
    var u := tok + t;
    assert u[0] == tok[0] && !IsSpace(u[0]);
    assert SkipSpaces(u) == u;
    WordExtend(tok, t);
    WordOfToken(tok);
    assert u[|tok|..] == t;
  }

  /** One leading blank changes nothing for `%s` or `%d`. */
  lemma ScanAfterBlank(s: string)
    ensures ScanString(" " + s) == ScanString(s)
    ensures ScanInt(" " + s) == ScanInt(s)
  {
    assert (" " + s)[1..] == s;
    assert SkipSpaces(" " + s) == SkipSpaces(s);
  }

  /** A `%d` rendering holds no white space, NUL or newline. */
  lemma IntToStringIsToken(n: int)
    ensures IntToString(n) != [] && NoSpace(IntToString(n))
    ensures '\0' !in IntToString(n) && '\n' !in IntToString(n)
  {
    var m: nat := if n < 0 then -n else n;
    NatToStringDigits(m);
    var s := IntToString(n);
    forall i | 0 <= i < |s| ensures !IsSpace(s[i]) && s[i] != '\0' && s[i] != '\n' {
      if n < 0 && i > 0 {
        assert s[i] == NatToString(m)[i - 1];
      }
    }
  }

  /** Powers of ten. */
  function Pow10(k: nat): (r: nat)
    ensures r >= 1
  {
    if k == 0 then 1 else 10 * Pow10(k - 1)
  }

  /** A value below 10^k has at most k digits. */
  lemma {:induction false} NatToStringLength(n: nat, k: nat)
    requires n < Pow10(k)
    ensures |NatToString(n)| <= (if k == 0 then 1 else k)
    decreases k
  {
    if n >= 10 {
      NatToStringLength(n / 10, k - 1);
    }
  }
}
