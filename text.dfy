/**
 * String helpers with the semantics of the Python and JavaScript string
 * methods the server and the viewer call.  Case mapping is ASCII-only.
 */
module Text {

  function LowerChar(c: char): char {
    if 'A' <= c <= 'Z' then (c as int + 32) as char else c
  }

  /** `s.lower()`. */
  function Lower(s: string): (r: string)
    ensures |r| == |s|
    ensures forall i | 0 <= i < |s| :: r[i] == LowerChar(s[i])
  {
    if s == [] then [] else [LowerChar(s[0])] + Lower(s[1..])
  }

  lemma LowerOfThree(a: char, b: char, c: char)
    ensures Lower([a, b, c]) == [LowerChar(a), LowerChar(b), LowerChar(c)]
  {
    assert [a, b, c][1..] == [b, c];
    assert [b, c][1..] == [c];
  }

  lemma LowerAppend(a: string, b: string)
    ensures Lower(a + b) == Lower(a) + Lower(b)
  {
    assert forall i | 0 <= i < |a + b| :: Lower(a + b)[i] == (Lower(a) + Lower(b))[i];
  }

  lemma LowerIdempotent(s: string)
    ensures Lower(Lower(s)) == Lower(s)
  {
    assert forall i | 0 <= i < |s| :: Lower(Lower(s))[i] == Lower(s)[i];
  }

  predicate StartsWith(s: string, prefix: string) {
    |prefix| <= |s| && s[..|prefix|] == prefix
  }

  predicate EndsWith(s: string, suffix: string) {
    |suffix| <= |s| && s[|s| - |suffix|..] == suffix
  }

  lemma EndsWithTransitive(s: string, longer: string, shorter: string)
    requires EndsWith(s, longer) && EndsWith(longer, shorter)
    ensures EndsWith(s, shorter)
  {
    assert s[|s| - |shorter|..] == longer[|longer| - |shorter|..];
  }

  /** `s.replace(from, to)` for single characters. */
  function ReplaceChar(s: string, from: char, to: char): (r: string)
    ensures |r| == |s|
    ensures forall i | 0 <= i < |s| :: r[i] == if s[i] == from then to else s[i]
  {
    if s == [] then [] else [if s[0] == from then to else s[0]] + ReplaceChar(s[1..], from, to)
  }

  /** `s.rfind(c)`: the last index of c, or -1. */
  function LastIndexOf(s: string, c: char): (r: int)
    ensures -1 <= r < |s|
    ensures r >= 0 ==> s[r] == c
    ensures forall i | r < i < |s| :: s[i] != c
  {
    if s == [] then -1
    else if s[|s| - 1] == c then |s| - 1
    else LastIndexOf(s[..|s| - 1], c)
  }

  /** `s.split(c)[-1]`: the text after the last c, or all of s. */
  function AfterLast(s: string, c: char): (r: string)
    ensures c !in r
    ensures EndsWith(s, r)
    ensures c in s ==> |r| < |s| && s[|s| - |r| - 1] == c
    ensures c !in s ==> r == s
  {
    var k := LastIndexOf(s, c);
    var r := s[k + 1..];
    assert c !in r by {
      forall j | 0 <= j < |r| ensures r[j] != c {
        assert r[j] == s[k + 1 + j];
      }
    }
    assert c in s ==> k >= 0 by {
      if c in s { var j :| 0 <= j < |s| && s[j] == c; }
    }
    assert c !in s ==> k == -1 by {
      if k >= 0 { assert s[k] in s; }
    }
    r
  }

  /** The text after the last c of `a + [c] + b`, when b has no c, is b. */
  lemma AfterLastOf(a: string, b: string, c: char)
    requires c !in b
    ensures AfterLast(a + [c] + b, c) == b
  {
    var s := a + [c] + b;
    var k := LastIndexOf(s, c);
    assert s[|a|] == c;
    forall i | |a| < i < |s| ensures s[i] != c {
      assert s[i] == b[i - |a| - 1];
    }
    assert k == |a|;
    assert s[k + 1..] == b;
  }

  /** Lowering keeps a character that is not a lower-case letter out. */
  lemma LowerKeepsOut(s: string, c: char)
    requires c !in s && !('a' <= c <= 'z')
    ensures c !in Lower(s)
  {
    forall i | 0 <= i < |s| ensures Lower(s)[i] != c {
      assert s[i] != c;
    }
  }

  /** `s.split(c)`: the pieces between occurrences of c. */
  function Split(s: string, c: char): (r: seq<string>)
    ensures |r| >= 1
    ensures forall i | 0 <= i < |r| :: c !in r[i]
    decreases |s|
  {
    var k := LastIndexOf(s, c);
    if k < 0 then [s] else Split(s[..k], c) + [s[k + 1..]]
  }

  lemma {:induction false} SplitJoin(a: string, b: string, c: char)
    requires c !in a && c !in b
    ensures Split(a + [c] + b, c) == [a, b]
  {
    var s := a + [c] + b;
    assert s[|a|] == c;
    var k := LastIndexOf(s, c);
    assert k == |a|;
    assert s[..k] == a;
    assert s[k + 1..] == b;
    assert LastIndexOf(a, c) < 0;
  }

  predicate IsDigit(c: char) { '0' <= c <= '9' }

  predicate AllDigits(s: string) { forall i | 0 <= i < |s| :: IsDigit(s[i]) }

  /** A digit string holds no other character. */
  lemma DigitsExclude(s: string, c: char)
    requires AllDigits(s) && !IsDigit(c)
    ensures c !in s
  {
    forall i | 0 <= i < |s| ensures s[i] != c { }
  }

  /** The value of a string of decimal digits ("" is 0). */
  function DigitsValue(s: string): (r: nat)
    requires AllDigits(s)
  {
    if s == [] then 0 else 10 * DigitsValue(s[..|s| - 1]) + (s[|s| - 1] as int - '0' as int)
  }

  /** The shortest decimal spelling of n, as JavaScript and Python print it. */
  function NatToDecimal(n: nat): (r: string)
    ensures |r| >= 1 && AllDigits(r)
    ensures r[0] == '0' ==> n == 0 && r == "0"
  {
    if n < 10 then [('0' as int + n) as char]
    else NatToDecimal(n / 10) + [('0' as int + n % 10) as char]
  }

  /** Signed decimal spelling: a '-' before the digits of a negative number. */
  function IntToDecimal(i: int): (r: string)
    ensures |r| >= 1
    ensures i < 0 <==> r[0] == '-'
  {
    if i < 0 then "-" + NatToDecimal(-i) else NatToDecimal(i)
  }

  /** Python's `repr` of a tuple of naturals: "()", "(5,)", "(2, 3, 4)". */
  function TupleRepr(xs: seq<nat>): (r: string)
    ensures |r| >= 2 && r[0] == '(' && r[|r| - 1] == ')'
  {
    if |xs| == 0 then "()"
    else if |xs| == 1 then "(" + NatToDecimal(xs[0]) + ",)"
    else "(" + CommaSeparated(xs) + ")"
  }

  /** The decimal spellings of xs joined by ", ". */
  function CommaSeparated(xs: seq<nat>): string
    requires |xs| >= 1
  {
    if |xs| == 1 then NatToDecimal(xs[0])
    else CommaSeparated(xs[..|xs| - 1]) + ", " + NatToDecimal(xs[|xs| - 1])
  }

  /** Reading back the digits printed for n gives n. */
  lemma {:induction false} DecimalRoundTrip(n: nat)
    ensures DigitsValue(NatToDecimal(n)) == n
  {
    if n >= 10 {
      DecimalRoundTrip(n / 10);
      var s := NatToDecimal(n);
      assert s[..|s| - 1] == NatToDecimal(n / 10);
    }
  }

  /** Printing is injective: distinct numbers have distinct spellings. */
  lemma DecimalInjective(m: nat, n: nat)
    requires NatToDecimal(m) == NatToDecimal(n)
    ensures m == n
  {
    DecimalRoundTrip(m);
    DecimalRoundTrip(n);
  }

  /**
   * `os.path.splitext(p)[1]` on POSIX: from the last '.' of the base name
   * on, provided the base name has a character other than '.' before it;
   * "" otherwise.
   */
  function SplitExt(p: string): (r: string)
    ensures r == "" || (r[0] == '.' && EndsWith(p, r) && '.' !in r[1..] && '/' !in r)
  {
    var sep := LastIndexOf(p, '/');
    var dot := LastIndexOf(p, '.');
    if dot > sep && exists i | sep + 1 <= i < dot :: p[i] != '.' then p[dot..] else ""
  }

  /** A stem that ends in an ordinary character keeps a one-dot extension apart. */
  lemma SplitExtOf(stem: string, ext: string)
    requires |stem| > 0 && stem[|stem| - 1] != '.' && stem[|stem| - 1] != '/'
    requires |ext| > 0 && ext[0] == '.' && '.' !in ext[1..] && '/' !in ext
    ensures SplitExt(stem + ext) == ext
  {
    var p := stem + ext;
    assert p[|stem|] == '.';
    forall i | |stem| < i < |p| ensures p[i] != '.' && p[i] != '/' {
      assert p[i] == ext[1..][i - |stem| - 1];
    }
    assert p[|stem| - 1] != '/';
    var sep := LastIndexOf(p, '/');
    var dot := LastIndexOf(p, '.');
    assert dot == |stem|;
    assert sep < |stem| - 1;
    assert p[|stem| - 1] != '.';
    assert p[dot..] == ext;
  }
}
