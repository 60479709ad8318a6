/**
 * The handful of Python string operations the chat application relies on,
 * written out over `string` (a sequence of Unicode code points):
 * `str.split()` with no separator, `" ".join(...)`, `str.capitalize()`
 * restricted to ASCII letters, and `str(n)` for a natural number.
 */
module Text {

  /** The characters `str.isspace()` accepts; `str.split()` with no argument splits on runs of them. */
  predicate IsSpace(c: char) {
    var k := c as int;
    (0x09 <= k <= 0x0D) || (0x1C <= k <= 0x20) || k == 0x85 || k == 0xA0 || k == 0x1680
    || (0x2000 <= k <= 0x200A) || k == 0x2028 || k == 0x2029 || k == 0x202F || k == 0x205F
    || k == 0x3000
  }

  predicate NoSpaces(s: string) {
    forall i :: 0 <= i < |s| ==> !IsSpace(s[i])
  }

  /** A word, as `str.split()` produces them: non-empty and free of whitespace. */
  predicate IsWord(w: string) {
    |w| > 0 && NoSpaces(w)
  }

  predicate AllWords(ws: seq<string>) {
    forall w :: w in ws ==> IsWord(w)
  }

  /** Drops the leading run of whitespace. */
  function SkipSpaces(s: string): (t: string)
    ensures |t| <= |s| && t == s[|s| - |t|..]
    ensures t == [] || !IsSpace(t[0])
    ensures forall i :: 0 <= i < |s| - |t| ==> IsSpace(s[i])
  {
    if s != [] && IsSpace(s[0]) then SkipSpaces(s[1..]) else s
  }

  /** Length of the leading run of non-whitespace characters. */
  function WordLength(s: string): (n: nat)
    ensures n <= |s|
    ensures forall i :: 0 <= i < n ==> !IsSpace(s[i])
    ensures n == |s| || IsSpace(s[n])
  {
    if s == [] || IsSpace(s[0]) then 0 else 1 + WordLength(s[1..])
  }

  /** `s.split()`: the maximal whitespace-free runs of `s`, in order. */
  function Split(s: string): (words: seq<string>)
    ensures AllWords(words)
    decreases |s|
  {
    var t := SkipSpaces(s);
    if t == [] then []
    else
      var n := WordLength(t);
      [t[..n]] + Split(t[n..])
  }

  /** `" ".join(ws)`. */
  function Join(ws: seq<string>): string {
    if ws == [] then ""
    else if |ws| == 1 then ws[0]
    else ws[0] + " " + Join(ws[1..])
  }

  lemma {:induction false} WordLengthOfPrefix(w: string, rest: string)
    requires NoSpaces(w)
    requires rest == [] || IsSpace(rest[0])
    ensures WordLength(w + rest) == |w|
  {
    if w == [] {
      assert w + rest == rest;
    } else {
      assert (w + rest)[1..] == w[1..] + rest;
      WordLengthOfPrefix(w[1..], rest);
    }
  }

  /** A word followed by whitespace (or nothing) is split off as the first word. */
  lemma {:induction false} SplitWordFirst(w: string, rest: string)
    requires IsWord(w)
    requires rest == [] || IsSpace(rest[0])
    ensures Split(w + rest) == [w] + Split(rest)
  {
    var u := w + rest;
    assert u[0] == w[0];
    assert SkipSpaces(u) == u;
    WordLengthOfPrefix(w, rest);
    assert u[..|w|] == w;
    assert u[|w|..] == rest;
  }

  /** One extra leading space does not change the words. */
  lemma {:induction false} SplitLeadingSpace(s: string)
    ensures Split(" " + s) == Split(s)
  {
    var u := " " + s;
    assert IsSpace(u[0]) && u[1..] == s;
    assert SkipSpaces(u) == SkipSpaces(s);
    SplitAfterSpaces(u, s);
  }

  /** The words depend only on the text after its leading whitespace. */
  lemma {:induction false} SplitAfterSpaces(s: string, t: string)
    requires SkipSpaces(s) == SkipSpaces(t)
    ensures Split(s) == Split(t)
  {
  }

  /**
   * One whitespace character cuts the text into two halves that split
   * independently. With `SplitEmpty` and `SplitWordFirst(w, "")` this fixes
   * the words of every text: its maximal whitespace-free runs, in order.
   */
  lemma {:induction false} SplitAtSpace(a: string, c: char, b: string)
    requires IsSpace(c)
    ensures Split(a + [c] + b) == Split(a) + Split(b)
    decreases |a|, 1
  {
    if a == [] {
      assert [] + [c] + b == [c] + b && Split([]) == [];
      SplitCutEmpty(c, b);
    } else if IsSpace(a[0]) {
      SplitCutLeadingSpace(a, c, b);
    } else if WordLength(a) == |a| {
      SplitCutWholeWord(a, c, b);
    } else {
      SplitCutWordThenMore(a, c, b);
    }
  }

  lemma {:induction false} SplitCutEmpty(c: char, b: string)
    requires IsSpace(c)
    ensures Split([c] + b) == Split(b)
  {
    var u := [c] + b;
    assert u[0] == c && u[1..] == b;
    assert SkipSpaces(u) == SkipSpaces(b);
    SplitAfterSpaces(u, b);
  }

  lemma {:induction false} SplitCutLeadingSpace(a: string, c: char, b: string)
    requires IsSpace(c) && a != [] && IsSpace(a[0])
    ensures Split(a + [c] + b) == Split(a) + Split(b)
    decreases |a|, 0
  {
    var u := a + [c] + b;
    assert Split(u) == Split(a[1..] + [c] + b) by {
      assert u[0] == a[0] && u[1..] == a[1..] + [c] + b;
      assert SkipSpaces(u) == SkipSpaces(u[1..]);
      SplitAfterSpaces(u, u[1..]);
    }
    assert Split(a) == Split(a[1..]) by {
      assert SkipSpaces(a) == SkipSpaces(a[1..]);
      SplitAfterSpaces(a, a[1..]);
    }
    SplitAtSpace(a[1..], c, b);
  }

  lemma {:induction false} SplitCutWholeWord(a: string, c: char, b: string)
    requires IsSpace(c) && a != [] && !IsSpace(a[0]) && WordLength(a) == |a|
    ensures Split(a + [c] + b) == Split(a) + Split(b)
  {
    calc {
      Split(a + [c] + b);
      { SplitFirstWordBeforeSpace(a, c, b); }
      [a[..|a|]] + Split(a[|a|..] + [c] + b);
      { assert a[..|a|] == a && a[|a|..] + [c] + b == [c] + b; }
      [a] + Split([c] + b);
      { SplitCutEmpty(c, b); }
      [a] + Split(b);
      { assert Split(a) == [a] by {
          SplitFirstWord(a);
          assert a[..|a|] == a && a[|a|..] == [] && Split([]) == [];
        }
      }
      Split(a) + Split(b);
    }
  }

  lemma {:induction false} SplitCutWordThenMore(a: string, c: char, b: string)
    requires IsSpace(c) && a != [] && !IsSpace(a[0]) && WordLength(a) < |a|
    ensures Split(a + [c] + b) == Split(a) + Split(b)
    decreases |a|, 0
  {
    var n := WordLength(a);
    var w := a[..n];
    var r := a[n..];
    SplitFirstWord(a);
    SplitFirstWordBeforeSpace(a, c, b);
    SplitAtSpace(r, c, b);
    AppendAssociative([w], Split(r), Split(b));
  }

  /** Text that starts with a word splits into that word and the words of the rest. */
  lemma {:induction false} SplitFirstWord(s: string)
    requires s != [] && !IsSpace(s[0])
    ensures Split(s) == [s[..WordLength(s)]] + Split(s[WordLength(s)..])
  {
    assert SkipSpaces(s) == s;
  }

  /** Appending whitespace and more text keeps the first word and appends to what follows it. */
  lemma {:induction false} SplitFirstWordBeforeSpace(a: string, c: char, b: string)
    requires IsSpace(c) && a != [] && !IsSpace(a[0])
    ensures Split(a + [c] + b) == [a[..WordLength(a)]] + Split(a[WordLength(a)..] + [c] + b)
  {
    var n := WordLength(a);
    var u := a + [c] + b;
    WordLengthBeforeSpace(a, c, b);
    SlicesOfAppend(a, [c] + b, n);
    AppendAssociative(a, [c], b);
    AppendAssociative(a[n..], [c], b);
    assert u[0] == a[0];
    SplitFirstWord(u);
  }

  lemma {:induction false} WordLengthBeforeSpace(a: string, c: char, b: string)
    requires IsSpace(c)
    ensures WordLength(a + [c] + b) == WordLength(a)
  {
    var n := WordLength(a);
    var rest := a[n..] + [c] + b;
    assert a + [c] + b == a[..n] + rest;
    assert rest[0] == (if n < |a| then a[n] else c);
    assert NoSpaces(a[..n]) by {
      forall i | 0 <= i < n ensures !IsSpace(a[..n][i]) {
        assert a[..n][i] == a[i];
      }
    }
    WordLengthOfPrefix(a[..n], rest);
  }

  lemma {:induction false} SlicesOfAppend<T>(x: seq<T>, y: seq<T>, n: nat)
    requires n <= |x|
    ensures (x + y)[..n] == x[..n] && (x + y)[n..] == x[n..] + y
  {
  }

  lemma {:induction false} AppendAssociative<T>(x: seq<T>, y: seq<T>, z: seq<T>)
    ensures x + (y + z) == (x + y) + z
  {
  }

  /** Splitting words joined by single spaces gives the words back. */
  lemma {:induction false} SplitJoin(ws: seq<string>)
    requires AllWords(ws)
    ensures Split(Join(ws)) == ws
  {
    if ws == [] {
      assert Split("") == [];
    } else if |ws| == 1 {
      var w := ws[0];
      assert ws == [w] && Join(ws) == w + "";
      assert Split(w + "") == [w] + Split("") by {
        SplitWordFirst(w, "");
      }
      assert Split("") == [];
    } else {
      var j := Join(ws[1..]);
      assert ws == [ws[0]] + ws[1..];
      assert Join(ws) == ws[0] + (" " + j);
      assert Split(ws[0] + (" " + j)) == [ws[0]] + Split(j) by {
        SplitWordFirst(ws[0], " " + j);
        SplitLeadingSpace(j);
      }
      assert Split(j) == ws[1..] by {
        SplitJoin(ws[1..]);
      }
    }
  }

  /** Splitting yields no word exactly when the text is all whitespace. */
  lemma {:induction false} SplitEmpty(s: string)
    ensures Split(s) == [] <==> forall i :: 0 <= i < |s| ==> IsSpace(s[i])
  {
  }

  // ASCII case mapping

  function LowerChar(c: char): char {
    if 'A' <= c <= 'Z' then (c as int + 32) as char else c
  }

  function UpperChar(c: char): char {
    if 'a' <= c <= 'z' then (c as int - 32) as char else c
  }

  /** `s.lower()` on ASCII letters. */
  function Lower(s: string): (r: string)
    ensures |r| == |s|
    ensures forall i :: 0 <= i < |s| ==> r[i] == LowerChar(s[i])
  {
    if s == [] then [] else [LowerChar(s[0])] + Lower(s[1..])
  }

  function LowerAll(ws: seq<string>): (r: seq<string>)
    ensures |r| == |ws|
    ensures forall i :: 0 <= i < |ws| ==> r[i] == Lower(ws[i])
  {
    if ws == [] then [] else [Lower(ws[0])] + LowerAll(ws[1..])
  }

  /** `s.capitalize()` on ASCII letters: first character upper case, the rest lower case. */
  function Capitalize(s: string): string {
    if s == [] then [] else [UpperChar(s[0])] + Lower(s[1..])
  }

  lemma {:induction false} LowerConcat(a: string, b: string)
    ensures Lower(a + b) == Lower(a) + Lower(b)
  {
    assert Lower(a + b) == Lower(a) + Lower(b) by {
      forall i | 0 <= i < |a + b|
        ensures Lower(a + b)[i] == (Lower(a) + Lower(b))[i]
      {
        if i < |a| {
          assert (a + b)[i] == a[i];
        } else {
          assert (a + b)[i] == b[i - |a|];
        }
      }
    }
  }

  /** Lower-casing leaves a text without upper-case letters as it is. */
  lemma {:induction false} LowerUnchanged(s: string)
    requires forall i :: 0 <= i < |s| ==> !('A' <= s[i] <= 'Z')
    ensures Lower(s) == s
  {
    assert forall i :: 0 <= i < |s| ==> Lower(s)[i] == s[i];
  }

  lemma {:induction false} LowerIdempotent(s: string)
    ensures Lower(Lower(s)) == Lower(s)
  {
  }

  lemma {:induction false} LowerOfCapitalize(s: string)
    ensures Lower(Capitalize(s)) == Lower(s)
  {
    if s != [] {
      LowerConcat([UpperChar(s[0])], Lower(s[1..]));
      assert s == [s[0]] + s[1..];
      LowerConcat([s[0]], s[1..]);
    }
  }

  /** Capitalizing a non-empty text followed by a suffix already in lower case. */
  lemma {:induction false} CapitalizeConcat(s: string, t: string)
    requires s != []
    ensures Capitalize(s + t) == Capitalize(s) + Lower(t)
  {
    var u := s + t;
    assert u[0] == s[0];
    assert u[1..] == s[1..] + t;
    LowerConcat(s[1..], t);
    calc {
      Capitalize(u);
      [UpperChar(s[0])] + Lower(s[1..] + t);
      [UpperChar(s[0])] + (Lower(s[1..]) + Lower(t));
      ([UpperChar(s[0])] + Lower(s[1..])) + Lower(t);
    }
  }

  lemma {:induction false} CapitalizeIdempotent(s: string)
    ensures Capitalize(Capitalize(s)) == Capitalize(s)
  {
  }

  /** Case mapping keeps a word a word. */
  lemma {:induction false} WordThenNoSpaces(w: string, t: string)
    requires IsWord(w) && NoSpaces(t)
    ensures IsWord(w + t)
  {
    forall i | 0 <= i < |w + t|
      ensures !IsSpace((w + t)[i])
    {
      if i < |w| {
        assert (w + t)[i] == w[i];
      } else {
        assert (w + t)[i] == t[i - |w|];
      }
    }
  }

  lemma {:induction false} CaseMapKeepsWords(w: string)
    requires IsWord(w)
    ensures IsWord(Lower(w)) && IsWord(Capitalize(w))
  {
  }

  lemma {:induction false} LowerJoin(ws: seq<string>)
    ensures Lower(Join(ws)) == Join(LowerAll(ws))
  {
    if |ws| >= 2 {
      LowerJoin(ws[1..]);
      LowerConcat(ws[0] + " ", Join(ws[1..]));
      LowerConcat(ws[0], " ");
      assert LowerAll(ws)[1..] == LowerAll(ws[1..]);
    }
  }

  /** Capitalizing a joined text capitalizes its first word and lowers the others. */
  lemma {:induction false} CapitalizeJoin(ws: seq<string>)
    requires ws != [] && ws[0] != []
    ensures Capitalize(Join(ws)) == Join([Capitalize(ws[0])] + LowerAll(ws[1..]))
  {
    if |ws| == 1 {
      assert [Capitalize(ws[0])] + LowerAll(ws[1..]) == [Capitalize(ws[0])];
    } else {
      CapitalizeJoinTwoOrMore(ws);
    }
  }

  lemma {:induction false} CapitalizeJoinTwoOrMore(ws: seq<string>)
    requires |ws| >= 2 && ws[0] != []
    ensures Capitalize(Join(ws)) == Join([Capitalize(ws[0])] + LowerAll(ws[1..]))
  {
    var cs := [Capitalize(ws[0])] + LowerAll(ws[1..]);
    var j := Join(ws[1..]);
    var joined := Capitalize(ws[0]) + (" " + Join(LowerAll(ws[1..])));
    assert Join(cs) == joined by {
      assert cs[0] == Capitalize(ws[0]) && cs[1..] == LowerAll(ws[1..]);
    }
    assert Capitalize(Join(ws)) == joined by {
      assert Join(ws) == ws[0] + (" " + j);
      CapitalizeConcat(ws[0], " " + j);
      LowerConcat(" ", j);
      assert Lower(" ") == " ";
      LowerJoin(ws[1..]);
    }
  }

  /** Appending to a joined text appends to its last word. */
  lemma {:induction false} JoinAppendLast(ws: seq<string>, d: string)
    requires ws != []
    ensures Join(ws) + d == Join(ws[..|ws| - 1] + [ws[|ws| - 1] + d])
  {
    if |ws| >= 2 {
      var tail := ws[1..];
      JoinAppendLast(tail, d);
      var longer := ws[..|ws| - 1] + [ws[|ws| - 1] + d];
      assert longer[0] == ws[0];
      assert longer[1..] == tail[..|tail| - 1] + [tail[|tail| - 1] + d];
    }
  }

  // Decimal rendering of natural numbers, as `str(n)`

  predicate IsDigit(c: char) {
    '0' <= c <= '9'
  }

  function DigitChar(d: nat): char
    requires d < 10
  {
    ('0' as int + d) as char
  }

  function DigitValue(c: char): nat
    requires IsDigit(c)
  {
    c as int - '0' as int
  }

  /** `str(n)`: decimal digits, with no leading zero. */
  function NatToString(n: nat): (s: string)
    ensures |s| > 0
    ensures forall i :: 0 <= i < |s| ==> IsDigit(s[i])
    ensures s[0] == '0' <==> n == 0
  {
    if n < 10 then [DigitChar(n)] else NatToString(n / 10) + [DigitChar(n % 10)]
  }

  /** `int(s)` on a string of decimal digits. */
  function ParseNat(s: string): nat
    requires forall i :: 0 <= i < |s| ==> IsDigit(s[i])
  {
    if s == [] then 0 else 10 * ParseNat(s[..|s| - 1]) + DigitValue(s[|s| - 1])
  }

  lemma {:induction false} ParseNatToString(n: nat)
    ensures ParseNat(NatToString(n)) == n
  {
    if n >= 10 {
      var s := NatToString(n);
      ParseNatToString(n / 10);
      assert s[..|s| - 1] == NatToString(n / 10);
    }
  }

  lemma {:induction false} NatToStringInjective(m: nat, n: nat)
    ensures NatToString(m) == NatToString(n) ==> m == n
  {
    ParseNatToString(m);
    ParseNatToString(n);
  }
}
