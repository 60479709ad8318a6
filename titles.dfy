/**
 * How the chat application names a thread after its first message
 * (app.py, generate_unique_thread_title): the base title built from the
 * message, the numbered variants " (2)", " (3)", ... used to disambiguate,
 * and what it means for a title to be the least free one.
 */
module Titles {
  import opened Text

  /** The placeholder title every new thread starts with. */
  const DefaultTitle := "New Chat"

  /** At most this many words of the message make up the base title. */
  const MaxTitleWords := 5

  /** Appended when the message had more words than the title keeps. */
  const Ellipsis := "..."

  /** The titles that the first user message replaces. */
  predicate IsPlaceholder(title: string) {
    title == DefaultTitle || title == ""
  }

  function Min(a: int, b: int): int {
    if a < b then a else b
  }

  /** The first five words of the message, joined by single spaces and capitalized, then "..." if words were dropped. */
  function BaseTitle(userMessage: string): string {
    TitleOfWords(Split(userMessage))
  }

  function TitleOfWords(words: seq<string>): string {
    Capitalize(Join(words[..Min(|words|, MaxTitleWords)]))
      + (if |words| > MaxTitleWords then Ellipsis else "")
  }

  /** The disambiguated title `f"{base} ({n})"`. */
  function Numbered(baseTitle: string, n: nat): string {
    baseTitle + " (" + NatToString(n) + ")"
  }

  /**
   * `title` is what the title generator returns for `baseTitle` against the
   * titles already in use: the base title itself when it is free, and otherwise
   * the numbered variant with the least n >= 2 that is free.
   */
  ghost predicate IsLeastFreeTitle(baseTitle: string, existing: set<string>, title: string) {
    if baseTitle !in existing then title == baseTitle
    else
      exists n: nat {:trigger Numbered(baseTitle, n)} ::
        && 2 <= n
        && title == Numbered(baseTitle, n)
        && title !in existing
        && forall k: nat {:trigger Numbered(baseTitle, k)} :: 2 <= k < n ==> Numbered(baseTitle, k) in existing
  }

  /**
   * The base title's own words are the message's first five words, each equal
   * to the original up to case, with "..." glued to the fifth one when words
   * were dropped; they are joined by single spaces and the whole title is
   * already in capitalized form.
   */
  lemma {:induction false} BaseTitleWords(userMessage: string)
    ensures |Split(BaseTitle(userMessage))| == Min(|Split(userMessage)|, MaxTitleWords)
    ensures BaseTitle(userMessage) == Join(Split(BaseTitle(userMessage)))
    ensures Capitalize(BaseTitle(userMessage)) == BaseTitle(userMessage)
    ensures forall i :: 0 <= i < Min(|Split(userMessage)|, MaxTitleWords) ==>
      Lower(Split(BaseTitle(userMessage))[i])
        == Lower(Split(userMessage)[i])
           + (if i == MaxTitleWords - 1 && |Split(userMessage)| > MaxTitleWords then Ellipsis else "")
  {
    TitleOfWordsWords(Split(userMessage));
  }

  lemma {:induction false} TitleOfWordsWords(words: seq<string>)
    requires AllWords(words)
    ensures |Split(TitleOfWords(words))| == Min(|words|, MaxTitleWords)
    ensures TitleOfWords(words) == Join(Split(TitleOfWords(words)))
    ensures Capitalize(TitleOfWords(words)) == TitleOfWords(words)
    ensures forall i :: 0 <= i < Min(|words|, MaxTitleWords) ==>
      Lower(Split(TitleOfWords(words))[i])
        == Lower(words[i]) + (if i == MaxTitleWords - 1 && |words| > MaxTitleWords then Ellipsis else "")
  {
    if words == [] {
      assert TitleOfWords(words) == "";
      assert Split("") == [];
    } else {
      TitleOfSomeWords(words);
    }
  }

  lemma {:induction false} TitleOfSomeWords(words: seq<string>)
    requires words != [] && AllWords(words)
    ensures |Split(TitleOfWords(words))| == Min(|words|, MaxTitleWords)
    ensures TitleOfWords(words) == Join(Split(TitleOfWords(words)))
    ensures Capitalize(TitleOfWords(words)) == TitleOfWords(words)
    ensures forall i :: 0 <= i < Min(|words|, MaxTitleWords) ==>
      Lower(Split(TitleOfWords(words))[i])
        == Lower(words[i]) + (if i == MaxTitleWords - 1 && |words| > MaxTitleWords then Ellipsis else "")
  {
    var n := Min(|words|, MaxTitleWords);
    var kept := words[..n];
    var dots := if |words| > MaxTitleWords then Ellipsis else "";
    var title := TitleOfWords(words);
    assert AllWords(kept) by {
      forall w | w in kept ensures IsWord(w) {
        assert w in words;
      }
    }
    assert NoSpaces(dots) && Lower(dots) == dots by {
      LowerUnchanged(dots);
    }
    CapitalizedTitle(title, kept, dots);
    forall i | 0 <= i < n
      ensures Lower(Split(title)[i])
        == Lower(words[i]) + (if i == MaxTitleWords - 1 && |words| > MaxTitleWords then Ellipsis else "")
    {
      assert kept[i] == words[i];
      assert (if i == |kept| - 1 then dots else "")
        == (if i == MaxTitleWords - 1 && |words| > MaxTitleWords then Ellipsis else "");
    }
  }

  /** What capitalizing the kept words and appending `dots` yields, word by word. */
  lemma {:induction false} CapitalizedTitle(title: string, kept: seq<string>, dots: string)
    requires kept != [] && AllWords(kept) && NoSpaces(dots) && Lower(dots) == dots
    requires title == Capitalize(Join(kept)) + dots
    ensures |Split(title)| == |kept|
    ensures title == Join(Split(title))
    ensures Capitalize(title) == title
    ensures forall i :: 0 <= i < |kept| ==>
      Lower(Split(title)[i]) == Lower(kept[i]) + (if i == |kept| - 1 then dots else "")
  {
    var titleWords := TitleWords(kept, dots);
    assert title == Join(titleWords) && Split(title) == titleWords by {
      TitleWordsJoin(kept, dots);
      TitleWordsAreWords(kept, dots);
      SplitJoin(titleWords);
    }
    forall i | 0 <= i < |kept|
      ensures |titleWords| == |kept|
      ensures Lower(titleWords[i]) == Lower(kept[i]) + (if i == |kept| - 1 then dots else "")
    {
      TitleWordsLower(kept, dots, i);
    }
    assert Capitalize(title) == title by {
      assert kept[0] in kept && |Join(kept)| >= |kept[0]|;
      CapitalizeConcat(Capitalize(Join(kept)), dots);
      CapitalizeIdempotent(Join(kept));
    }
  }

  /** Regenerating a base title from a base title changes nothing. */
  lemma {:induction false} BaseTitleIdempotent(userMessage: string)
    ensures BaseTitle(BaseTitle(userMessage)) == BaseTitle(userMessage)
  {
    var title := BaseTitle(userMessage);
    var titleWords := Split(title);
    assert |titleWords| <= MaxTitleWords && title == Join(titleWords) && Capitalize(title) == title by {
      BaseTitleWords(userMessage);
    }
    calc {
      BaseTitle(title);
      TitleOfWords(titleWords);
      { TitleOfFewWords(titleWords); }
      Capitalize(Join(titleWords));
      Capitalize(title);
      title;
    }
  }

  lemma {:induction false} TitleOfFewWords(words: seq<string>)
    requires |words| <= MaxTitleWords
    ensures TitleOfWords(words) == Capitalize(Join(words))
  {
    assert words[..Min(|words|, MaxTitleWords)] == words;
    assert Capitalize(Join(words)) + "" == Capitalize(Join(words));
  }

  /** The base title is empty exactly when the message is all whitespace. */
  lemma {:induction false} BaseTitleEmpty(userMessage: string)
    ensures BaseTitle(userMessage) == "" <==> forall i :: 0 <= i < |userMessage| ==> IsSpace(userMessage[i])
  {
    SplitEmpty(userMessage);
    TitleOfWordsEmpty(Split(userMessage));
  }

  lemma {:induction false} TitleOfWordsEmpty(words: seq<string>)
    requires AllWords(words)
    ensures TitleOfWords(words) == "" <==> words == []
  {
    if words == [] {
      assert TitleOfWords(words) == Capitalize(Join([])) + "";
    } else {
      var kept := words[..Min(|words|, MaxTitleWords)];
      assert kept[0] == words[0] && words[0] in words;
      assert |Join(kept)| >= |kept[0]| > 0;
      assert |Capitalize(Join(kept))| == |Join(kept)|;
    }
  }

  // The title's words, before joining: the kept words case-mapped, with `dots` on the last.

  function TitleWords(kept: seq<string>, dots: string): seq<string>
    requires kept != []
  {
    var cased := [Capitalize(kept[0])] + LowerAll(kept[1..]);
    cased[..|cased| - 1] + [cased[|cased| - 1] + dots]
  }

  lemma {:induction false} TitleWordsJoin(kept: seq<string>, dots: string)
    requires kept != [] && AllWords(kept)
    ensures Capitalize(Join(kept)) + dots == Join(TitleWords(kept, dots))
  {
    assert kept[0] in kept;
    var cased := [Capitalize(kept[0])] + LowerAll(kept[1..]);
    CapitalizeJoin(kept);
    JoinAppendLast(cased, dots);
  }

  lemma {:induction false} TitleWordsAreWords(kept: seq<string>, dots: string)
    requires kept != [] && AllWords(kept) && NoSpaces(dots)
    ensures AllWords(TitleWords(kept, dots))
  {
    var cased := [Capitalize(kept[0])] + LowerAll(kept[1..]);
    forall i | 0 <= i < |cased|
      ensures IsWord(cased[i])
    {
      assert kept[i] in kept;
      CaseMapKeepsWords(kept[i]);
      if i > 0 {
        assert cased[i] == LowerAll(kept[1..])[i - 1] == Lower(kept[i]);
      }
    }
    var last := cased[|cased| - 1];
    WordThenNoSpaces(last, dots);
    var tw := TitleWords(kept, dots);
    assert tw == cased[..|cased| - 1] + [last + dots];
    forall w | w in tw
      ensures IsWord(w)
    {
      var i :| 0 <= i < |tw| && tw[i] == w;
      if i < |tw| - 1 {
        assert tw[i] == cased[i];
      }
    }
  }


  lemma {:induction false} TitleWordsLower(kept: seq<string>, dots: string, i: nat)
    requires kept != [] && i < |kept| && Lower(dots) == dots
    ensures |TitleWords(kept, dots)| == |kept|
    ensures Lower(TitleWords(kept, dots)[i]) == Lower(kept[i]) + (if i == |kept| - 1 then dots else "")
  {
    var cased := [Capitalize(kept[0])] + LowerAll(kept[1..]);
    assert Lower(cased[i]) == Lower(kept[i]) by {
      if i == 0 {
        LowerOfCapitalize(kept[0]);
      } else {
        assert cased[i] == Lower(kept[i]);
        LowerIdempotent(kept[i]);
      }
    }
    if i == |kept| - 1 {
      LowerConcat(cased[i], dots);
    } else {
      assert TitleWords(kept, dots)[i] == cased[i];
    }
  }

  /** Distinct numbers give distinct numbered titles. */
  lemma {:induction false} NumberedInjective(baseTitle: string, m: nat, n: nat)
    requires Numbered(baseTitle, m) == Numbered(baseTitle, n)
    ensures m == n
  {
    var a := Numbered(baseTitle, m);
    var b := Numbered(baseTitle, n);
    assert |NatToString(m)| == |NatToString(n)|;
    assert a[|baseTitle| + 2..|a| - 1] == NatToString(m);
    assert b[|baseTitle| + 2..|b| - 1] == NatToString(n);
    NatToStringInjective(m, n);
  }

  /** The generator's answer is determined: at most one title is the least free one. */
  lemma {:induction false} LeastFreeTitleUnique(baseTitle: string, existing: set<string>, t1: string, t2: string)
    requires IsLeastFreeTitle(baseTitle, existing, t1)
    requires IsLeastFreeTitle(baseTitle, existing, t2)
    ensures t1 == t2
  {
    if baseTitle in existing {
      var n1: nat :| 2 <= n1 && t1 == Numbered(baseTitle, n1) && t1 !in existing
        && forall k: nat :: 2 <= k < n1 ==> Numbered(baseTitle, k) in existing;
      var n2: nat :| 2 <= n2 && t2 == Numbered(baseTitle, n2) && t2 !in existing
        && forall k: nat :: 2 <= k < n2 ==> Numbered(baseTitle, k) in existing;
      assert n1 < n2 ==> Numbered(baseTitle, n1) in existing;
      assert n2 < n1 ==> Numbered(baseTitle, n2) in existing;
    }
  }

  /** With "Hello there" and "Hello there (2)" taken, the next thread so named gets "Hello there (3)". */
  lemma {:induction false} NumberingExample()
    ensures IsLeastFreeTitle("Hello there", {"Hello there", "Hello there (2)"}, "Hello there (3)")
  {
    assert Numbered("Hello there", 2) == "Hello there (2)";
    assert Numbered("Hello there", 3) == "Hello there (3)";
  }

  /** The numbered titles with numbers 2 .. hi - 1. */
  ghost function NumberedBelow(baseTitle: string, hi: nat): set<string> {
    if hi <= 2 then {} else NumberedBelow(baseTitle, hi - 1) + {Numbered(baseTitle, hi - 1)}
  }

  lemma {:induction false} NotNumberedBelow(baseTitle: string, hi: nat, n: nat)
    requires hi <= n
    ensures Numbered(baseTitle, n) !in NumberedBelow(baseTitle, hi)
  {
    if hi > 2 {
      NotNumberedBelow(baseTitle, hi - 1, n);
      if Numbered(baseTitle, hi - 1) == Numbered(baseTitle, n) {
        NumberedInjective(baseTitle, hi - 1, n);
      }
    }
  }

  /** One more step of the generator's search: the numbered title just found taken joins the tried ones, and fewer untried titles remain. */
  lemma {:induction false} NumberedBelowStep(baseTitle: string, existing: set<string>, counter: nat)
    requires 2 <= counter
    requires NumberedBelow(baseTitle, counter) <= existing
    requires Numbered(baseTitle, counter) in existing
    ensures NumberedBelow(baseTitle, counter + 1) == NumberedBelow(baseTitle, counter) + {Numbered(baseTitle, counter)}
    ensures NumberedBelow(baseTitle, counter + 1) <= existing
    ensures |existing - NumberedBelow(baseTitle, counter + 1)| < |existing - NumberedBelow(baseTitle, counter)|
  {
    var tried := NumberedBelow(baseTitle, counter);
    var t := Numbered(baseTitle, counter);
    NotNumberedBelow(baseTitle, counter, counter);
    assert existing - tried == (existing - (tried + {t})) + {t};
  }

  /** Every numbered title from 2 up to `hi` - 1 is among those below `hi`. */
  lemma {:induction false} NumberedBelowMembers(baseTitle: string, hi: nat, k: nat)
    requires 2 <= k < hi
    ensures Numbered(baseTitle, k) in NumberedBelow(baseTitle, hi)
  {
    if k < hi - 1 {
      NumberedBelowMembers(baseTitle, hi - 1, k);
    }
  }

  /** The numbered title the search stops at is the least free one. */
  lemma {:induction false} LeastFreeNumbered(baseTitle: string, existing: set<string>, counter: nat)
    requires baseTitle in existing && 2 <= counter
    requires Numbered(baseTitle, counter) !in existing
    requires NumberedBelow(baseTitle, counter) <= existing
    ensures IsLeastFreeTitle(baseTitle, existing, Numbered(baseTitle, counter))
  {
    forall k: nat | 2 <= k < counter
      ensures Numbered(baseTitle, k) in existing
    {
      NumberedBelowMembers(baseTitle, counter, k);
    }
  }
}
