/**
 * Validation of the scrub strings ("top center", "bottom bottom", ...) that
 * say which edge of the trigger element meets which edge of the viewport.
 */
module Scrubs {
  import opened Wrappers
  import opened JsString

  /** The words a scrub may be made of. */
  const ScrubsPositionsList: seq<string> := ["top", "bottom", "center"]

  predicate IsScrubWord(w: string) {
    w in ScrubsPositionsList
  }

  /**
   * The TypeError JavaScript raises when `compsedByCorrectWords` calls
   * `toLowerCase()` on the second field of `split(" ")` and there is none.
   */
  datatype ScrubError = SecondWordUndefined

  /** `scrub.split(/\W+/)` has exactly two fields. */
  function ComposedByTwoWords(scrub: string): bool {
    |SplitNonWord(scrub)| == 2
  }

  /**
   * The first two fields of `scrub.split(" ")`, lower-cased, are both scrub
   * words; a missing second field is the source's TypeError.
   */
  function ComposedByCorrectWords(scrub: string): Result<bool, ScrubError> {
    var fields := SplitOn(scrub, ' ');
    if |fields| < 2 then Failure(SecondWordUndefined)
    else Success(IsScrubWord(Lower(fields[0])) && IsScrubWord(Lower(fields[1])))
  }

  /** The word list is consulted only for a two-word scrub. */
  function VerifyScrub(scrub: string): (r: Result<bool, ScrubError>)
    ensures !ComposedByTwoWords(scrub) ==> r == Success(false)
    ensures r == Success(true) ==>
              ComposedByTwoWords(scrub) && ComposedByCorrectWords(scrub) == Success(true)
  {
    if ComposedByTwoWords(scrub) then ComposedByCorrectWords(scrub) else Success(false)
  }

  /**
   * Both scrubs are checked, the start one first, so an error from either
   * escapes; otherwise the verdict is the conjunction.
   */
  function VerifyScrubs(scrubStart: string, scrubEnd: string): (r: Result<bool, ScrubError>)
    ensures r.Success? <==> VerifyScrub(scrubStart).Success? && VerifyScrub(scrubEnd).Success?
    ensures r.Success? ==> r.value == (VerifyScrub(scrubStart).value && VerifyScrub(scrubEnd).value)
    ensures r == Success(true) <==>
              VerifyScrub(scrubStart) == Success(true) && VerifyScrub(scrubEnd) == Success(true)
  {
    match VerifyScrub(scrubStart)
    case Failure(e) => Failure(e)
    case Success(startOk) =>
      match VerifyScrub(scrubEnd)
      case Failure(e) => Failure(e)
      case Success(endOk) => Success(startOk && endOk)
  }

  // ---------------------------------------------------------------------
  // What the validator accepts

  /** `scrub` is a scrub word, one space, and a scrub word, in any case. */
  predicate IsScrubAt(scrub: string, p: nat)
    requires p < |scrub|
  {
    scrub[p] == ' ' && IsScrubWord(Lower(scrub[..p])) && IsScrubWord(Lower(scrub[p + 1..]))
  }

  /** A word that lower-cases to a scrub word is a non-empty run of letters. */
  lemma ScrubWordShape(w: string)
    requires IsScrubWord(Lower(w))
    ensures w != [] && AllWord(w) && ' ' !in w
  {
    var l := Lower(w);
    assert forall k :: 0 <= k < |l| ==> 'a' <= l[k] <= 'z';
    forall k | 0 <= k < |w| ensures IsWordChar(w[k]) && w[k] != ' ' {
      LowerCharClass(w[k]);
    }
  }

  /** The missing second field is the only way the validator fails. */
  lemma CorrectWordsFailure(scrub: string)
    ensures ComposedByCorrectWords(scrub).Failure? <==> ' ' !in scrub
  {
    SplitOnHasSecond(scrub, ' ');
  }

  /**
   * `verifyScrub` throws exactly for a two-word scrub whose separator
   * contains no space.
   */
  lemma VerifyScrubCrashes(scrub: string)
    ensures VerifyScrub(scrub).Failure? <==> ComposedByTwoWords(scrub) && ' ' !in scrub
  {
    CorrectWordsFailure(scrub);
  }

  /** A tab between the two words makes `verifyScrub` throw. */
  lemma TabSeparatedScrubCrashes(scrub: string)
    requires scrub == "top\tbottom"
    ensures VerifyScrub(scrub) == Failure(SecondWordUndefined)
  {
    SplitAroundRun("top", "\t", "bottom");
    assert "top" + "\t" + "bottom" == scrub;
    assert ' ' !in scrub;
    VerifyScrubCrashes(scrub);
  }

  /** Two words separated by one space are judged by their lower-cased forms. */
  lemma VerifyScrubOfPair(a: string, b: string)
    requires AllWord(a) && AllWord(b)
    ensures VerifyScrub(a + " " + b) ==
            Success(IsScrubWord(Lower(a)) && IsScrubWord(Lower(b)))
  {
    SplitAroundRun(a, " ", b);
    assert ' ' !in a && ' ' !in b by {
      assert !IsWordChar(' ');
    }
    SplitOnPair(a, b, ' ');
    assert a + " " + b == a + [' '] + b;
  }

  /**
   * The validator accepts exactly a scrub word, a single space and a scrub
   * word, each in any mix of upper and lower case.
   */
  lemma VerifyScrubGrammar(scrub: string)
    ensures VerifyScrub(scrub) == Success(true) <==>
            exists p: nat :: p < |scrub| && IsScrubAt(scrub, p)
  {
    if exists p: nat :: p < |scrub| && IsScrubAt(scrub, p) {
      var p: nat :| p < |scrub| && IsScrubAt(scrub, p);
      ScrubWordShape(scrub[..p]);
      ScrubWordShape(scrub[p + 1..]);
      VerifyScrubOfPair(scrub[..p], scrub[p + 1..]);
      assert scrub[..p] + " " + scrub[p + 1..] == scrub;
    }
    if VerifyScrub(scrub) == Success(true) {
      var p := AcceptedShape(scrub);
    }
  }

  lemma AcceptedShape(s: string) returns (p: nat)
    requires VerifyScrub(s) == Success(true)
    ensures p < |s| && IsScrubAt(s, p)
  {
    CorrectWordsFailure(s);
    p := IndexOf(s, ' ');
    var t := s[p + 1..];
    FirstTwoFields(s, ' ');
    var f1 := SplitOn(t, ' ')[0];
    ScrubWordShape(s[..p]);
    ScrubWordShape(f1);
    SplitOnFirstIsPrefix(t, ' ');
    assert t != [] && t[0] == f1[0];
    TwoFieldsShape(s);
    var i: nat, j: nat :| i < j <= |s| && SingleRunAt(s, i, j);
    RunIsFirstSpace(s, i, j, p);
    assert s[j..] == t;
    SplitOnWithout(t, ' ');
  }

  /**
   * The only run of non-word characters of a two-word string is a single
   * space that follows a word and precedes a word character.
   */
  lemma RunIsFirstSpace(s: string, i: nat, j: nat, p: nat)
    requires i < j <= |s| && SingleRunAt(s, i, j)
    requires p + 1 < |s| && AllWord(s[..p]) && !IsWordChar(s[p]) && IsWordChar(s[p + 1])
    ensures i == p && j == p + 1
  {
    assert !IsWordChar(s[i]) by { assert s[i..j][0] == s[i]; }
    assert forall k :: 0 <= k < p ==> IsWordChar(s[k]) by {
      forall k | 0 <= k < p ensures IsWordChar(s[k]) { assert s[..p][k] == s[k]; }
    }
    assert forall k :: 0 <= k < i ==> IsWordChar(s[k]) by {
      forall k | 0 <= k < i ensures IsWordChar(s[k]) { assert s[..i][k] == s[k]; }
    }
    assert forall k :: i <= k < j ==> !IsWordChar(s[k]) by {
      forall k | i <= k < j ensures !IsWordChar(s[k]) { assert s[i..j][k - i] == s[k]; }
    }
    assert forall k :: j <= k < |s| ==> IsWordChar(s[k]) by {
      forall k | j <= k < |s| ensures IsWordChar(s[k]) { assert s[j..][k - j] == s[k]; }
    }
  }

  /** Scrubs that differ only in letter case get the same verdict. */
  lemma CaseInsensitive(s: string, t: string)
    requires Lower(s) == Lower(t)
    ensures VerifyScrub(s) == VerifyScrub(t)
  {
    VerifyScrubOfLower(s);
    VerifyScrubOfLower(t);
  }

  lemma VerifyScrubOfLower(s: string)
    ensures VerifyScrub(Lower(s)) == VerifyScrub(s)
  {
    var l := Lower(s);
    TwoFieldsShape(s);
    TwoFieldsShape(l);
    if ComposedByTwoWords(s) {
      var i: nat, j: nat :| i < j <= |s| && SingleRunAt(s, i, j);
      RunAtLower(s, i, j);
    }
    if ComposedByTwoWords(l) {
      var i: nat, j: nat :| i < j <= |l| && SingleRunAt(l, i, j);
      RunAtLower(s, i, j);
    }
    SplitOnSpaceLower(s);
    var fields := SplitOn(s, ' ');
    if |fields| >= 2 {
      LowerIdempotent(fields[0]);
      LowerIdempotent(fields[1]);
    }
  }

  lemma RunAtLower(s: string, i: nat, j: nat)
    requires i < j <= |s|
    ensures SingleRunAt(Lower(s), i, j) == SingleRunAt(s, i, j)
  {
    assert Lower(s)[..i] == Lower(s[..i]);
    assert Lower(s)[i..j] == Lower(s[i..j]);
    assert Lower(s)[j..] == Lower(s[j..]);
    LowerKeepsClasses(s[..i]);
    LowerKeepsClasses(s[i..j]);
    LowerKeepsClasses(s[j..]);
  }

  // ---------------------------------------------------------------------
  // The expectations of the validator's unit tests, one lemma per test
  // case. Each takes its strings as parameters equal to the literals, so
  // that the verifier reasons from the lemmas above instead of unfolding
  // the splitting functions character by character.

  lemma NotTwoWordsExamples(s1: string, s2: string)
    requires s1 == "toptop" && s2 == ""
    ensures !ComposedByTwoWords(s1) && !ComposedByTwoWords(s2)
  {
    SplitNonWordOfWord(s1);
  }

  lemma TwoWordsExample(s: string)
    requires s == "top bottom"
    ensures ComposedByTwoWords(s)
  {
    SplitAroundRun("top", " ", "bottom");
    assert "top" + " " + "bottom" == s;
  }

  /** `a + " " + b` split on spaces, for words without spaces. */
  lemma Pair(a: string, b: string)
    requires ' ' !in a && ' ' !in b
    ensures SplitOn(a + " " + b, ' ') == [a, b]
  {
    SplitOnPair(a, b, ' ');
    assert a + " " + b == a + [' '] + b;
  }

  lemma WrongWordsExamples(s1: string, s2: string)
    requires s1 == "hello bottom" && s2 == "hello world"
    ensures ComposedByCorrectWords(s1) == Success(false)
    ensures ComposedByCorrectWords(s2) == Success(false)
  {
    Pair("hello", "bottom");
    assert "hello" + " " + "bottom" == s1;
    Pair("hello", "world");
    assert "hello" + " " + "world" == s2;
  }

  lemma RightWordsExamples(s1: string, s2: string, s3: string)
    requires s1 == "top top" && s2 == "top bottom" && s3 == "bottom bottom"
    ensures ComposedByCorrectWords(s1) == Success(true)
    ensures ComposedByCorrectWords(s2) == Success(true)
    ensures ComposedByCorrectWords(s3) == Success(true)
  {
    Pair("top", "top");
    assert "top" + " " + "top" == s1;
    Pair("top", "bottom");
    assert "top" + " " + "bottom" == s2;
    Pair("bottom", "bottom");
    assert "bottom" + " " + "bottom" == s3;
    assert Lower("top") == "top" && Lower("bottom") == "bottom";
  }

  lemma VerifyScrubRejectsOneWordExamples(s1: string, s2: string)
    requires s1 == "HelloWorld" && s2 == ""
    ensures VerifyScrub(s1) == Success(false) && VerifyScrub(s2) == Success(false)
  {
    SplitNonWordOfWord(s1);
  }

  lemma VerifyScrubRejectsWrongWordExamples(s1: string, s2: string, s3: string)
    requires s1 == "Hello World" && s2 == "Top Bttom" && s3 == "hello World"
    ensures VerifyScrub(s1) == Success(false)
    ensures VerifyScrub(s2) == Success(false)
    ensures VerifyScrub(s3) == Success(false)
  {
    RejectedPair("Hello", "World", s1);
    RejectedPair("Top", "Bttom", s2);
    RejectedPair("hello", "World", s3);
  }

  /** A pair of words, one of which is not a scrub word in any case, is rejected. */
  lemma RejectedPair(a: string, b: string, s: string)
    requires AllWord(a) && AllWord(b) && s == a + " " + b
    requires !IsScrubWord(Lower(a)) || !IsScrubWord(Lower(b))
    ensures VerifyScrub(s) == Success(false)
  {
    VerifyScrubOfPair(a, b);
  }

  /** A pair of words that are both scrub words in some case is accepted. */
  lemma AcceptedPair(a: string, b: string, s: string)
    requires AllWord(a) && AllWord(b) && s == a + " " + b
    requires IsScrubWord(Lower(a)) && IsScrubWord(Lower(b))
    ensures VerifyScrub(s) == Success(true)
  {
    VerifyScrubOfPair(a, b);
  }

  lemma VerifyScrubAcceptsExamples(s1: string, s2: string)
    requires s1 == "Top bottom" && s2 == "bottom bottom"
    ensures VerifyScrub(s1) == Success(true) && VerifyScrub(s2) == Success(true)
  {
    VerifyScrubOfPair("Top", "bottom");
    assert "Top" + " " + "bottom" == s1;
    VerifyScrubOfPair("bottom", "bottom");
    assert "bottom" + " " + "bottom" == s2;
    assert Lower("Top") == "top" && Lower("bottom") == "bottom";
  }

  /** Two wrong scrubs, and one right scrub with a wrong one, are rejected together. */
  lemma VerifyScrubsRejectsExamples(a: string, b: string, c: string, d: string)
    requires a == "hello world" && b == "Hello World"
    requires c == "top tOp" && d == "bttm bottom"
    ensures VerifyScrubs(a, b) == Success(false)
    ensures VerifyScrub(c) == Success(true) && VerifyScrubs(c, d) == Success(false)
  {
    assert "hello" + " " + "world" == a && "Hello" + " " + "World" == b;
    assert "top" + " " + "tOp" == c && "bttm" + " " + "bottom" == d;
    RejectedPair("hello", "world", a);
    RejectedPair("Hello", "World", b);
    assert Lower("top") == "top" && Lower("tOp") == "top";
    AcceptedPair("top", "tOp", c);
    RejectedPair("bttm", "bottom", d);
  }

  lemma VerifyScrubsBothRightExample(a: string, b: string)
    requires a == "top top" && b == "Bottom Bottom"
    ensures VerifyScrubs(a, b) == Success(true)
  {
    VerifyScrubOfPair("top", "top");
    assert "top" + " " + "top" == a;
    VerifyScrubOfPair("Bottom", "Bottom");
    assert "Bottom" + " " + "Bottom" == b;
    assert Lower("top") == "top" && Lower("Bottom") == "bottom";
  }

  // ---------------------------------------------------------------------
  // The validator without the crash

  /**
   * `compsedByCorrectWords` with a missing second field read as "not a
   * scrub word" instead of a TypeError.
   */
  function ComposedByCorrectWordsTotal(scrub: string): bool {
    var fields := SplitOn(scrub, ' ');
    |fields| >= 2 && IsScrubWord(Lower(fields[0])) && IsScrubWord(Lower(fields[1]))
  }

  /**
   * `verifyScrub` as evidently intended: it always answers, agrees with the
   * source wherever the source answers, and accepts exactly the scrub grammar.
   */
  function VerifyScrubTotal(scrub: string): (ok: bool)
    ensures ok <==> exists p: nat :: p < |scrub| && IsScrubAt(scrub, p)
    ensures VerifyScrub(scrub).Success? ==> ok == VerifyScrub(scrub).value
    ensures VerifyScrub(scrub).Failure? ==> !ok
  {
    VerifyScrubGrammar(scrub);
    CorrectWordsFailure(scrub);
    ComposedByTwoWords(scrub) && ComposedByCorrectWordsTotal(scrub)
  }
}
