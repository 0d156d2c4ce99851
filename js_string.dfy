/**
 * The few JavaScript string operations the core relies on, defined on
 * `seq<char>`: `split(/\W+/)`, `split(" ")`, `toLowerCase()`, the decimal
 * `toString()` of an integer and `padStart`.
 */
module JsString {

  // ---------------------------------------------------------------------
  // Character classes

  /** A character matched by the regular expression `\w` (no `u` flag). */
  predicate IsWordChar(c: char) {
    'a' <= c <= 'z' || 'A' <= c <= 'Z' || '0' <= c <= '9' || c == '_'
  }

  predicate AllWord(s: string) {
    forall k :: 0 <= k < |s| ==> IsWordChar(s[k])
  }

  predicate AllNonWord(s: string) {
    forall k :: 0 <= k < |s| ==> !IsWordChar(s[k])
  }

  // ---------------------------------------------------------------------
  // s.split(/\W+/)

  /** The length of the leading run of non-word characters of `s`. */
  function NonWordPrefix(s: string): (n: nat)
    ensures n <= |s|
    ensures forall k :: 0 <= k < n ==> !IsWordChar(s[k])
    ensures n == |s| || IsWordChar(s[n])
  {
    if s == [] || IsWordChar(s[0]) then 0
    else
      var n := NonWordPrefix(s[1..]) + 1;
      assert forall k :: 1 <= k < n ==> s[k] == s[1..][k - 1];
      n
  }

  /** `s` without its leading run of non-word characters. */
  function DropNonWord(s: string): (r: string)
    ensures |r| <= |s| && r == s[|s| - |r|..]
    ensures AllNonWord(s[..|s| - |r|])
    ensures r == [] || IsWordChar(r[0])
  {
    var n := NonWordPrefix(s);
    assert forall k :: 0 <= k < n ==> s[..n][k] == s[k];
    s[n..]
  }

  /**
   * `s.split(/\W+/)`: the fields between maximal runs of non-word
   * characters. As in JavaScript, a run at either end yields an empty
   * leading or trailing field, and the empty string yields `[""]`.
   */
  function SplitNonWord(s: string): (fields: seq<string>)
    ensures |fields| >= 1
    ensures forall i :: 0 <= i < |fields| ==> AllWord(fields[i])
    decreases |s|
  {
    if s == [] then [""]
    else if IsWordChar(s[0]) then
      var rest := SplitNonWord(s[1..]);
      [[s[0]] + rest[0]] + rest[1..]
    else
      [""] + SplitNonWord(DropNonWord(s))
  }

  /** A string of word characters is a single field. */
  lemma {:induction false} SplitNonWordOfWord(w: string)
    requires AllWord(w)
    ensures SplitNonWord(w) == [w]
  {
    if w != [] {
      SplitNonWordOfWord(w[1..]);
      assert [w[0]] + w[1..] == w;
    }
  }

  /** A leading word glues onto the first field of what follows it. */
  lemma {:induction false} SplitNonWordPrefix(w: string, t: string)
    requires AllWord(w)
    ensures SplitNonWord(w + t) ==
            [w + SplitNonWord(t)[0]] + SplitNonWord(t)[1..]
    decreases |w|
  {
    var T := SplitNonWord(t);
    if w == [] {
      assert w + t == t && w + T[0] == T[0] && [T[0]] + T[1..] == T;
    } else {
      assert (w + t)[0] == w[0] && (w + t)[1..] == w[1..] + t;
      SplitNonWordPrefix(w[1..], t);
      var rest := SplitNonWord(w[1..] + t);
      assert rest[0] == w[1..] + T[0] && rest[1..] == T[1..];
      assert SplitNonWord(w + t) == [[w[0]] + rest[0]] + rest[1..];
      assert [w[0]] + (w[1..] + T[0]) == w + T[0];
    }
  }

  /** Only a string of word characters splits into a single field. */
  lemma {:induction false} SingleFieldIsWord(s: string)
    requires |SplitNonWord(s)| == 1
    ensures AllWord(s)
    decreases |s|
  {
    if s != [] && IsWordChar(s[0]) {
      SingleFieldIsWord(s[1..]);
      assert s == [s[0]] + s[1..];
    }
  }

  /** `s[i..j]` is a run of non-word characters with only word characters around it. */
  predicate SingleRunAt(s: string, i: nat, j: nat)
    requires i < j <= |s|
  {
    AllWord(s[..i]) && AllNonWord(s[i..j]) && AllWord(s[j..])
  }

  /**
   * `s.split(/\W+/)` has exactly two fields if and only if `s` is a
   * (possibly empty) word, one run of non-word characters, and a
   * (possibly empty) word.
   */
  lemma {:induction false} TwoFieldsShape(s: string)
    ensures |SplitNonWord(s)| == 2 <==>
            exists i: nat, j: nat :: i < j <= |s| && SingleRunAt(s, i, j)
  {
    if |SplitNonWord(s)| == 2 {
      var i, j := TwoFieldsWitness(s);
    }
    forall i: nat, j: nat | i < j <= |s| && SingleRunAt(s, i, j)
      ensures |SplitNonWord(s)| == 2
    {
      RunGivesTwoFields(s, i, j);
    }
  }

  lemma RunGivesTwoFields(s: string, i: nat, j: nat)
    requires i < j <= |s| && SingleRunAt(s, i, j)
    ensures SplitNonWord(s) == [s[..i], s[j..]]
  {
    SplitAroundRun(s[..i], s[i..j], s[j..]);
    assert s[..i] + s[i..j] + s[j..] == s;
  }

  lemma {:induction false} TwoFieldsWitness(s: string) returns (i: nat, j: nat)
    requires |SplitNonWord(s)| == 2
    ensures i < j <= |s| && SingleRunAt(s, i, j)
    decreases |s|
  {
    assert s != [];
    if IsWordChar(s[0]) {
      WordCharKeepsFieldCount(s);
      var i', j' := TwoFieldsWitness(s[1..]);
      i, j := i' + 1, j' + 1;
      ShiftRun(s, i', j');
    } else {
      j := RunAtFront(s);
      i := 0;
    }
  }

  /** A leading word character joins the first field and adds none. */
  lemma WordCharKeepsFieldCount(s: string)
    requires s != [] && IsWordChar(s[0])
    ensures |SplitNonWord(s)| == |SplitNonWord(s[1..])|
  {
    var rest := SplitNonWord(s[1..]);
    assert SplitNonWord(s) == [[s[0]] + rest[0]] + rest[1..];
  }

  /** A two-field split of a string that starts with a non-word character. */
  lemma RunAtFront(s: string) returns (j: nat)
    requires s != [] && !IsWordChar(s[0]) && |SplitNonWord(s)| == 2
    ensures 0 < j <= |s| && SingleRunAt(s, 0, j)
  {
    var d := DropNonWord(s);
    assert SplitNonWord(s) == [""] + SplitNonWord(d);
    SingleFieldIsWord(d);
    j := |s| - |d|;
    assert j > 0;
    assert s[0..j] == s[..|s| - |d|];
    assert s[j..] == d;
    assert s[..0] == [];
  }

  lemma ShiftRun(s: string, i: nat, j: nat)
    requires s != [] && IsWordChar(s[0])
    requires i < j <= |s| - 1 && SingleRunAt(s[1..], i, j)
    ensures SingleRunAt(s, i + 1, j + 1)
  {
    assert s[..i + 1] == [s[0]] + s[1..][..i];
    assert s[i + 1..j + 1] == s[1..][i..j];
    assert s[j + 1..] == s[1..][j..];
  }

  /** The fields of a word, a run of non-word characters, and a word. */
  lemma SplitAroundRun(a: string, sep: string, b: string)
    requires AllWord(a) && AllWord(b)
    requires sep != [] && AllNonWord(sep)
    ensures SplitNonWord(a + sep + b) == [a, b]
  {
    var t := sep + b;
    assert DropNonWord(t) == b by {
      DropNonWordOfRun(sep, b);
    }
    SplitNonWordOfWord(b);
    assert SplitNonWord(t) == [""] + SplitNonWord(b);
    SplitNonWordPrefix(a, t);
    assert a + sep + b == a + t;
    assert a + "" == a;
  }

  lemma {:induction false} DropNonWordOfRun(sep: string, b: string)
    requires AllNonWord(sep)
    requires b == [] || IsWordChar(b[0])
    ensures DropNonWord(sep + b) == b
    decreases |sep|
  {
    if sep == [] {
      assert sep + b == b;
    } else {
      assert (sep + b)[1..] == sep[1..] + b;
      DropNonWordOfRun(sep[1..], b);
    }
  }

  // ---------------------------------------------------------------------
  // s.split(c) with a one-character separator

  /** `s.split(c)`: every field between two occurrences of `c`. */
  function SplitOn(s: string, c: char): (fields: seq<string>)
    ensures |fields| >= 1
    ensures forall i :: 0 <= i < |fields| ==> c !in fields[i]
  {
    if s == [] then [""]
    else
      var rest := SplitOn(s[1..], c);
      if s[0] == c then [""] + rest else [[s[0]] + rest[0]] + rest[1..]
  }

  /** `fields.join(c)`. */
  function Join(fields: seq<string>, c: char): string
    requires |fields| >= 1
  {
    if |fields| == 1 then fields[0] else fields[0] + [c] + Join(fields[1..], c)
  }

  /** Joining the fields of a split with the separator gives back the string. */
  lemma {:induction false} JoinSplitOn(s: string, c: char)
    ensures Join(SplitOn(s, c), c) == s
  {
    if s != [] {
      var rest := SplitOn(s[1..], c);
      JoinSplitOn(s[1..], c);
      if s[0] == c {
        assert ([""] + rest)[1..] == rest;
      } else if |rest| > 1 {
        var fields := [[s[0]] + rest[0]] + rest[1..];
        assert fields[1..] == rest[1..];
        assert Join(rest, c) == rest[0] + [c] + Join(rest[1..], c);
      }
      assert s == [s[0]] + s[1..];
    }
  }

  /** A string without the separator is one field. */
  lemma {:induction false} SplitOnWithout(s: string, c: char)
    requires c !in s
    ensures SplitOn(s, c) == [s]
  {
    if s != [] {
      assert c !in s[1..];
      SplitOnWithout(s[1..], c);
      assert [s[0]] + s[1..] == s;
    }
  }

  /** The first field ends at the first separator; the rest is split again. */
  lemma {:induction false} SplitOnAt(w: string, t: string, c: char)
    requires c !in w
    ensures SplitOn(w + [c] + t, c) == [w] + SplitOn(t, c)
  {
    if w == [] {
      assert w + [c] + t == [c] + t;
      assert ([c] + t)[1..] == t;
    } else {
      assert (w + [c] + t)[1..] == w[1..] + [c] + t;
      SplitOnAt(w[1..], t, c);
      assert [w[0]] + w[1..] == w;
    }
  }

  /** The position of the first `c` in `s`. */
  function IndexOf(s: string, c: char): (p: nat)
    requires c in s
    ensures p < |s| && s[p] == c && c !in s[..p]
  {
    if s[0] == c then 0
    else
      var p := IndexOf(s[1..], c) + 1;
      assert s[..p] == [s[0]] + s[1..][..p - 1];
      p
  }

  /** `s.split(c)` has a second field exactly when `c` occurs in `s`. */
  lemma SplitOnHasSecond(s: string, c: char)
    ensures |SplitOn(s, c)| >= 2 <==> c in s
  {
    if c in s {
      FirstTwoFields(s, c);
    } else {
      SplitOnWithout(s, c);
    }
  }

  /** Around the first separator: the first field precedes it, the second starts after it. */
  lemma FirstTwoFields(s: string, c: char)
    requires c in s
    ensures var p := IndexOf(s, c);
            SplitOn(s, c) == [s[..p]] + SplitOn(s[p + 1..], c) && |SplitOn(s, c)| >= 2
  {
    var p := IndexOf(s, c);
    var w, t := s[..p], s[p + 1..];
    assert s == w + [c] + t;
    SplitOnAt(w, t, c);
  }

  /** The first field is the part of `s` before the first separator. */
  lemma {:induction false} SplitOnFirstIsPrefix(s: string, c: char)
    ensures |SplitOn(s, c)[0]| <= |s| && SplitOn(s, c)[0] == s[..|SplitOn(s, c)[0]|]
    ensures |SplitOn(s, c)[0]| < |s| ==> s[|SplitOn(s, c)[0]|] == c
  {
    if s != [] {
      SplitOnFirstIsPrefix(s[1..], c);
    }
  }

  /** Two fields without the separator, joined by it, split back into the two. */
  lemma SplitOnPair(a: string, b: string, c: char)
    requires c !in a && c !in b
    ensures SplitOn(a + [c] + b, c) == [a, b]
  {
    SplitOnAt(a, b, c);
    SplitOnWithout(b, c);
  }

  // ---------------------------------------------------------------------
  // toLowerCase()

  /**
   * Lower-casing of one character. Only `A`..`Z` are mapped: no other
   * character lower-cases to a letter of the words the core compares with.
   */
  function LowerChar(c: char): char {
    if 'A' <= c <= 'Z' then (c as int + 32) as char else c
  }

  function Lower(s: string): (r: string)
    ensures |r| == |s|
    ensures forall k :: 0 <= k < |s| ==> r[k] == LowerChar(s[k])
  {
    seq(|s|, k requires 0 <= k < |s| => LowerChar(s[k]))
  }

  /** Lower-casing keeps word and non-word characters apart, and spaces in place. */
  lemma LowerCharClass(c: char)
    ensures IsWordChar(LowerChar(c)) == IsWordChar(c)
    ensures (LowerChar(c) == ' ') == (c == ' ')
    ensures LowerChar(LowerChar(c)) == LowerChar(c)
  {
  }

  lemma LowerIdempotent(s: string)
    ensures Lower(Lower(s)) == Lower(s)
  {
    forall k | 0 <= k < |s| ensures Lower(Lower(s))[k] == Lower(s)[k] {
      LowerCharClass(s[k]);
    }
  }

  /** A word stays a word, and a run of non-word characters a run, under lower-casing. */
  lemma LowerKeepsClasses(s: string)
    ensures AllWord(Lower(s)) == AllWord(s)
    ensures AllNonWord(Lower(s)) == AllNonWord(s)
    ensures (' ' in Lower(s)) == (' ' in s)
  {
    forall k | 0 <= k < |s| ensures IsWordChar(Lower(s)[k]) == IsWordChar(s[k])
      && (Lower(s)[k] == ' ') == (s[k] == ' ') {
      LowerCharClass(s[k]);
    }
    if ' ' in s {
      var k :| 0 <= k < |s| && s[k] == ' ';
      assert Lower(s)[k] == ' ';
    }
    if ' ' in Lower(s) {
      var k :| 0 <= k < |s| && Lower(s)[k] == ' ';
      assert s[k] == ' ';
    }
  }

  /** Splitting on a space commutes with lower-casing. */
  lemma {:induction false} SplitOnSpaceLower(s: string)
    ensures LowerFields(SplitOn(Lower(s), ' '), SplitOn(s, ' '))
  {
    if s != [] {
      var t := s[1..];
      SplitOnSpaceLower(t);
      LowerCharClass(s[0]);
      LowerCons(s[0], t);
      assert s == [s[0]] + t;
      SplitOnCons(s[0], t, ' ');
      SplitOnCons(LowerChar(s[0]), Lower(t), ' ');
      if s[0] == ' ' {
        LowerFieldsSpace(SplitOn(Lower(t), ' '), SplitOn(t, ' '));
      } else {
        LowerFieldsWord(s[0], SplitOn(Lower(t), ' '), SplitOn(t, ' '));
      }
    }
  }

  /** `lower` is `fields` with each field lower-cased. */
  predicate LowerFields(lower: seq<string>, fields: seq<string>) {
    |lower| == |fields| && forall k :: 0 <= k < |fields| ==> lower[k] == Lower(fields[k])
  }

  lemma LowerFieldsSpace(lower: seq<string>, fields: seq<string>)
    requires LowerFields(lower, fields)
    ensures LowerFields([""] + lower, [""] + fields)
  {
    forall k | 0 < k <= |fields| ensures ([""] + lower)[k] == Lower(([""] + fields)[k]) {
      assert ([""] + lower)[k] == lower[k - 1] && ([""] + fields)[k] == fields[k - 1];
    }
  }

  lemma LowerFieldsWord(c: char, lower: seq<string>, fields: seq<string>)
    requires LowerFields(lower, fields) && |fields| >= 1
    ensures LowerFields([[LowerChar(c)] + lower[0]] + lower[1..], [[c] + fields[0]] + fields[1..])
  {
    LowerCons(c, fields[0]);
    var l, f := [[LowerChar(c)] + lower[0]] + lower[1..], [[c] + fields[0]] + fields[1..];
    forall k | 0 < k < |f| ensures l[k] == Lower(f[k]) {
      assert l[k] == lower[k] && f[k] == fields[k];
    }
  }

  /** `split` of a string given by its first character and the rest. */
  lemma SplitOnCons(c0: char, t: string, c: char)
    ensures SplitOn([c0] + t, c) ==
            if c0 == c then [""] + SplitOn(t, c) else [[c0] + SplitOn(t, c)[0]] + SplitOn(t, c)[1..]
  {
    assert ([c0] + t)[1..] == t;
  }

  lemma LowerCons(c: char, s: string)
    ensures Lower([c] + s) == [LowerChar(c)] + Lower(s)
  {
  }

  // ---------------------------------------------------------------------
  // Number.prototype.toString() on integers, String.prototype.padStart

  predicate IsDigit(c: char) { '0' <= c <= '9' }

  function DigitChar(d: nat): (c: char)
    requires d < 10
    ensures IsDigit(c)
  {
    ('0' as int + d) as char
  }

  function DigitValue(c: char): nat
    requires IsDigit(c)
  {
    c as int - '0' as int
  }

  /** The decimal digits of `n`, with no leading zero. */
  function NatToString(n: nat): (r: string)
    ensures r != []
    ensures forall k :: 0 <= k < |r| ==> IsDigit(r[k])
  {
    if n < 10 then [DigitChar(n)] else NatToString(n / 10) + [DigitChar(n % 10)]
  }

  /** `n.toString()` for an integer `n`. */
  function IntToString(n: int): string {
    if n < 0 then "-" + NatToString(-n) else NatToString(n)
  }

  function Repeat(c: char, n: nat): (r: string)
    ensures |r| == n && forall k :: 0 <= k < n ==> r[k] == c
  {
    seq(n, k => c)
  }

  /** `s.padStart(width, fill)` with a one-character `fill`. */
  function PadStart(s: string, width: nat, fill: char): string {
    if |s| >= width then s else Repeat(fill, width - |s|) + s
  }

  /** The number a string of decimal digits denotes. */
  function DigitsValue(s: string): nat
    requires forall k :: 0 <= k < |s| ==> IsDigit(s[k])
  {
    if s == [] then 0 else DigitsValue(s[..|s| - 1]) * 10 + DigitValue(s[|s| - 1])
  }

  /** Reading back the decimal digits of `n` gives `n`. */
  lemma {:induction false} NatToStringValue(n: nat)
    ensures DigitsValue(NatToString(n)) == n
  {
    if n >= 10 {
      NatToStringValue(n / 10);
      var s := NatToString(n);
      assert s[..|s| - 1] == NatToString(n / 10);
    }
  }

  /** Leading zeros do not change the number a digit string denotes. */
  lemma {:induction false} LeadingZerosValue(k: nat, s: string)
    requires forall i :: 0 <= i < |s| ==> IsDigit(s[i])
    ensures forall i :: 0 <= i < |Repeat('0', k) + s| ==> IsDigit((Repeat('0', k) + s)[i])
    ensures DigitsValue(Repeat('0', k) + s) == DigitsValue(s)
    decreases |s| + k
  {
    var z := Repeat('0', k);
    if s == [] {
      assert z + s == z;
      if k > 0 {
        LeadingZerosValue(k - 1, []);
        assert z[..k - 1] == Repeat('0', k - 1) + [];
      }
    } else {
      LeadingZerosValue(k, s[..|s| - 1]);
      assert (z + s)[..|z + s| - 1] == z + s[..|s| - 1];
    }
  }

  /** The number of decimal digits of `n` is at most `w` exactly when `n < 10^w`. */
  lemma {:induction false} NatToStringLength(n: nat, w: nat)
    requires w >= 1
    ensures |NatToString(n)| <= w <==> n < Pow10(w)
  {
    if n >= 10 && w > 1 {
      NatToStringLength(n / 10, w - 1);
    } else if n >= 10 {
      Pow10AtLeast(w);
      assert |NatToString(n)| >= 2 by { assert NatToString(n) == NatToString(n / 10) + [DigitChar(n % 10)]; }
    } else {
      Pow10AtLeast(w);
    }
  }

  function Pow10(w: nat): (r: nat)
    ensures r >= 1
  {
    if w == 0 then 1 else 10 * Pow10(w - 1)
  }

  lemma {:induction false} Pow10AtLeast(w: nat)
    requires w >= 1
    ensures Pow10(w) >= 10
  {
    if w > 1 { Pow10AtLeast(w - 1); }
  }
}
