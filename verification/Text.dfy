/** The string operations of Python that the knowledge splitter relies on: split(), strip(), split("\n\n"), join. */
module Text {
  /** What str.split and str.strip treat as white space. */
  predicate IsSpace(c: char) {
    var n := c as int;
    || 9 <= n <= 13 || 28 <= n <= 32 || n == 133 || n == 160 || n == 5760
    || 8192 <= n <= 8202 || n == 8232 || n == 8233 || n == 8239 || n == 8287 || n == 12288
  }

  const BLANK_LINE := "\n\n"

  /** The length of the longest prefix without white space. */
  function WordLength(s: string): (n: nat)
    ensures n <= |s|
    ensures forall i :: 0 <= i < n ==> !IsSpace(s[i])
    ensures n < |s| ==> IsSpace(s[n])
  {
    if s == [] || IsSpace(s[0]) then 0 else 1 + WordLength(s[1..])
  }

  /** str.split(): the maximal runs of characters that are no white space. */
  function Words(s: string): seq<string> {
    if s == [] then []
    else if IsSpace(s[0]) then Words(s[1..])
    else
      var n := WordLength(s);
      [s[..n]] + Words(s[n..])
  }

  function TrimLeft(s: string): string {
    if s != [] && IsSpace(s[0]) then TrimLeft(s[1..]) else s
  }

  function TrimRight(s: string): string {
    if s != [] && IsSpace(s[|s| - 1]) then TrimRight(s[..|s| - 1]) else s
  }

  /** str.strip(). */
  function Strip(s: string): string {
    TrimRight(TrimLeft(s))
  }

  predicate Stripped(s: string) {
    s == [] || (!IsSpace(s[0]) && !IsSpace(s[|s| - 1]))
  }

  /** str.split("\n\n"): cut at blank lines, left to right. */
  function SplitBlank(s: string): seq<string> {
    var i := FirstBlank(s);
    if i + 2 > |s| then [s] else [s[..i]] + SplitBlank(s[i + 2..])
  }

  /** The position of the first blank line; the length of the text when there is none. */
  function FirstBlank(s: string): (i: nat)
    ensures i <= |s|
    ensures i + 2 <= |s| ==> s[i] == '\n' && s[i + 1] == '\n'
    ensures forall k :: 0 <= k < i && k + 2 <= |s| ==> !(s[k] == '\n' && s[k + 1] == '\n')
  {
    if |s| < 2 then |s| else if s[0] == '\n' && s[1] == '\n' then 0 else 1 + FirstBlank(s[1..])
  }

  /** "\n\n".join(parts). */
  function Join(parts: seq<string>): string {
    if parts == [] then []
    else if |parts| == 1 then parts[0]
    else parts[0] + BLANK_LINE + Join(parts[1..])
  }

  /** The words of all parts, in order. */
  function AllWords(parts: seq<string>): seq<string> {
    if parts == [] then [] else Words(parts[0]) + AllWords(parts[1..])
  }

  // ---- Words ----

  /** The first word is the same in a longer text, provided it is not continued there. */
  lemma {:induction false} WordLengthConcat(a: string, b: string)
    requires a == [] || b == [] || IsSpace(a[|a| - 1]) || IsSpace(b[0])
    requires a != []
    ensures WordLength(a + b) == WordLength(a)
  {
    assert (a + b)[1..] == a[1..] + b;
    if |a| > 1 {
      WordLengthConcat(a[1..], b);
    } else {
      assert a[1..] + b == b;
    }
  }

  /** Cutting both texts at the same place. */
  lemma CutConcat(a: string, b: string, n: nat)
    requires n <= |a|
    ensures (a + b)[..n] == a[..n] && (a + b)[n..] == a[n..] + b
  {
  }

  /** A cut next to white space splits no word. */
  lemma {:induction false} WordsConcat(a: string, b: string)
    requires a == [] || b == [] || IsSpace(a[|a| - 1]) || IsSpace(b[0])
    ensures Words(a + b) == Words(a) + Words(b)
  {
    if a == [] {
      assert a + b == b;
    } else if IsSpace(a[0]) {
      assert (a + b)[1..] == a[1..] + b;
      WordsConcat(a[1..], b);
    } else {
      var n := WordLength(a);
      WordLengthConcat(a, b);
      CutConcat(a, b, n);
      WordsConcat(a[n..], b);
      Regroup([a[..n]], Words(a[n..]), Words(b));
    }
  }

  lemma Regroup<T>(a: seq<T>, b: seq<T>, c: seq<T>)
    ensures a + (b + c) == a + b + c
  {
  }

  lemma {:induction false} TrimLeftKeepsWords(s: string)
    ensures Words(TrimLeft(s)) == Words(s)
    ensures TrimLeft(s) == [] || !IsSpace(TrimLeft(s)[0])
  {
    if s == [] || !IsSpace(s[0]) {
    } else {
      TrimLeftKeepsWords(s[1..]);
    }
  }

  lemma {:induction false} TrimRightKeepsWords(s: string)
    ensures Words(TrimRight(s)) == Words(s)
    ensures TrimRight(s) <= s
    ensures TrimRight(s) == [] || !IsSpace(TrimRight(s)[|TrimRight(s)| - 1])
  {
    if s == [] || !IsSpace(s[|s| - 1]) {
    } else {
      var t := s[..|s| - 1];
      TrimRightKeepsWords(t);
      assert s == t + [s[|s| - 1]];
      WordsConcat(t, [s[|s| - 1]]);
      assert [s[|s| - 1]][1..] == [];
    }
  }

  lemma StripKeepsWords(s: string)
    ensures Words(Strip(s)) == Words(s) && Stripped(Strip(s))
    ensures Strip(s) == [] <==> Words(s) == []
  {
    TrimLeftKeepsWords(s);
    TrimRightKeepsWords(TrimLeft(s));
  }

  lemma StripIsIdentity(s: string)
    requires Stripped(s)
    ensures Strip(s) == s
  {
  }

  lemma BlankLineHasNoWords()
    ensures Words(BLANK_LINE) == []
  {
    assert BLANK_LINE[1..] == "\n";
    assert "\n"[1..] == [];
  }

  lemma WordsAcrossBlank(a: string, b: string)
    ensures Words(a + BLANK_LINE + b) == Words(a) + Words(b)
  {
    WordsConcat(a, BLANK_LINE);
    WordsConcat(a + BLANK_LINE, b);
    BlankLineHasNoWords();
  }

  lemma {:induction false} SplitBlankKeepsWords(s: string)
    ensures AllWords(SplitBlank(s)) == Words(s)
    decreases |s|
  {
    var i := FirstBlank(s);
    if i + 2 > |s| {
      assert SplitBlank(s) == [s];
      assert AllWords([s]) == Words(s) + AllWords([]);
    } else {
      SplitBlankKeepsWords(s[i + 2..]);
      assert s == s[..i] + BLANK_LINE + s[i + 2..];
      WordsAcrossBlank(s[..i], s[i + 2..]);
      assert SplitBlank(s)[1..] == SplitBlank(s[i + 2..]);
    }
  }

  lemma {:induction false} AllWordsConcat(a: seq<string>, b: seq<string>)
    ensures AllWords(a + b) == AllWords(a) + AllWords(b)
  {
    if a == [] {
      assert a + b == b;
    } else {
      assert (a + b)[1..] == a[1..] + b;
      AllWordsConcat(a[1..], b);
    }
  }

  /** Joining keeps exactly the words of the parts. */
  lemma {:induction false} JoinKeepsWords(parts: seq<string>)
    ensures Words(Join(parts)) == AllWords(parts)
  {
    if |parts| == 1 {
      assert AllWords(parts) == Words(parts[0]) + AllWords([]);
    } else if |parts| > 1 {
      JoinKeepsWords(parts[1..]);
      WordsAcrossBlank(parts[0], Join(parts[1..]));
    }
  }

  lemma {:induction false} JoinConcat(a: seq<string>, b: seq<string>)
    requires a != [] && b != []
    ensures Join(a + b) == Join(a) + BLANK_LINE + Join(b)
  {
    if |a| == 1 {
      assert (a + b)[1..] == b;
    } else {
      assert (a + b)[1..] == a[1..] + b;
      JoinConcat(a[1..], b);
      assert a[0] + BLANK_LINE + (Join(a[1..]) + BLANK_LINE + Join(b)) ==
             a[0] + BLANK_LINE + Join(a[1..]) + BLANK_LINE + Join(b);
    }
  }

  // ---- What splitting, stripping and joining do to the characters ----

  /** A text without white space is one word. */
  lemma OneWord(s: string)
    requires s != [] && forall i :: 0 <= i < |s| ==> !IsSpace(s[i])
    ensures Words(s) == [s]
  {
    assert WordLength(s) == |s|;
    assert s[..|s|] == s && s[|s|..] == [];
    assert Words(s) == [s] + Words([]);
  }

  predicate AllSpace(s: string) {
    forall i :: 0 <= i < |s| ==> IsSpace(s[i])
  }

  /** White space alone has no word. */
  lemma {:induction false} SpaceHasNoWords(s: string)
    requires AllSpace(s)
    ensures Words(s) == []
  {
    if s == [] {
    } else {
      SpaceHasNoWords(s[1..]);
    }
  }

  lemma {:induction false} TrimLeftCutsSpace(s: string) returns (k: nat)
    ensures k <= |s| && AllSpace(s[..k]) && TrimLeft(s) == s[k..]
  {
    if s == [] || !IsSpace(s[0]) {
      k := 0;
    } else {
      var j := TrimLeftCutsSpace(s[1..]);
      k := j + 1;
      assert s[..k] == [s[0]] + s[1..][..j] && s[k..] == s[1..][j..];
    }
  }

  lemma {:induction false} TrimRightCutsSpace(s: string) returns (k: nat)
    ensures k <= |s| && AllSpace(s[k..]) && TrimRight(s) == s[..k]
  {
    if s == [] || !IsSpace(s[|s| - 1]) {
      k := |s|;
    } else {
      var t := s[..|s| - 1];
      k := TrimRightCutsSpace(t);
      assert s[k..] == t[k..] + [s[|s| - 1]] && s[..k] == t[..k];
    }
  }

  /** Stripping cuts white space off both ends and nothing else. */
  lemma StripCutsSpace(s: string) returns (lo: nat, hi: nat)
    ensures lo <= hi <= |s| && Strip(s) == s[lo..hi] && AllSpace(s[..lo]) && AllSpace(s[hi..])
  {
    lo := TrimLeftCutsSpace(s);
    var k := TrimRightCutsSpace(s[lo..]);
    hi := lo + k;
    assert s[lo..][..k] == s[lo..hi] && s[lo..][k..] == s[hi..];
  }

  predicate HasBlankLine(s: string) {
    exists i :: 0 <= i < |s| - 1 && s[i] == '\n' && s[i + 1] == '\n'
  }

  lemma SliceHasBlankLine(s: string, lo: nat, hi: nat)
    requires lo <= hi <= |s| && HasBlankLine(s[lo..hi])
    ensures HasBlankLine(s)
  {
    var t := s[lo..hi];
    var i :| 0 <= i < |t| - 1 && t[i] == '\n' && t[i + 1] == '\n';
    assert s[lo + i] == '\n' && s[lo + i + 1] == '\n';
  }

  lemma JoinCons(part: string, rest: seq<string>)
    requires rest != []
    ensures Join([part] + rest) == part + BLANK_LINE + Join(rest)
  {
    assert ([part] + rest)[1..] == rest;
  }

  lemma BlankCut(s: string, i: nat)
    requires i + 2 <= |s| && s[i] == '\n' && s[i + 1] == '\n'
    ensures s == s[..i] + BLANK_LINE + s[i + 2..]
  {
  }

  /** Cutting at blank lines loses nothing but them. */
  lemma {:induction false} SplitBlankJoins(s: string)
    ensures SplitBlank(s) != [] && Join(SplitBlank(s)) == s
    decreases |s|
  {
    var i := FirstBlank(s);
    if i + 2 > |s| {
    } else {
      SplitBlankJoins(s[i + 2..]);
      JoinCons(s[..i], SplitBlank(s[i + 2..]));
      BlankCut(s, i);
    }
  }

  /** The parts have no blank line of their own. */
  lemma {:induction false} PartsHaveNoBlankLine(s: string, part: string)
    requires part in SplitBlank(s)
    ensures !HasBlankLine(part)
    decreases |s|
  {
    var i := FirstBlank(s);
    if i + 2 > |s| || part == s[..i] {
    } else {
      PartsHaveNoBlankLine(s[i + 2..], part);
    }
  }
}
