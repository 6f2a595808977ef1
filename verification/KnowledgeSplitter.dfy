/**
 * Splitting an ingested document into sections (src/qortia/knowledge.py): greedy packing
 * of paragraphs, shown to use the fewest chunks possible, and the heading loop around it,
 * shown to lose no word once it has kept a section.
 */
module KnowledgeSplitter {
  import opened Text

  const MAX_TOKENS := 2000
  const MIN_TOKENS := 50

  datatype Section = Section(heading: string, text: string)

  /** A heading found in the content: the span of its line and its title. */
  datatype Heading = Heading(start: nat, end: nat, title: string)

  /** A word counts 1.3 tokens; the sum is rounded down. */
  function EstimateTokens(text: string): nat {
    13 * |Words(text)| / 10
  }

  /** The paragraphs of a text: cut at blank lines, stripped, empty ones dropped. */
  function Paragraphs(text: string): seq<string> {
    NonEmpty(SplitBlank(text))
  }

  function NonEmpty(parts: seq<string>): seq<string> {
    if parts == [] then []
    else (if Strip(parts[0]) == [] then [] else [Strip(parts[0])]) + NonEmpty(parts[1..])
  }

  predicate Clean(parts: seq<string>) {
    forall i :: 0 <= i < |parts| ==> parts[i] != [] && Stripped(parts[i])
  }

  lemma {:induction false} NonEmptyKeepsWords(parts: seq<string>)
    ensures AllWords(NonEmpty(parts)) == AllWords(parts)
    ensures Clean(NonEmpty(parts))
  {
    if parts == [] {
    } else {
      NonEmptyKeepsWords(parts[1..]);
      StripKeepsWords(parts[0]);
      var rest := NonEmpty(parts[1..]);
      if Strip(parts[0]) == [] {
        assert NonEmpty(parts) == rest;
      } else {
        AllWordsConcat([Strip(parts[0])], rest);
        assert AllWords([Strip(parts[0])]) == Words(Strip(parts[0])) + AllWords([]);
      }
    }
  }

  lemma ParagraphsKeepWords(text: string)
    ensures AllWords(Paragraphs(text)) == Words(text)
    ensures Clean(Paragraphs(text))
  {
    SplitBlankKeepsWords(text);
    NonEmptyKeepsWords(SplitBlank(text));
  }

  /** The paragraphs are the stripped parts between blank lines that are not empty. */
  lemma {:induction false} NonEmptyMembers(parts: seq<string>, p: string)
    ensures p in NonEmpty(parts) <==> p != [] && exists part :: part in parts && Strip(part) == p
  {
    if parts == [] {
    } else {
      NonEmptyMembers(parts[1..], p);
      assert forall part :: part in parts <==> part == parts[0] || part in parts[1..];
    }
  }

  /** No paragraph spans a blank line, and each is cut from a part of the text between blank lines. */
  lemma ParagraphsHaveNoBlankLine(text: string, p: string)
    requires p in Paragraphs(text)
    ensures !HasBlankLine(p) && exists part :: part in SplitBlank(text) && Strip(part) == p
  {
    NonEmptyMembers(SplitBlank(text), p);
    var part :| part in SplitBlank(text) && Strip(part) == p;
    PartsHaveNoBlankLine(text, part);
    var lo, hi := StripCutsSpace(part);
    if HasBlankLine(p) { SliceHasBlankLine(part, lo, hi); }
  }

  /** In words: a section is large enough from 39 words on, and too large from 1540 on. */
  lemma ThresholdsInWords(text: string)
    ensures EstimateTokens(text) >= MIN_TOKENS <==> |Words(text)| >= 39
    ensures EstimateTokens(text) > MAX_TOKENS <==> |Words(text)| >= 1540
    ensures 10 * EstimateTokens(text) <= 13 * |Words(text)| < 10 * EstimateTokens(text) + 10
  {
  }

  // ---- Packing paragraphs ----

  function Flatten(groups: seq<seq<string>>): seq<string> {
    if groups == [] then [] else groups[0] + Flatten(groups[1..])
  }

  predicate NoneEmpty(groups: seq<seq<string>>) {
    forall i :: 0 <= i < |groups| ==> groups[i] != []
  }

  /** The first paragraph of a group, as a list. */
  function First(group: seq<string>): seq<string> {
    if group == [] then [] else [group[0]]
  }

  /** A chunk may hold one paragraph of any size, or several that stay within the limit together. */
  predicate Fits(group: seq<string>) {
    |group| == 1 || EstimateTokens(Join(group)) <= MAX_TOKENS
  }

  /** An order-preserving cut of the paragraphs into chunks that fit. */
  ghost predicate Packs(groups: seq<seq<string>>, paragraphs: seq<string>) {
    && Flatten(groups) == paragraphs
    && NoneEmpty(groups)
    && forall i :: 0 <= i < |groups| ==> Fits(groups[i])
  }

  /** No chunk could have taken the first paragraph of the next one as well. */
  ghost predicate Tight(groups: seq<seq<string>>) {
    && NoneEmpty(groups)
    && forall i :: 0 < i < |groups| ==> EstimateTokens(Join(groups[i - 1] + First(groups[i]))) > MAX_TOKENS
  }

  lemma TokensGrow(before: seq<string>, group: seq<string>, after: seq<string>)
    ensures EstimateTokens(Join(group)) <= EstimateTokens(Join(before + group + after))
  {
    JoinKeepsWords(group);
    JoinKeepsWords(before + group + after);
    AllWordsConcat(before + group, after);
    AllWordsConcat(before, group);
  }

  /** Two ways to cut the same sequence in two. */
  lemma CutsCompare<T>(a: seq<T>, b: seq<T>, c: seq<T>, d: seq<T>)
    requires a + b == c + d
    ensures |a| <= |c| ==> c == a + c[|a|..] && b == c[|a|..] + d
    ensures |a| >= |c| ==> a == c + d[..|a| - |c|] && b == d[|a| - |c|..]
  {
    var s := a + b;
    assert a == s[..|a|] && b == s[|a|..] && c == s[..|c|] && d == s[|c|..];
  }

  lemma FlattenFront(groups: seq<seq<string>>) returns (rest: seq<string>)
    requires |groups| >= 2 && groups[1] != []
    ensures Flatten(groups) == groups[0] + First(groups[1]) + rest
  {
    rest := groups[1][1..] + Flatten(groups[1..][1..]);
    assert groups[1] == First(groups[1]) + groups[1][1..];
    FrontAssociates(groups[0], First(groups[1]), groups[1][1..], Flatten(groups[1..][1..]));
  }

  lemma FrontAssociates<T>(a: seq<T>, b: seq<T>, c: seq<T>, d: seq<T>)
    ensures a + ((b + c) + d) == a + b + (c + d)
  {
  }

  lemma PrefixOfConcat<T>(a: seq<T>, b: seq<T>, m: nat)
    requires |a| <= m <= |a| + |b|
    ensures (a + b)[..m] == a + b[..m - |a|]
  {
  }

  /** A chunk that fits takes no more of a tight cut than its first group. */
  lemma FitsWithinGroup(groups: seq<seq<string>>, done: seq<string>, q: seq<string>, m: nat)
    requires Tight(groups) && groups != [] && Fits(q)
    requires 0 < m <= |Flatten(groups)| && q == done + Flatten(groups)[..m]
    ensures m <= |groups[0]|
  {
    if m > |groups[0]| {
      assert Flatten(groups) == groups[0] + Flatten(groups[1..]);
      var h := groups[0] + First(groups[1]);
      var rest := FlattenFront(groups);
      PrefixOfConcat(h, rest, m);
      ConcatAssociates(done, h, rest[..m - |h|]);
      TokensGrow(done, h, rest[..m - |h|]);
    }
  }

  lemma SuffixOfConcat<T>(a: seq<T>, b: seq<T>, m: nat)
    requires m <= |a|
    ensures (a + b)[m..] == a[m..] + b
  {
  }

  lemma TightTail(groups: seq<seq<string>>)
    requires Tight(groups) && groups != []
    ensures Tight(groups[1..])
  {
    forall i | 0 < i < |groups[1..]|
      ensures EstimateTokens(Join(groups[1..][i - 1] + First(groups[1..][i]))) > MAX_TOKENS
    {
      assert groups[1..][i] == groups[i + 1] && groups[1..][i - 1] == groups[i];
    }
  }

  /**
   * Greedy stays ahead: a tight cut of what is left after `done` paragraphs of `other`'s
   * share needs no more chunks than `other`.
   */
  lemma {:induction false} TightStaysAhead(groups: seq<seq<string>>, other: seq<seq<string>>, done: seq<string>)
    requires Tight(groups)
    requires Packs(other, done + Flatten(groups))
    ensures |groups| <= |other|
    decreases |other|
  {
    if groups == [] {
    } else {
      assert other != [] by { assert |Flatten(groups)| > 0; }
      var q := other[0];
      CutsCompare(q, Flatten(other[1..]), done, Flatten(groups));
      if |q| <= |done| {
        TightStaysAhead(groups, other[1..], done[|q|..]);
      } else {
        var m := |q| - |done|;
        FitsWithinGroup(groups, done, q, m);
        SuffixOfConcat(groups[0], Flatten(groups[1..]), m);
        TightTail(groups);
        TightStaysAhead(groups[1..], other[1..], groups[0][m..]);
      }
    }
  }

  /** A tight cut uses the fewest chunks of all cuts into chunks that fit. */
  lemma TightIsOptimal(groups: seq<seq<string>>, other: seq<seq<string>>, paragraphs: seq<string>)
    requires Tight(groups) && Flatten(groups) == paragraphs
    requires Packs(other, paragraphs)
    ensures |groups| <= |other|
  {
    assert [] + Flatten(groups) == paragraphs;
    TightStaysAhead(groups, other, []);
  }

  lemma {:induction false} FlattenConcat(a: seq<seq<string>>, b: seq<seq<string>>)
    ensures Flatten(a + b) == Flatten(a) + Flatten(b)
  {
    if a == [] {
      assert a + b == b;
    } else {
      assert (a + b)[1..] == a[1..] + b;
      FlattenConcat(a[1..], b);
    }
  }

  lemma FlattenSingle(g: seq<string>)
    ensures Flatten([g]) == g
  {
    assert [g][1..] == [];
  }

  /** The text of each chunk. */
  function Texts(sections: seq<Section>): seq<string> {
    seq(|sections|, i requires 0 <= i < |sections| => sections[i].text)
  }

  /** Chunk `i` carries the title and joins the paragraphs of group `i`. */
  ghost predicate Renders(chunks: seq<Section>, title: string, groups: seq<seq<string>>) {
    && |chunks| == |groups|
    && forall i :: 0 <= i < |groups| ==> chunks[i] == Section(title, Join(groups[i]))
  }

  /** Joining the chunks gives back the joined paragraphs. */
  lemma {:induction false} ChunksJoinToParagraphs(chunks: seq<Section>, title: string, groups: seq<seq<string>>)
    requires Renders(chunks, title, groups)
    requires NoneEmpty(groups)
    ensures Join(Texts(chunks)) == Join(Flatten(groups))
  {
    if |groups| == 1 {
      FlattenSingle(groups[0]);
      assert groups == [groups[0]];
    } else if |groups| > 1 {
      assert NoneEmpty(groups[1..]);
      ChunksJoinToParagraphs(chunks[1..], title, groups[1..]);
      assert Texts(chunks)[1..] == Texts(chunks[1..]);
      assert Flatten(groups[1..]) == groups[1] + Flatten(groups[1..][1..]);
      JoinConcat(groups[0], Flatten(groups[1..]));
    }
  }

  lemma JoinIsStripped(parts: seq<string>)
    requires Clean(parts)
    requires parts != []
    ensures Join(parts) != [] && Stripped(Join(parts))
    decreases parts
  {
    if |parts| > 1 {
      JoinIsStripped(parts[1..]);
      var tail := Join(parts[1..]);
      assert Join(parts)[0] == parts[0][0];
      assert Join(parts)[|Join(parts)| - 1] == tail[|tail| - 1];
    }
  }

  /** What the loop tries next: the current chunk with one more paragraph. */
  function Candidate(current: string, para: string): string {
    if current != [] then Strip(current + BLANK_LINE + para) else para
  }

  /** The candidate is the join of the current group and the next paragraph; stripping changes nothing. */
  lemma CandidateIsJoin(group: seq<string>, para: string)
    requires Clean(group) && para != [] && Stripped(para)
    ensures Candidate(Join(group), para) == Join(group + [para])
    ensures Join(group) == [] <==> group == []
    ensures Clean(group + [para])
  {
    if group == [] {
      assert group + [para] == [para];
    } else {
      JoinConcat(group, [para]);
      JoinIsStripped(group + [para]);
      JoinIsStripped(group);
      StripIsIdentity(Join(group + [para]));
    }
  }

  /** Closing a group that is followed by one it cannot absorb keeps the cut tight. */
  lemma TightExtends(groups: seq<seq<string>>, last: seq<string>, next: seq<string>)
    requires Tight(groups + [last]) && next != []
    requires EstimateTokens(Join(last + First(next))) > MAX_TOKENS
    ensures Tight(groups + [last] + [next])
  {
    var all := groups + [last] + [next];
    forall i | 0 < i < |all| ensures EstimateTokens(Join(all[i - 1] + First(all[i]))) > MAX_TOKENS {
      if i < |all| - 1 {
        assert all[i - 1] == (groups + [last])[i - 1] && all[i] == (groups + [last])[i];
      }
    }
  }

  /** Growing the last group by a paragraph keeps the cut tight. */
  lemma TightGrows(groups: seq<seq<string>>, last: seq<string>, para: string)
    requires last != [] && Tight(groups + [last])
    ensures Tight(groups + [last + [para]])
  {
    var before, all := groups + [last], groups + [last + [para]];
    assert forall i :: 0 <= i < |groups| ==> all[i] == before[i];
    forall i | 0 < i < |all| ensures EstimateTokens(Join(all[i - 1] + First(all[i]))) > MAX_TOKENS {
      assert all[i - 1] == before[i - 1];
      assert First(all[i]) == First(before[i]);
    }
  }

  /** State of the packing loop: the closed groups and the current one cut the paragraphs seen so far. */
  ghost predicate Packing(groups: seq<seq<string>>, group: seq<string>, seen: seq<string>) {
    && Flatten(groups) + group == seen
    && NoneEmpty(groups)
    && (forall i :: 0 <= i < |groups| ==> Fits(groups[i]))
    && (if seen == [] then group == [] else group != [] && Fits(group))
    && (if group == [] then groups == [] else Tight(groups + [group]))
  }

  lemma StartGroup(groups: seq<seq<string>>, group: seq<string>, seen: seq<string>, para: string)
    requires Packing(groups, group, seen) && group != []
    requires EstimateTokens(Join(group + [para])) > MAX_TOKENS
    ensures Packing(groups + [group], [para], seen + [para])
  {
    FlattenConcat(groups, [group]);
    FlattenSingle(group);
    TightExtends(groups, group, [para]);
  }

  lemma GrowGroup(groups: seq<seq<string>>, group: seq<string>, seen: seq<string>, para: string)
    requires Packing(groups, group, seen)
    requires group == [] || EstimateTokens(Join(group + [para])) <= MAX_TOKENS
    ensures Packing(groups, group + [para], seen + [para])
  {
    if group == [] {
      assert group + [para] == [para] && groups + [group + [para]] == [[para]];
    } else {
      TightGrows(groups, group, para);
      assert Flatten(groups) + (group + [para]) == Flatten(groups) + group + [para];
    }
  }

  lemma FinishGroup(groups: seq<seq<string>>, group: seq<string>, seen: seq<string>)
    requires Packing(groups, group, seen) && group != []
    ensures Packs(groups + [group], seen) && Tight(groups + [group])
  {
    FlattenConcat(groups, [group]);
    FlattenSingle(group);
  }

  lemma PrefixGrows<T>(s: seq<T>, i: nat)
    requires i < |s|
    ensures s[..i + 1] == s[..i] + [s[i]]
  {
  }

  /** What the loop keeps: the finished chunks and the current one render the packing so far. */
  ghost predicate InProgress(chunks: seq<Section>, title: string, groups: seq<seq<string>>,
                             current: string, group: seq<string>, seen: seq<string>) {
    && Renders(chunks, title, groups)
    && Packing(groups, group, seen)
    && Clean(group) && current == Join(group)
  }

  lemma SplitStarts(chunks: seq<Section>, title: string, groups: seq<seq<string>>,
                    current: string, group: seq<string>, seen: seq<string>, para: string)
    requires InProgress(chunks, title, groups, current, group, seen)
    requires para != [] && Stripped(para) && current != [] && EstimateTokens(Candidate(current, para)) > MAX_TOKENS
    ensures InProgress(chunks + [Section(title, current)], title, groups + [group], para, [para], seen + [para])
  {
    CandidateIsJoin(group, para);
    StartGroup(groups, group, seen, para);
  }

  lemma SplitGrows(chunks: seq<Section>, title: string, groups: seq<seq<string>>,
                   current: string, group: seq<string>, seen: seq<string>, para: string)
    requires InProgress(chunks, title, groups, current, group, seen)
    requires para != [] && Stripped(para)
    requires current == [] || EstimateTokens(Candidate(current, para)) <= MAX_TOKENS
    ensures InProgress(chunks, title, groups, Candidate(current, para), group + [para], seen + [para])
  {
    CandidateIsJoin(group, para);
    GrowGroup(groups, group, seen, para);
  }

  lemma SplitFinishes(chunks: seq<Section>, title: string, groups: seq<seq<string>>,
                      current: string, group: seq<string>, seen: seq<string>)
    requires InProgress(chunks, title, groups, current, group, seen)
    ensures current == [] ==> Packs(groups, seen) && Tight(groups)
    ensures current != [] ==>
      && Renders(chunks + [Section(title, current)], title, groups + [group])
      && Packs(groups + [group], seen) && Tight(groups + [group])
  {
    if group != [] {
      JoinIsStripped(group);
      FinishGroup(groups, group, seen);
    }
  }

  /** The chunks of a text: greedy, so as few as can be. */
  ghost predicate IsPacking(chunks: seq<Section>, title: string, text: string) {
    exists groups :: Renders(chunks, title, groups) && Packs(groups, Paragraphs(text)) && Tight(groups)
  }

  /**
   * Greedy packing. `groups` names the paragraphs of each chunk; being a tight cut, it is
   * optimal by TightIsOptimal.
   */
  method ParagraphSplit(text: string, title: string) returns (chunks: seq<Section>, ghost groups: seq<seq<string>>)
    ensures IsPacking(chunks, title, text)
    ensures Renders(chunks, title, groups)
    ensures Packs(groups, Paragraphs(text)) && Tight(groups)
  {
    var paragraphs := Paragraphs(text);
    ParagraphsKeepWords(text);
    chunks, groups := [], [];
    var current := "";
    ghost var group: seq<string> := [];
    for i := 0 to |paragraphs|
      invariant InProgress(chunks, title, groups, current, group, paragraphs[..i])
    {
      var para := paragraphs[i];
      PrefixGrows(paragraphs, i);
      var candidate := Candidate(current, para);
      if EstimateTokens(candidate) > MAX_TOKENS && current != [] {
        SplitStarts(chunks, title, groups, current, group, paragraphs[..i], para);
        chunks, groups := chunks + [Section(title, current)], groups + [group];
        current, group := para, [para];
      } else {
        SplitGrows(chunks, title, groups, current, group, paragraphs[..i], para);
        current, group := candidate, group + [para];
      }
    }
    assert paragraphs[..|paragraphs|] == paragraphs;
    SplitFinishes(chunks, title, groups, current, group, paragraphs);
    if current != [] {
      chunks, groups := chunks + [Section(title, current)], groups + [group];
    }
  }

  // ---- The heading loop ----

  /** The headings are found in order and do not overlap. */
  predicate InOrder(content: string, headings: seq<Heading>) {
    forall i :: 0 <= i < |headings| ==>
      && headings[i].start <= headings[i].end <= |content|
      && (i > 0 ==> headings[i - 1].end <= headings[i].start)
  }

  function Preamble(content: string, headings: seq<Heading>): string
    requires InOrder(content, headings) && headings != []
  {
    Strip(content[..headings[0].start])
  }

  predicate KeepsPreamble(content: string, headings: seq<Heading>)
    requires InOrder(content, headings) && headings != []
  {
    Preamble(content, headings) != [] && EstimateTokens(Preamble(content, headings)) >= MIN_TOKENS
  }

  /** The text below heading `i`, up to the next heading. */
  function Body(content: string, headings: seq<Heading>, i: nat): string
    requires InOrder(content, headings) && i < |headings|
  {
    var end := if i + 1 < |headings| then headings[i + 1].start else |content|;
    Strip(content[headings[i].end..end])
  }

  /** Headings stand on lines of their own. */
  predicate OnLines(content: string, headings: seq<Heading>)
    requires InOrder(content, headings)
  {
    forall i :: 0 <= i < |headings| ==>
      && (headings[i].start == 0 || IsSpace(content[headings[i].start - 1]))
      && (headings[i].end == |content| || IsSpace(content[headings[i].end]))
  }

  /** The words of the heading lines from `i` on, each followed by those of its body. */
  function HeadedWords(content: string, headings: seq<Heading>, i: nat): seq<string>
    requires InOrder(content, headings) && i <= |headings|
    decreases |headings| - i
  {
    if i == |headings| then []
    else Words(content[headings[i].start..headings[i].end]) + Words(Body(content, headings, i))
         + HeadedWords(content, headings, i + 1)
  }

  /** A cut of the text where one of the two neighbours is white space. */
  lemma WordsCut(content: string, lo: nat, mid: nat, hi: nat)
    requires lo <= mid <= hi <= |content|
    requires lo == mid || mid == hi || IsSpace(content[mid - 1]) || IsSpace(content[mid])
    ensures Words(content[lo..hi]) == Words(content[lo..mid]) + Words(content[mid..hi])
  {
    assert content[lo..hi] == content[lo..mid] + content[mid..hi];
    WordsConcat(content[lo..mid], content[mid..hi]);
  }

  lemma {:induction false} HeadingsTile(content: string, headings: seq<Heading>, i: nat)
    requires InOrder(content, headings) && OnLines(content, headings) && i < |headings|
    ensures Words(content[headings[i].start..|content|]) == HeadedWords(content, headings, i)
    decreases |headings| - i
  {
    var start, end, n := headings[i].start, headings[i].end, |content|;
    var next := if i + 1 < |headings| then headings[i + 1].start else n;
    StripKeepsWords(content[end..next]);
    WordsCut(content, start, end, n);
    WordsCut(content, end, next, n);
    if i + 1 == |headings| {
      assert content[n..n] == [];
    } else {
      HeadingsTile(content, headings, i + 1);
    }
    ConcatAssociates(Words(content[start..end]), Words(content[end..next]), Words(content[next..n]));
  }

  /** Preamble, heading lines and bodies tile the text: its words are theirs, in order, each once. */
  lemma SectionsTileText(content: string, headings: seq<Heading>)
    requires InOrder(content, headings) && OnLines(content, headings) && headings != []
    ensures Words(content) == Words(Preamble(content, headings)) + HeadedWords(content, headings, 0)
  {
    var start := headings[0].start;
    assert content == content[0..|content|] && content[..start] == content[0..start];
    StripKeepsWords(content[..start]);
    WordsCut(content, 0, start, |content|);
    HeadingsTile(content, headings, 0);
  }

  /** The first heading from which on everything is kept: 0 after a kept preamble, else the first body large enough. */
  ghost predicate IsFirstKept(content: string, headings: seq<Heading>, first: nat, bound: nat)
    requires InOrder(content, headings) && headings != [] && bound <= |headings|
  {
    && first <= bound
    && (if KeepsPreamble(content, headings) then first == 0
        else && (forall i :: 0 <= i < first ==> EstimateTokens(Body(content, headings, i)) < MIN_TOKENS)
             && (first < bound ==> EstimateTokens(Body(content, headings, first)) >= MIN_TOKENS))
  }

  /** The words of the bodies of headings lo, .., hi - 1. */
  function BodyWords(content: string, headings: seq<Heading>, lo: nat, hi: nat): seq<string>
    requires InOrder(content, headings) && lo <= hi <= |headings|
  {
    AllWords(Bodies(content, headings)[lo..hi])
  }

  function Bodies(content: string, headings: seq<Heading>): seq<string>
    requires InOrder(content, headings)
  {
    seq(|headings|, i requires 0 <= i < |headings| => Body(content, headings, i))
  }

  function PreambleWords(content: string, headings: seq<Heading>): seq<string>
    requires InOrder(content, headings) && headings != []
  {
    if KeepsPreamble(content, headings) then Words(Preamble(content, headings)) else []
  }

  function SectionWords(sections: seq<Section>): seq<string> {
    AllWords(Texts(sections))
  }

  /** The sections whose text is large enough. */
  function KeepLarge(sections: seq<Section>): seq<Section> {
    if sections == [] then []
    else (if EstimateTokens(sections[0].text) >= MIN_TOKENS then [sections[0]] else []) + KeepLarge(sections[1..])
  }

  lemma SectionWordsConcat(a: seq<Section>, b: seq<Section>)
    ensures SectionWords(a + b) == SectionWords(a) + SectionWords(b)
  {
    assert Texts(a + b) == Texts(a) + Texts(b);
    AllWordsConcat(Texts(a), Texts(b));
  }

  lemma SectionWordsSingle(s: Section)
    ensures SectionWords([s]) == Words(s.text)
  {
    assert Texts([s]) == [s.text];
    assert AllWords([s.text]) == Words(s.text) + AllWords([s.text][1..]);
  }

  /** Packing a text keeps its words, and leaves at least one chunk when there are any. */
  lemma ChunksKeepWords(text: string, title: string, chunks: seq<Section>, groups: seq<seq<string>>)
    requires Renders(chunks, title, groups) && Packs(groups, Paragraphs(text))
    ensures SectionWords(chunks) == Words(text)
    ensures Words(text) != [] ==> chunks != []
  {
    ChunksJoinToParagraphs(chunks, title, groups);
    JoinKeepsWords(Texts(chunks));
    JoinKeepsWords(Flatten(groups));
    ParagraphsKeepWords(text);
  }

  /** Merging a short body into the last section adds its words at the end. */
  lemma MergeKeepsWords(before: seq<Section>, last: Section, body: string)
    ensures SectionWords(before + [last.(text := last.text + (BLANK_LINE + body))]) ==
            SectionWords(before + [last]) + Words(body)
  {
    var merged := last.(text := last.text + (BLANK_LINE + body));
    assert merged.text == last.text + BLANK_LINE + body;
    WordsAcrossBlank(last.text, body);
    SectionWordsConcat(before, [last]);
    SectionWordsConcat(before, [merged]);
    SectionWordsSingle(last);
    SectionWordsSingle(merged);
  }

  /** The body stands under its own heading: at the start of a section, or cut into chunks when too large for one. */
  ghost predicate Headed(sections: seq<Section>, title: string, body: string) {
    exists k :: 0 <= k < |sections| && sections[k].heading == title
             && (EstimateTokens(body) <= MAX_TOKENS ==> body <= sections[k].text)
  }

  /** Adding sections, and extending the text of existing ones, keeps bodies under their headings. */
  lemma HeadedExtends(before: seq<Section>, after: seq<Section>, title: string, body: string)
    requires Headed(before, title, body) && |before| <= |after|
    requires forall k :: 0 <= k < |before| ==>
      before[k].heading == after[k].heading && before[k].text <= after[k].text
    ensures Headed(after, title, body)
  {
    var k :| 0 <= k < |before| && before[k].heading == title
             && (EstimateTokens(body) <= MAX_TOKENS ==> body <= before[k].text);
    assert after[k].heading == title;
  }

  /** Every body that is large enough, among the first `n`, stands under its own heading. */
  ghost predicate AllHeaded(content: string, headings: seq<Heading>, sections: seq<Section>, n: nat)
    requires InOrder(content, headings) && n <= |headings|
  {
    forall i :: 0 <= i < n && EstimateTokens(Body(content, headings, i)) >= MIN_TOKENS ==>
      Headed(sections, headings[i].title, Body(content, headings, i))
  }

  lemma AllHeadedExtends(content: string, headings: seq<Heading>, before: seq<Section>, after: seq<Section>, n: nat)
    requires InOrder(content, headings) && n < |headings| && AllHeaded(content, headings, before, n)
    requires |before| <= |after|
    requires forall k :: 0 <= k < |before| ==>
      before[k].heading == after[k].heading && before[k].text <= after[k].text
    requires EstimateTokens(Body(content, headings, n)) >= MIN_TOKENS ==>
      Headed(after, headings[n].title, Body(content, headings, n))
    ensures AllHeaded(content, headings, after, n + 1)
  {
    forall i | 0 <= i < n && EstimateTokens(Body(content, headings, i)) >= MIN_TOKENS
      ensures Headed(after, headings[i].title, Body(content, headings, i))
    {
      HeadedExtends(before, after, headings[i].title, Body(content, headings, i));
    }
  }

  /** The words kept after heading `i`, given those kept before it. */
  lemma WordsExtend(content: string, headings: seq<Heading>, before: seq<Section>, after: seq<Section>,
                    first: nat, i: nat)
    requires InOrder(content, headings) && i < |headings| && first <= i
    requires SectionWords(before) == PreambleWords(content, headings) + BodyWords(content, headings, first, i)
    requires before == [] ==> first == i && !KeepsPreamble(content, headings)
    requires var body := Body(content, headings, i);
             && SectionWords(after) == SectionWords(before) +
                (if before == [] && EstimateTokens(body) < MIN_TOKENS then [] else Words(body))
             && (after == [] <==> before == [] && EstimateTokens(body) < MIN_TOKENS)
    ensures SectionWords(after) ==
            PreambleWords(content, headings) + BodyWords(content, headings, if after == [] then i + 1 else first, i + 1)
  {
    if after != [] {
      LastBody(content, headings, first, i);
      ConcatAssociates(PreambleWords(content, headings), BodyWords(content, headings, first, i),
                       Words(Body(content, headings, i)));
    }
  }

  lemma LastBody(content: string, headings: seq<Heading>, lo: nat, hi: nat)
    requires InOrder(content, headings) && lo <= hi < |headings|
    ensures BodyWords(content, headings, lo, hi + 1) ==
            BodyWords(content, headings, lo, hi) + Words(Body(content, headings, hi))
  {
    BodyWordsSplit(content, headings, lo, hi, hi + 1);
    var body := Body(content, headings, hi);
    assert Bodies(content, headings)[hi..hi + 1] == [body];
    assert AllWords([body]) == Words(body) + AllWords([body][1..]);
  }

  lemma BodyWordsSplit(content: string, headings: seq<Heading>, lo: nat, mid: nat, hi: nat)
    requires InOrder(content, headings) && lo <= mid <= hi <= |headings|
    ensures BodyWords(content, headings, lo, hi) ==
            BodyWords(content, headings, lo, mid) + BodyWords(content, headings, mid, hi)
  {
    var bodies := Bodies(content, headings);
    SliceSplit(bodies, lo, mid, hi);
    AllWordsConcat(bodies[lo..mid], bodies[mid..hi]);
  }

  lemma SliceSplit<T>(s: seq<T>, lo: nat, mid: nat, hi: nat)
    requires lo <= mid <= hi <= |s|
    ensures s[lo..hi] == s[lo..mid] + s[mid..hi]
  {
  }

  lemma ConcatAssociates<T>(a: seq<T>, b: seq<T>, c: seq<T>)
    ensures (a + b) + c == a + (b + c)
  {
  }

  /**
   * The words of the body come after those already there, unless nothing is kept yet and the body
   * is too small; sections already there keep their heading, and their text at most grows.
   */
  ghost predicate Grows(before: seq<Section>, after: seq<Section>, title: string, body: string) {
    && SectionWords(after) ==
       SectionWords(before) + (if before == [] && EstimateTokens(body) < MIN_TOKENS then [] else Words(body))
    && (after == [] <==> before == [] && EstimateTokens(body) < MIN_TOKENS)
    && |before| <= |after|
    && (forall k :: 0 <= k < |before| ==> before[k].heading == after[k].heading && before[k].text <= after[k].text)
    && (EstimateTokens(body) >= MIN_TOKENS ==> Headed(after, title, body))
  }

  /**
   * What one body does: cut into chunks when too large for a section, a section of its own when
   * large enough, else merged into the last section, or dropped when there is none.
   */
  ghost predicate AddsBody(before: seq<Section>, after: seq<Section>, title: string, body: string) {
    if EstimateTokens(body) > MAX_TOKENS then
      before <= after && IsPacking(after[|before|..], title, body)
    else if EstimateTokens(body) >= MIN_TOKENS then
      after == before + [Section(title, body)]
    else if before != [] then
      var last := before[|before| - 1];
      after == before[..|before| - 1] + [last.(text := last.text + (BLANK_LINE + body))]
    else after == before
  }

  lemma SplitBodyGrows(before: seq<Section>, chunks: seq<Section>, title: string, body: string)
    requires EstimateTokens(body) > MAX_TOKENS && IsPacking(chunks, title, body)
    ensures Grows(before, before + chunks, title, body)
  {
    var groups :| Renders(chunks, title, groups) && Packs(groups, Paragraphs(body)) && Tight(groups);
    ChunksKeepWords(body, title, chunks, groups);
    SectionWordsConcat(before, chunks);
    assert (before + chunks)[|before|].heading == title;
  }

  lemma OwnSectionGrows(before: seq<Section>, title: string, body: string)
    requires MIN_TOKENS <= EstimateTokens(body) <= MAX_TOKENS
    ensures Grows(before, before + [Section(title, body)], title, body)
  {
    SectionWordsConcat(before, [Section(title, body)]);
    SectionWordsSingle(Section(title, body));
    assert (before + [Section(title, body)])[|before|].heading == title;
  }

  /** Whichever branch a body takes, no word is lost once a section is kept. */
  lemma AddingGrows(before: seq<Section>, after: seq<Section>, title: string, body: string)
    requires AddsBody(before, after, title, body)
    ensures Grows(before, after, title, body)
  {
    if EstimateTokens(body) > MAX_TOKENS {
      assert after == before + after[|before|..];
      SplitBodyGrows(before, after[|before|..], title, body);
    } else if EstimateTokens(body) >= MIN_TOKENS {
      OwnSectionGrows(before, title, body);
    } else if before != [] {
      var front, last := before[..|before| - 1], before[|before| - 1];
      assert before == front + [last];
      MergeKeepsWords(front, last, body);
    } else {
      assert SectionWords(before) + [] == SectionWords(before);
    }
  }

  method AddBody(sections: seq<Section>, title: string, body: string) returns (sections': seq<Section>)
    ensures AddsBody(sections, sections', title, body)
    ensures Grows(sections, sections', title, body)
  {
    if EstimateTokens(body) > MAX_TOKENS {
      var chunks;
      ghost var groups;
      chunks, groups := ParagraphSplit(body, title);
      sections' := sections + chunks;
      assert sections'[|sections|..] == chunks;
    } else if EstimateTokens(body) >= MIN_TOKENS {
      sections' := sections + [Section(title, body)];
    } else if sections != [] {
      var last := sections[|sections| - 1];
      sections' := sections[..|sections| - 1] + [last.(text := last.text + (BLANK_LINE + body))];
    } else {
      sections' := sections;
    }
    AddingGrows(sections, sections', title, body);
  }

  /** The sections before the first heading: the preamble, if large enough. */
  function Opening(content: string, headings: seq<Heading>): seq<Section>
    requires InOrder(content, headings) && headings != []
  {
    if KeepsPreamble(content, headings) then [Section("Introduction", Preamble(content, headings))] else []
  }

  /** `steps[i]` holds the sections after the first `i` bodies. */
  ghost predicate IsTrace(content: string, headings: seq<Heading>, steps: seq<seq<Section>>, n: nat)
    requires InOrder(content, headings) && headings != [] && n <= |headings|
  {
    && |steps| == n + 1 && steps[0] == Opening(content, headings)
    && forall i :: 0 <= i < n ==> AddsBody(steps[i], steps[i + 1], headings[i].title, Body(content, headings, i))
  }

  lemma TraceExtends(content: string, headings: seq<Heading>, steps: seq<seq<Section>>, n: nat, next: seq<Section>)
    requires InOrder(content, headings) && n < |headings| && IsTrace(content, headings, steps, n)
    requires AddsBody(steps[n], next, headings[n].title, Body(content, headings, n))
    ensures IsTrace(content, headings, steps + [next], n + 1)
  {
    var all := steps + [next];
    forall i | 0 <= i < n + 1
      ensures AddsBody(all[i], all[i + 1], headings[i].title, Body(content, headings, i))
    {
      assert all[i] == steps[i];
    }
  }

  /** What the heading loop keeps after heading `n`. */
  ghost predicate Kept(content: string, headings: seq<Heading>, sections: seq<Section>, first: nat, n: nat)
    requires InOrder(content, headings) && headings != [] && n <= |headings|
  {
    && IsFirstKept(content, headings, first, n)
    && SectionWords(sections) == PreambleWords(content, headings) + BodyWords(content, headings, first, n)
    && (sections == [] <==> !KeepsPreamble(content, headings) && first == n)
    && (KeepsPreamble(content, headings) ==> sections != [] && sections[0].heading == "Introduction")
    && AllHeaded(content, headings, sections, n)
  }

  lemma KeptExtends(content: string, headings: seq<Heading>, before: seq<Section>, after: seq<Section>,
                    first: nat, n: nat)
    requires InOrder(content, headings) && n < |headings| && Kept(content, headings, before, first, n)
    requires Grows(before, after, headings[n].title, Body(content, headings, n))
    ensures Kept(content, headings, after, if after == [] then n + 1 else first, n + 1)
  {
    AllHeadedExtends(content, headings, before, after, n);
    WordsExtend(content, headings, before, after, first, n);
  }

  lemma TraceShrinks(content: string, headings: seq<Heading>, steps: seq<seq<Section>>, n: nat)
    requires InOrder(content, headings) && n < |headings| && IsTrace(content, headings, steps, n + 1)
    ensures IsTrace(content, headings, steps[..n + 1], n)
    ensures AddsBody(steps[n], steps[n + 1], headings[n].title, Body(content, headings, n))
  {
    forall i | 0 <= i < n
      ensures AddsBody(steps[..n + 1][i], steps[..n + 1][i + 1], headings[i].title, Body(content, headings, i))
    {
      assert AddsBody(steps[i], steps[i + 1], headings[i].title, Body(content, headings, i));
    }
  }

  lemma KeptAtStart(content: string, headings: seq<Heading>)
    requires InOrder(content, headings) && headings != []
    ensures Kept(content, headings, Opening(content, headings), 0, 0)
  {
    if KeepsPreamble(content, headings) { SectionWordsSingle(Section("Introduction", Preamble(content, headings))); }
  }

  /**
   * Every trace keeps the words of the preamble, if kept, followed by those of every body from some
   * heading on: the first one whose body is large enough, or the very first after a kept preamble.
   */
  lemma {:induction false} TraceKeepsWords(content: string, headings: seq<Heading>, steps: seq<seq<Section>>, n: nat)
    returns (first: nat)
    requires InOrder(content, headings) && headings != [] && n <= |headings| && IsTrace(content, headings, steps, n)
    ensures Kept(content, headings, steps[n], first, n)
    decreases n
  {
    if n == 0 {
      KeptAtStart(content, headings);
      first := 0;
    } else {
      var m := n - 1;
      TraceShrinks(content, headings, steps, m);
      first := TraceKeepsWords(content, headings, steps[..m + 1], m);
      first := KeptStep(content, headings, steps[m], steps[m + 1], first, m);
    }
  }

  /** The first heading from `i` on whose body is large enough for a section; |headings| when there is none. */
  function FirstLarge(content: string, headings: seq<Heading>, i: nat): (first: nat)
    requires InOrder(content, headings) && i <= |headings|
    ensures i <= first <= |headings|
    ensures forall j :: i <= j < first ==> EstimateTokens(Body(content, headings, j)) < MIN_TOKENS
    ensures first < |headings| ==> EstimateTokens(Body(content, headings, first)) >= MIN_TOKENS
    decreases |headings| - i
  {
    if i == |headings| || EstimateTokens(Body(content, headings, i)) >= MIN_TOKENS then i
    else FirstLarge(content, headings, i + 1)
  }

  /** All words of the text but those of the heading lines. */
  function TextWords(content: string, headings: seq<Heading>): seq<string>
    requires InOrder(content, headings) && headings != []
  {
    Words(Preamble(content, headings)) + BodyWords(content, headings, 0, |headings|)
  }

  /**
   * When the splitter loses no word: exactly when the preamble is large enough to be kept, or when
   * neither it nor any body before the first large enough one has a word.
   */
  lemma LosesNothingIff(content: string, headings: seq<Heading>, steps: seq<seq<Section>>)
    requires InOrder(content, headings) && headings != [] && IsTrace(content, headings, steps, |headings|)
    ensures SectionWords(steps[|headings|]) == TextWords(content, headings) <==>
            || KeepsPreamble(content, headings)
            || (Words(Preamble(content, headings)) == []
                && BodyWords(content, headings, 0, FirstLarge(content, headings, 0)) == [])
  {
    var n := |headings|;
    var first := TraceKeepsWords(content, headings, steps, n);
    var large := FirstLarge(content, headings, 0);
    if KeepsPreamble(content, headings) {
    } else {
      assert first == large;
      BodyWordsSplit(content, headings, 0, first, n);
      SuffixIsAll(Words(Preamble(content, headings)), BodyWords(content, headings, 0, first),
                  BodyWords(content, headings, first, n));
    }
  }

  lemma SuffixIsAll<T>(a: seq<T>, b: seq<T>, c: seq<T>)
    ensures [] + c == a + (b + c) <==> a == [] && b == []
  {
    assert |a + (b + c)| == |a| + |b| + |c|;
  }

  // ---- Without headings ----

  lemma {:induction false} KeepLargeWords(chunks: seq<Section>)
    requires forall i :: 0 <= i < |chunks| ==> Words(chunks[i].text) != []
    ensures |SectionWords(KeepLarge(chunks))| <= |SectionWords(chunks)|
    ensures SectionWords(KeepLarge(chunks)) == SectionWords(chunks) <==>
            forall i :: 0 <= i < |chunks| ==> EstimateTokens(chunks[i].text) >= MIN_TOKENS
  {
    if chunks == [] {
    } else {
      var rest := chunks[1..];
      assert forall i :: 0 <= i < |rest| ==> rest[i] == chunks[i + 1];
      KeepLargeWords(rest);
      assert chunks == [chunks[0]] + rest;
      SectionWordsConcat([chunks[0]], rest);
      SectionWordsConcat([chunks[0]], KeepLarge(rest));
      SectionWordsSingle(chunks[0]);
      if EstimateTokens(chunks[0].text) >= MIN_TOKENS {
        SameTail(Words(chunks[0].text), SectionWords(KeepLarge(rest)), SectionWords(rest));
      } else {
        assert KeepLarge(chunks) == [] + KeepLarge(rest) == KeepLarge(rest);
      }
    }
  }

  lemma SameTail<T>(a: seq<T>, b: seq<T>, c: seq<T>)
    ensures a + b == a + c <==> b == c
  {
    assert (a + b)[|a|..] == b && (a + c)[|a|..] == c;
  }

  lemma {:induction false} GroupIsClean(groups: seq<seq<string>>, i: nat)
    requires i < |groups| && Clean(Flatten(groups))
    ensures Clean(groups[i])
  {
    assert Flatten(groups)[..|groups[0]|] == groups[0] && Flatten(groups)[|groups[0]|..] == Flatten(groups[1..]);
    if i == 0 {
    } else {
      assert Clean(Flatten(groups[1..])) by {
        assert forall j :: 0 <= j < |Flatten(groups[1..])| ==>
          Flatten(groups[1..])[j] == Flatten(groups)[|groups[0]| + j];
      }
      GroupIsClean(groups[1..], i - 1);
    }
  }

  /** A chunk of a packing is never blank. */
  lemma PackedChunkHasWords(chunks: seq<Section>, title: string, text: string, i: nat)
    requires IsPacking(chunks, title, text) && i < |chunks|
    ensures Words(chunks[i].text) != []
  {
    var groups :| Renders(chunks, title, groups) && Packs(groups, Paragraphs(text)) && Tight(groups);
    ParagraphsKeepWords(text);
    GroupIsClean(groups, i);
    JoinIsStripped(groups[i]);
    StripIsIdentity(chunks[i].text);
    StripKeepsWords(chunks[i].text);
  }

  /** Without headings no word is lost exactly when every chunk of the packing is large enough for a section. */
  lemma PackingLosesNothingIff(content: string, chunks: seq<Section>)
    requires IsPacking(chunks, "", content)
    ensures SectionWords(KeepLarge(chunks)) == Words(content) <==>
            forall i :: 0 <= i < |chunks| ==> EstimateTokens(chunks[i].text) >= MIN_TOKENS
  {
    var groups :| Renders(chunks, "", groups) && Packs(groups, Paragraphs(content)) && Tight(groups);
    ChunksKeepWords(content, "", chunks, groups);
    forall i | 0 <= i < |chunks| ensures Words(chunks[i].text) != [] { PackedChunkHasWords(chunks, "", content, i); }
    KeepLargeWords(chunks);
  }

  /** A text within the limit is one chunk, so it is lost exactly when it has words but is too small for a section. */
  lemma SmallTextIff(content: string, chunks: seq<Section>)
    requires IsPacking(chunks, "", content) && EstimateTokens(content) <= MAX_TOKENS
    ensures SectionWords(KeepLarge(chunks)) == Words(content) <==>
            EstimateTokens(content) >= MIN_TOKENS || Words(content) == []
  {
    var groups :| Renders(chunks, "", groups) && Packs(groups, Paragraphs(content)) && Tight(groups);
    PackingLosesNothingIff(content, chunks);
    ChunksKeepWords(content, "", chunks, groups);
    if |groups| >= 2 {
      TokensOfPart(groups, content);
    } else if |groups| == 1 {
      assert chunks == [chunks[0]];
      SectionWordsSingle(chunks[0]);
      PackedChunkHasWords(chunks, "", content, 0);
    }
  }

  /** The first chunk and a paragraph more are no larger than the whole text. */
  lemma TokensOfPart(groups: seq<seq<string>>, content: string)
    requires |groups| >= 2 && NoneEmpty(groups) && Flatten(groups) == Paragraphs(content)
    ensures EstimateTokens(Join(groups[0] + First(groups[1]))) <= EstimateTokens(content)
  {
    var part := groups[0] + First(groups[1]);
    var rest := FlattenFront(groups);
    JoinKeepsWords(part);
    AllWordsConcat(part, rest);
    ParagraphsKeepWords(content);
  }

  lemma KeptStep(content: string, headings: seq<Heading>, before: seq<Section>, after: seq<Section>, first: nat, n: nat)
    returns (next: nat)
    requires InOrder(content, headings) && n < |headings| && Kept(content, headings, before, first, n)
    requires AddsBody(before, after, headings[n].title, Body(content, headings, n))
    ensures Kept(content, headings, after, next, n + 1)
  {
    AddingGrows(before, after, headings[n].title, Body(content, headings, n));
    KeptExtends(content, headings, before, after, first, n);
    next := if after == [] then n + 1 else first;
  }

  // ---- How large a section gets ----

  /** What a section starts from: a chunk that fits, a single paragraph of a body, or the preamble. */
  ghost predicate IsBase(content: string, headings: seq<Heading>, base: string)
    requires InOrder(content, headings) && headings != []
  {
    || EstimateTokens(base) <= MAX_TOKENS
    || base == Preamble(content, headings)
    || exists i :: 0 <= i < |headings| && base in Paragraphs(Body(content, headings, i))
  }

  /** The bodies of headings lo, .., hi - 1 are too small for a section of their own. */
  ghost predicate AllSmall(content: string, headings: seq<Heading>, lo: nat, hi: nat)
    requires InOrder(content, headings) && lo <= hi <= |headings|
  {
    forall i :: lo <= i < hi ==> EstimateTokens(Body(content, headings, i)) < MIN_TOKENS
  }

  /** The section starts from such a base, and the bodies lo, .., hi - 1, all small, were merged into it. */
  ghost predicate GrewFrom(content: string, headings: seq<Heading>, text: string, base: string, lo: nat, hi: nat)
    requires InOrder(content, headings) && headings != []
  {
    && lo <= hi <= |headings|
    && IsBase(content, headings, base)
    && AllSmall(content, headings, lo, hi)
    && text == Join([base] + Bodies(content, headings)[lo..hi])
  }

  /** Such a section among those of the first `n` bodies; the last one took in every body since it began. */
  ghost predicate IsSized(content: string, headings: seq<Heading>, text: string, n: nat, isLast: bool)
    requires InOrder(content, headings) && headings != []
  {
    exists base, lo: nat, hi: nat ::
      GrewFrom(content, headings, text, base, lo, hi) && hi <= n && (isLast ==> hi == n)
  }

  ghost predicate Bounded(content: string, headings: seq<Heading>, sections: seq<Section>, n: nat)
    requires InOrder(content, headings) && headings != []
  {
    forall k :: 0 <= k < |sections| ==> IsSized(content, headings, sections[k].text, n, k == |sections| - 1)
  }

  lemma JustBase(content: string, headings: seq<Heading>, base: string, n: nat)
    requires InOrder(content, headings) && headings != [] && n <= |headings| && IsBase(content, headings, base)
    ensures GrewFrom(content, headings, base, base, n, n)
  {
    assert [base] + Bodies(content, headings)[n..n] == [base];
  }

  lemma SliceAppend(base: string, s: seq<string>, lo: nat, n: nat)
    requires lo <= n < |s|
    ensures [base] + s[lo..n + 1] == ([base] + s[lo..n]) + [s[n]]
  {
  }

  lemma JoinAppend(parts: seq<string>, last: string)
    requires parts != []
    ensures Join(parts + [last]) == Join(parts) + (BLANK_LINE + last)
  {
    JoinConcat(parts, [last]);
    ConcatAssociates(Join(parts), BLANK_LINE, last);
  }

  lemma MergedGrows(content: string, headings: seq<Heading>, text: string, base: string, lo: nat, n: nat)
    requires InOrder(content, headings) && n < |headings| && GrewFrom(content, headings, text, base, lo, n)
    requires EstimateTokens(Body(content, headings, n)) < MIN_TOKENS
    ensures GrewFrom(content, headings, text + (BLANK_LINE + Body(content, headings, n)), base, lo, n + 1)
  {
    SliceAppend(base, Bodies(content, headings), lo, n);
    JoinAppend([base] + Bodies(content, headings)[lo..n], Body(content, headings, n));
  }

  /** So its words are those of the base and of the bodies merged into it. */
  lemma GrownWords(content: string, headings: seq<Heading>, text: string, base: string, lo: nat, hi: nat)
    requires InOrder(content, headings) && headings != [] && GrewFrom(content, headings, text, base, lo, hi)
    ensures Words(text) == Words(base) + BodyWords(content, headings, lo, hi)
  {
    var merged := Bodies(content, headings)[lo..hi];
    JoinKeepsWords([base] + merged);
    assert ([base] + merged)[1..] == merged;
  }

  /** A chunk of a packed body fits, or is one of its paragraphs. */
  lemma PackedIsBase(content: string, headings: seq<Heading>, chunks: seq<Section>, title: string, n: nat, k: nat)
    requires InOrder(content, headings) && n < |headings| && IsPacking(chunks, title, Body(content, headings, n))
    requires k < |chunks|
    ensures IsBase(content, headings, chunks[k].text)
  {
    var body := Body(content, headings, n);
    var groups :| Renders(chunks, title, groups) && Packs(groups, Paragraphs(body)) && Tight(groups);
    if |groups[k]| == 1 { GroupMember(groups, k); }
  }

  lemma {:induction false} GroupMember(groups: seq<seq<string>>, k: nat)
    requires k < |groups| && groups[k] != []
    ensures groups[k][0] in Flatten(groups)
  {
    if k == 0 {
    } else {
      GroupMember(groups[1..], k - 1);
    }
  }

  /** A section that is not the last any more stays as it is. */
  lemma FinishedStays(content: string, headings: seq<Heading>, text: string, n: nat, isLast: bool)
    requires InOrder(content, headings) && headings != [] && IsSized(content, headings, text, n, isLast)
    ensures IsSized(content, headings, text, n + 1, false)
  {
    var base, lo: nat, hi: nat :| GrewFrom(content, headings, text, base, lo, hi) && hi <= n;
    assert GrewFrom(content, headings, text, base, lo, hi) && hi <= n + 1;
  }

  lemma MergedIsSized(content: string, headings: seq<Heading>, text: string, n: nat)
    requires InOrder(content, headings) && n < |headings| && IsSized(content, headings, text, n, true)
    requires EstimateTokens(Body(content, headings, n)) < MIN_TOKENS
    ensures IsSized(content, headings, text + (BLANK_LINE + Body(content, headings, n)), n + 1, true)
  {
    var base, lo: nat, hi: nat :| GrewFrom(content, headings, text, base, lo, hi) && hi <= n && hi == n;
    MergedGrows(content, headings, text, base, lo, n);
  }

  lemma BaseIsSized(content: string, headings: seq<Heading>, text: string, n: nat, isLast: bool)
    requires InOrder(content, headings) && headings != [] && n <= |headings| && IsBase(content, headings, text)
    ensures IsSized(content, headings, text, n, isLast)
  {
    JustBase(content, headings, text, n);
  }

  /** New sections behind finished ones. */
  lemma AppendedAreBounded(content: string, headings: seq<Heading>, before: seq<Section>, chunks: seq<Section>, n: nat)
    requires InOrder(content, headings) && n < |headings| && Bounded(content, headings, before, n) && chunks != []
    requires forall k :: 0 <= k < |chunks| ==> IsBase(content, headings, chunks[k].text)
    ensures Bounded(content, headings, before + chunks, n + 1)
  {
    var after := before + chunks;
    forall k | 0 <= k < |after| ensures IsSized(content, headings, after[k].text, n + 1, k == |after| - 1) {
      if k < |before| {
        FinishedStays(content, headings, before[k].text, n, k == |before| - 1);
      } else {
        BaseIsSized(content, headings, chunks[k - |before|].text, n + 1, k == |after| - 1);
      }
    }
  }

  lemma MergedAreBounded(content: string, headings: seq<Heading>, before: seq<Section>, n: nat)
    requires InOrder(content, headings) && n < |headings| && Bounded(content, headings, before, n) && before != []
    requires EstimateTokens(Body(content, headings, n)) < MIN_TOKENS
    ensures var last := before[|before| - 1];
            var merged := last.(text := last.text + (BLANK_LINE + Body(content, headings, n)));
            Bounded(content, headings, before[..|before| - 1] + [merged], n + 1)
  {
    var front, last := before[..|before| - 1], before[|before| - 1];
    MergedIsSized(content, headings, last.text, n);
    forall k | 0 <= k < |front| ensures IsSized(content, headings, front[k].text, n + 1, false) {
      FinishedStays(content, headings, before[k].text, n, false);
    }
  }

  lemma BoundedStep(content: string, headings: seq<Heading>, before: seq<Section>, after: seq<Section>, n: nat)
    requires InOrder(content, headings) && n < |headings| && Bounded(content, headings, before, n)
    requires AddsBody(before, after, headings[n].title, Body(content, headings, n))
    ensures Bounded(content, headings, after, n + 1)
  {
    var title, body := headings[n].title, Body(content, headings, n);
    if EstimateTokens(body) > MAX_TOKENS {
      var chunks := after[|before|..];
      forall k | 0 <= k < |chunks| ensures IsBase(content, headings, chunks[k].text) {
        PackedIsBase(content, headings, chunks, title, n, k);
      }
      PackedIsNotEmpty(chunks, title, body);
      AppendedAreBounded(content, headings, before, chunks, n);
      assert after == before + chunks;
    } else if EstimateTokens(body) >= MIN_TOKENS {
      AppendedAreBounded(content, headings, before, [Section(title, body)], n);
    } else if before != [] {
      MergedAreBounded(content, headings, before, n);
    }
  }

  lemma PackedIsNotEmpty(chunks: seq<Section>, title: string, text: string)
    requires IsPacking(chunks, title, text) && EstimateTokens(text) > MAX_TOKENS
    ensures chunks != []
  {
    var groups :| Renders(chunks, title, groups) && Packs(groups, Paragraphs(text)) && Tight(groups);
    ChunksKeepWords(text, title, chunks, groups);
  }

  /**
   * The size of a section: it starts within 2000 tokens, as a single paragraph, or as the preamble, and
   * what is merged into it are bodies of fewer than 50 tokens that follow each other. Their number is
   * not limited.
   */
  lemma {:induction false} SectionsAreBounded(content: string, headings: seq<Heading>, steps: seq<seq<Section>>, n: nat)
    requires InOrder(content, headings) && headings != [] && n <= |headings| && IsTrace(content, headings, steps, n)
    ensures Bounded(content, headings, steps[n], n)
    decreases n
  {
    if n == 0 {
      BaseIsSized(content, headings, Preamble(content, headings), 0, true);
    } else {
      TraceShrinks(content, headings, steps, n - 1);
      SectionsAreBounded(content, headings, steps[..n], n - 1);
      BoundedStep(content, headings, steps[n - 1], steps[n], n - 1);
    }
  }

  /** The splitter: the packing of the whole text without headings, else the trace of its bodies. */
  method SplitIntoSections(content: string, headings: seq<Heading>)
    returns (sections: seq<Section>, ghost steps: seq<seq<Section>>)
    requires InOrder(content, headings)
    ensures headings == [] ==> exists chunks :: IsPacking(chunks, "", content) && sections == KeepLarge(chunks)
    ensures headings != [] ==> IsTrace(content, headings, steps, |headings|) && sections == steps[|headings|]
  {
    sections, steps := [], [];
    if headings == [] {
      var raw;
      ghost var groups;
      raw, groups := ParagraphSplit(content, "");
      assert IsPacking(raw, "", content);
      return KeepLarge(raw), [];
    }
    var pre := Preamble(content, headings);
    if pre != [] && EstimateTokens(pre) >= MIN_TOKENS { sections := [Section("Introduction", pre)]; }
    steps := [sections];
    for i := 0 to |headings|
      invariant IsTrace(content, headings, steps, i) && sections == steps[i]
    {
      ghost var before := steps;
      sections := AddBody(sections, headings[i].title, Body(content, headings, i));
      steps := steps + [sections];
      TraceExtends(content, headings, before, i, sections);
    }
  }
}
