/** The text splitter: a greedy packing of sentences into sections, and why no packing is shorter. */
module Format {
  import opened Sequences

  // ----- text

  predicate IsSpace(c: char) {
    c == ' ' || c == '\t' || c == '\n' || c == '\r' || c == '\U{b}' || c == '\U{c}'
    || c == '\U{85}' || c == '\U{a0}' || c == '\U{1680}' || '\U{2000}' <= c <= '\U{200a}'
    || c == '\U{2028}' || c == '\U{2029}' || c == '\U{202f}' || c == '\U{205f}' || c == '\U{3000}'
  }

  /** `len(strings.Fields(s))`: the number of maximal runs of non-space characters. */
  function WordCount(s: string): nat {
    if s == "" then 0
    else
      var n := |s| - 1;
      WordCount(s[..n]) + (if !IsSpace(s[n]) && (n == 0 || IsSpace(s[n - 1])) then 1 else 0)
  }

  /** The count is zero exactly for spaces alone. */
  lemma {:induction false} NoWordsIff(s: string)
    ensures WordCount(s) == 0 <==> forall i :: 0 <= i < |s| ==> IsSpace(s[i])
  {
    if s == "" {
    } else {
      var n := |s| - 1;
      NoWordsIff(s[..n]);
      assert forall i :: 0 <= i < n ==> s[..n][i] == s[i];
    }
  }

  /** Characters without a space between them are one word. */
  lemma {:induction false} OneWord(s: string)
    requires s != "" && forall i :: 0 <= i < |s| ==> !IsSpace(s[i])
    ensures WordCount(s) == 1
  {
    var n := |s| - 1;
    if n == 0 {
    } else {
      OneWord(s[..n]);
    }
  }

  lemma WordCountSnoc(s: string, x: char)
    ensures WordCount(s + [x])
         == WordCount(s) + Ind(!IsSpace(x) && (s == "" || IsSpace(s[|s| - 1])))
  {
    assert (s + [x])[..|s|] == s;
  }

  /** A space separates words: no other count does this and the two above. */
  lemma {:induction false} WordsApart(a: string, c: char, b: string)
    requires IsSpace(c)
    ensures WordCount(a + [c] + b) == WordCount(a) + WordCount(b)
  {
    if b == "" {
      WordCountSnoc(a, c);
      assert a + [c] + b == a + [c];
    } else {
      var n := |b| - 1;
      WordsApart(a, c, b[..n]);
      WordCountSnoc(a + [c] + b[..n], b[n]);
      WordCountSnoc(b[..n], b[n]);
      assert a + [c] + b == a + [c] + b[..n] + [b[n]] && b == b[..n] + [b[n]];
    }
  }

  /** `strings.Split(text, "\n")`; never empty. */
  function SplitLines(text: string): (lines: seq<string>)
    ensures lines != []
  {
    if text == "" then [""]
    else
      var n := |text| - 1;
      Extended(SplitLines(text[..n]), text[n])
  }

  function JoinLines(lines: seq<string>): string
    requires lines != []
  {
    var last := |lines| - 1;
    if last == 0 then lines[0] else JoinLines(lines[..last]) + "\n" + lines[last]
  }

  lemma JoinGrows(lines: seq<string>, c: char)
    requires lines != []
    ensures var last := |lines| - 1;
      JoinLines(lines[last := lines[last] + [c]]) == JoinLines(lines) + [c]
    ensures JoinLines(lines + [""]) == JoinLines(lines) + "\n"
  {
    var last := |lines| - 1;
    assert lines[last := lines[last] + [c]][..last] == lines[..last];
    assert (lines + [""])[..|lines|] == lines;
  }

  predicate NoBreaks(lines: seq<string>) {
    forall i :: 0 <= i < |lines| ==> '\n' !in lines[i]
  }

  /** The lines after one more character. */
  function Extended(lines: seq<string>, c: char): seq<string>
    requires lines != []
  {
    var last := |lines| - 1;
    if c == '\n' then lines + [""] else lines[last := lines[last] + [c]]
  }

  lemma ExtendedLines(lines: seq<string>, c: char)
    requires lines != []
    ensures NoBreaks(lines) ==> NoBreaks(Extended(lines, c))
    ensures Extended(lines, c) != [] && JoinLines(Extended(lines, c)) == JoinLines(lines) + [c]
  {
    JoinGrows(lines, c);
  }

  /** Splitting loses nothing: the lines joined again are the text, and no line has a line break. */
  lemma {:induction false} SplitLinesInverts(text: string)
    ensures JoinLines(SplitLines(text)) == text && NoBreaks(SplitLines(text))
  {
    if text == "" {
    } else {
      var n := |text| - 1;
      SplitLinesInverts(text[..n]);
      ExtendedLines(SplitLines(text[..n]), text[n]);
      assert text == text[..n] + [text[n]];
    }
  }

  // ----- sections

  function TruncDiv(a: int, b: int): int
    requires b > 0
  {
    if a >= 0 then a / b else -((-a) / b)
  }

  function MaxWords(ctxNum: int): int { TruncDiv(TruncDiv(ctxNum * 9, 10), 4) }

  /** Nine tenths of the context, a quarter of that; both divisions round towards zero. */
  lemma MaxWordsIs(ctxNum: int)
    ensures ctxNum >= 0 ==> 40 * MaxWords(ctxNum) <= 9 * ctxNum < 40 * (MaxWords(ctxNum) + 1)
    ensures MaxWords(-ctxNum) == -MaxWords(ctxNum)
  {
  }

  /** A section: the prefix, then every sentence after a space. */
  function Render(prefix: string, group: seq<string>): string {
    if group == [] then prefix
    else Render(prefix, group[..|group| - 1]) + " " + group[|group| - 1]
  }

  function RenderAll(prefix: string, groups: seq<seq<string>>): seq<string> {
    seq(|groups|, i requires 0 <= i < |groups| => Render(prefix, groups[i]))
  }

  function Words(group: seq<string>): nat {
    if group == [] then 0 else WordCount(group[0]) + Words(group[1..])
  }

  /** The sentences of each section, given the open section and its word count. */
  function Groups(open: seq<string>, words: nat, rest: seq<string>, max: int, hasPrefix: bool): seq<seq<string>>
    decreases rest
  {
    if rest == [] then [open]
    else
      var n := WordCount(rest[0]);
      if n + words > max && (hasPrefix || open != []) then
        [open] + Groups([rest[0]], n, rest[1..], max, hasPrefix)
      else
        Groups(open + [rest[0]], words + n, rest[1..], max, hasPrefix)
  }

  function Sections(prefix: string, text: string, ctxNum: int): seq<seq<string>> {
    Groups([], 0, SplitLines(text), MaxWords(ctxNum), prefix != "")
  }

  /** The rest of the list when the loop stands before `rest`. */
  function Pending(prefix: string, current: string, words: nat, rest: seq<string>, max: int): seq<string>
    decreases rest
  {
    if rest == [] then [current]
    else
      var n := WordCount(rest[0]);
      if n + words > max && current != "" then
        [current] + Pending(prefix, prefix + " " + rest[0], n, rest[1..], max)
      else
        Pending(prefix, current + " " + rest[0], words + n, rest[1..], max)
  }

  lemma {:induction false} PendingIsRendered(prefix: string, open: seq<string>, words: nat, rest: seq<string>, max: int)
    ensures Pending(prefix, Render(prefix, open), words, rest, max)
         == RenderAll(prefix, Groups(open, words, rest, max, prefix != ""))
    decreases rest
  {
    if rest == [] {
    } else {
      var n := WordCount(rest[0]);
      assert [] + [rest[0]] == [rest[0]];
      PendingIsRendered(prefix, [rest[0]], n, rest[1..], max);
      PendingIsRendered(prefix, open + [rest[0]], words + n, rest[1..], max);
    }
  }

  method Split(prefix: string, text: string, ctxNum: int) returns (list: seq<string>)
    ensures list == RenderAll(prefix, Sections(prefix, text, ctxNum))
    ensures IsSplit(list, prefix, text, MaxWords(ctxNum))
    ensures prefix == "" ==> IsFewest(|list|, SplitLines(text), MaxWords(ctxNum))
  {
    SectionsAreSplit(prefix, text, ctxNum);
    if prefix == "" {
      forall packing | IsPacking(packing, SplitLines(text), MaxWords(ctxNum))
        ensures |Sections(prefix, text, ctxNum)| <= |packing|
      {
        SplitIsOptimal(SplitLines(text), MaxWords(ctxNum), packing);
      }
    }
    list := SplitLoop(prefix, text, ctxNum);
  }

  method SplitLoop(prefix: string, text: string, ctxNum: int) returns (list: seq<string>)
    ensures list == RenderAll(prefix, Sections(prefix, text, ctxNum))
  {
    var maxWords := MaxWords(ctxNum);
    list := [];
    var current := prefix;
    var currentNumWords: nat := 0;
    var sentences := SplitLines(text);
    for i := 0 to |sentences|
      invariant Pending(prefix, prefix, 0, sentences, maxWords)
             == list + Pending(prefix, current, currentNumWords, sentences[i..], maxWords)
    {
      var sentence := sentences[i];
      var numWords := WordCount(sentence);
      if numWords + currentNumWords > maxWords && current != "" {
        list := list + [current];
        current := prefix;
        currentNumWords := 0;
      }
      current := current + " " + sentence;
      currentNumWords := currentNumWords + numWords;
    }
    list := list + [current];
    PendingIsRendered(prefix, [], 0, sentences, maxWords);
  }

  // ----- what the sections are

  /** Every sentence lands in exactly one section, in order. */
  lemma {:induction false} GroupsFlatten(open: seq<string>, words: nat, rest: seq<string>, max: int, hasPrefix: bool)
    ensures Flatten(Groups(open, words, rest, max, hasPrefix)) == open + rest
    ensures |Groups(open, words, rest, max, hasPrefix)| >= 1
    decreases rest
  {
    if rest == [] {
    } else {
      var n := WordCount(rest[0]);
      if n + words > max && (hasPrefix || open != []) {
        GroupsFlatten([rest[0]], n, rest[1..], max, hasPrefix);
      } else {
        GroupsFlatten(open + [rest[0]], words + n, rest[1..], max, hasPrefix);
      }
    }
  }

  /** A packing the splitter may choose from: sentences in order, and only a single sentence may
      exceed the limit. */
  ghost predicate Fits(group: seq<string>, max: int) {
    group != [] && (|group| >= 2 ==> Words(group) <= max)
  }

  ghost predicate IsPacking(groups: seq<seq<string>>, sentences: seq<string>, max: int) {
    Flatten(groups) == sentences && forall i :: 0 <= i < |groups| ==> Fits(groups[i], max)
  }

  /** No packing has fewer than `n` groups. */
  ghost predicate IsFewest(n: nat, sentences: seq<string>, max: int) {
    forall packing :: IsPacking(packing, sentences, max) ==> n <= |packing|
  }

  lemma {:induction false} WordsSnoc(group: seq<string>, s: string)
    ensures Words(group + [s]) == Words(group) + WordCount(s)
  {
    if group == [] {
      assert group + [s] == [s];
    } else {
      WordsSnoc(group[1..], s);
      assert (group + [s])[1..] == group[1..] + [s];
    }
  }

  lemma {:induction false} GroupsFit(open: seq<string>, words: nat, rest: seq<string>, max: int, hasPrefix: bool)
    requires Fits(open, max) && words == Words(open)
    ensures forall i :: 0 <= i < |Groups(open, words, rest, max, hasPrefix)| ==>
              Fits(Groups(open, words, rest, max, hasPrefix)[i], max)
    decreases rest
  {
    if rest == [] {
    } else {
      var n := WordCount(rest[0]);
      if n + words > max {
        GroupsFit([rest[0]], n, rest[1..], max, hasPrefix);
      } else {
        WordsSnoc(open, rest[0]);
        GroupsFit(open + [rest[0]], words + n, rest[1..], max, hasPrefix);
      }
    }
  }

  // ----- fewest sections

  /** The number of sections when the open one has `words` words. */
  function Count(words: nat, rest: seq<string>, max: int): nat
    decreases rest
  {
    if rest == [] then 1
    else
      var n := WordCount(rest[0]);
      if n + words > max then 1 + Count(n, rest[1..], max) else Count(words + n, rest[1..], max)
  }

  lemma {:induction false} GroupsCount(open: seq<string>, words: nat, rest: seq<string>, max: int, hasPrefix: bool)
    requires open != []
    ensures |Groups(open, words, rest, max, hasPrefix)| == Count(words, rest, max)
    decreases rest
  {
    if rest == [] {
    } else {
      var n := WordCount(rest[0]);
      if n + words > max {
        GroupsCount([rest[0]], n, rest[1..], max, hasPrefix);
      } else {
        GroupsCount(open + [rest[0]], words + n, rest[1..], max, hasPrefix);
      }
    }
  }

  /** A fuller open section never needs fewer sections, and never more than one more. */
  lemma {:induction false} CountMonotone(less: nat, more: nat, rest: seq<string>, max: int)
    requires less <= more
    ensures Count(less, rest, max) <= Count(more, rest, max)
    decreases rest
  {
    if rest == [] {
    } else {
      var n := WordCount(rest[0]);
      if n + more <= max {
        CountMonotone(less + n, more + n, rest[1..], max);
      } else if n + less <= max {
        CountWithinOne(less + n, n, rest[1..], max);
      }
    }
  }

  lemma {:induction false} CountWithinOne(a: nat, b: nat, rest: seq<string>, max: int)
    ensures Count(a, rest, max) <= 1 + Count(b, rest, max)
    decreases rest
  {
    if rest == [] {
    } else {
      var n := WordCount(rest[0]);
      CountMonotone(n, b + n, rest[1..], max);
      CountWithinOne(a + n, n, rest[1..], max);
      CountWithinOne(a + n, b + n, rest[1..], max);
    }
  }

  lemma {:induction false} CountSkips(words: nat, group: seq<string>, rest: seq<string>, max: int)
    requires group == [] || words + Words(group) <= max
    ensures Count(words, group + rest, max) == Count(words + Words(group), rest, max)
    decreases group
  {
    if group == [] {
      assert group + rest == rest;
    } else {
      assert (group + rest)[1..] == group[1..] + rest;
      CountSkips(words + WordCount(group[0]), group[1..], rest, max);
    }
  }

  /** Putting any fitting group first costs one section more than the rest alone. */
  lemma CountAfterGroup(group: seq<string>, rest: seq<string>, max: int)
    requires Fits(group, max)
    ensures Count(WordCount(group[0]), group[1..] + rest, max)
         <= 1 + (if rest == [] then 0 else Count(WordCount(rest[0]), rest[1..], max))
  {
    CountAfter(WordCount(group[0]), group[1..], rest, max);
  }

  lemma CountAfter(first: nat, others: seq<string>, rest: seq<string>, max: int)
    requires others == [] || first + Words(others) <= max
    ensures Count(first, others + rest, max)
         <= 1 + (if rest == [] then 0 else Count(WordCount(rest[0]), rest[1..], max))
  {
    CountSkips(first, others, rest, max);
    OneMoreSection(first + Words(others), rest, max);
  }

  lemma OneMoreSection(words: nat, rest: seq<string>, max: int)
    ensures Count(words, rest, max)
         <= 1 + (if rest == [] then 0 else Count(WordCount(rest[0]), rest[1..], max))
  {
    if rest != [] {
      CountWithinOne(words + WordCount(rest[0]), WordCount(rest[0]), rest[1..], max);
    }
  }

  lemma {:induction false} CountIsLeast(packing: seq<seq<string>>, sentences: seq<string>, max: int)
    requires sentences != [] && IsPacking(packing, sentences, max)
    ensures Count(WordCount(sentences[0]), sentences[1..], max) <= |packing|
    decreases packing
  {
    var group, rest := packing[0], Flatten(packing[1..]);
    assert Fits(group, max);
    assert sentences[1..] == group[1..] + rest;
    CountAfterGroup(group, rest, max);
    if rest == [] {
    } else {
      CountIsLeast(packing[1..], rest, max);
    }
  }

  /** Without a prefix the sections are a packing, and no packing has fewer. */
  lemma SplitIsOptimal(sentences: seq<string>, max: int, packing: seq<seq<string>>)
    requires sentences != [] && IsPacking(packing, sentences, max)
    ensures IsPacking(Groups([], 0, sentences, max, false), sentences, max)
    ensures |Groups([], 0, sentences, max, false)| <= |packing|
  {
    var first := [sentences[0]];
    GroupsFlatten([], 0, sentences, max, false);
    assert [] + first == first;
    GroupsFit(first, WordCount(sentences[0]), sentences[1..], max, false);
    GroupsCount(first, WordCount(sentences[0]), sentences[1..], max, false);
    CountIsLeast(packing, sentences, max);
  }

  lemma {:induction false} PrefixOnlyMattersFirst(open: seq<string>, words: nat, rest: seq<string>, max: int)
    requires open != []
    ensures Groups(open, words, rest, max, true) == Groups(open, words, rest, max, false)
    decreases rest
  {
    if rest == [] {
    } else {
      var n := WordCount(rest[0]);
      PrefixOnlyMattersFirst([rest[0]], n, rest[1..], max);
      PrefixOnlyMattersFirst(open + [rest[0]], words + n, rest[1..], max);
    }
  }

  /** With a prefix the sections are the same, behind one section that holds the prefix alone
      exactly when the first sentence exceeds the limit by itself. */
  lemma PrefixSection(sentences: seq<string>, max: int)
    requires sentences != []
    ensures Groups([], 0, sentences, max, true)
         == (if WordCount(sentences[0]) > max then [[]] else []) + Groups([], 0, sentences, max, false)
  {
    var n := WordCount(sentences[0]);
    assert [] + [sentences[0]] == [sentences[0]];
    PrefixOnlyMattersFirst([sentences[0]], n, sentences[1..], max);
  }

  // ----- the sections seen from outside

  function Spaced(sentence: string): string { " " + sentence }

  /** A section is the prefix and a space before each sentence. */
  lemma {:induction false} RenderLayout(prefix: string, group: seq<string>)
    ensures Render(prefix, group) == prefix + Flatten(Map(group, Spaced))
  {
    if group == [] {
    } else {
      var n := |group| - 1;
      RenderLayout(prefix, group[..n]);
      FlattenSnoc(Map(group[..n], Spaced), Spaced(group[n]));
      assert Map(group, Spaced) == Map(group[..n], Spaced) + [Spaced(group[n])];
    }
  }

  /** So its words are those of the prefix and of the sentences. */
  lemma {:induction false} RenderedWords(prefix: string, group: seq<string>)
    ensures WordCount(Render(prefix, group)) == WordCount(prefix) + Words(group)
  {
    if group == [] {
    } else {
      var n := |group| - 1;
      RenderedWords(prefix, group[..n]);
      WordsSnoc(group[..n], group[n]);
      WordsApart(Render(prefix, group[..n]), ' ', group[n]);
      assert group == group[..n] + [group[n]];
    }
  }

  /** Section `section` of a split: it lists the sentences of its group, and if they are several, it has
      at most the words of the prefix and `max` more. */
  ghost predicate IsSection(section: string, prefix: string, group: seq<string>, max: int) {
    && section == prefix + Flatten(Map(group, Spaced))
    && (|group| >= 2 ==> WordCount(section) <= WordCount(prefix) + max)
  }

  /** The sections list the lines of the text, each once and in order. */
  ghost predicate IsSplit(list: seq<string>, prefix: string, text: string, max: int) {
    exists groups :: Flatten(groups) == SplitLines(text) && |groups| == |list| && AreSections(list, prefix, groups, max)
  }

  ghost predicate AreSections(list: seq<string>, prefix: string, groups: seq<seq<string>>, max: int)
    requires |groups| == |list|
  {
    forall k :: 0 <= k < |list| ==> IsSection(list[k], prefix, groups[k], max)
  }

  lemma AllFit(sentences: seq<string>, max: int, hasPrefix: bool)
    requires sentences != []
    ensures forall i :: 0 <= i < |Groups([], 0, sentences, max, hasPrefix)| ==>
              var group := Groups([], 0, sentences, max, hasPrefix)[i];
              |group| >= 2 ==> Words(group) <= max
  {
    var n := WordCount(sentences[0]);
    assert [] + [sentences[0]] == [sentences[0]];
    GroupsFit([sentences[0]], n, sentences[1..], max, hasPrefix);
  }

  lemma SectionsAreSplit(prefix: string, text: string, ctxNum: int)
    ensures IsSplit(RenderAll(prefix, Sections(prefix, text, ctxNum)), prefix, text, MaxWords(ctxNum))
  {
    var max, groups := MaxWords(ctxNum), Sections(prefix, text, ctxNum);
    var list := RenderAll(prefix, groups);
    GroupsFlatten([], 0, SplitLines(text), max, prefix != "");
    AllFit(SplitLines(text), max, prefix != "");
    forall k | 0 <= k < |list| ensures IsSection(list[k], prefix, groups[k], max) {
      RenderLayout(prefix, groups[k]);
      RenderedWords(prefix, groups[k]);
    }
    assert AreSections(list, prefix, groups, max);
  }
}
