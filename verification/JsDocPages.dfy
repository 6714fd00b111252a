/** A documentation comment as a page: sections of an introduction and items, blank lines between them, then tags. */
module JsDocPages {
  import opened Text
  import opened Sorting
  import opened Options
  import opened JsDocProse

  // ----- one line of text is its words

  /** No white space at the ends, and between words a single blank. */
  predicate Neat(s: string) {
    && (s != [] ==> !IsSpace(s[0]) && !IsSpace(s[|s| - 1]))
    && SingleBlanks(s)
  }

  predicate SingleBlanks(s: string) {
    && (forall i | 0 <= i < |s| && IsSpace(s[i]) :: s[i] == ' ')
    && (forall i | 0 < i < |s| :: !IsSpace(s[i - 1]) || !IsSpace(s[i]))
  }

  lemma JoinGrowsHead(c: char, parts: seq<string>, separator: string)
    requires parts != []
    ensures Join([[c] + parts[0]] + parts[1..], separator) == [c] + Join(parts, separator)
  {
    var grown := [[c] + parts[0]] + parts[1..];
    if |parts| >= 2 {
      JoinFront(grown, separator);
      JoinFront(parts, separator);
      assert grown[1..] == parts[1..];
    }
  }

  lemma NeatTail(s: string, k: nat)
    requires Neat(s) && k < |s| && !IsSpace(s[k])
    ensures Neat(s[k..])
  {
    var t := s[k..];
    forall i | 0 < i < |t| ensures !IsSpace(t[i - 1]) || !IsSpace(t[i]) {
      assert t[i] == s[i + k];
      assert t[i - 1] == s[i + k - 1];
    }
  }

  lemma {:induction false} NeatIsJoined(s: string)
    requires Neat(s)
    ensures s == Join(Words(s), " ")
    decreases |s|
  {
    if |s| >= 2 {
      if IsSpace(s[1]) {
        BehindBlank(s);
        NeatIsJoined(s[2..]);
        JoinFirst([s[0]], Words(s[2..]), " ");
        assert s == [s[0]] + " " + s[2..];
      } else {
        NeatTail(s, 1);
        NeatIsJoined(s[1..]);
        WordGrows(s);
        JoinGrowsHead(s[0], Words(s[1..]), " ");
      }
    }
  }

  lemma {:induction false} BehindBlank(s: string)
    requires Neat(s) && |s| >= 2 && IsSpace(s[1])
    ensures |s| > 2 && s[1] == ' ' && Neat(s[2..])
    ensures Words(s) == [[s[0]]] + Words(s[2..]) && Words(s[2..]) != []
  {
    assert IsSpace(s[2 - 1]) && !IsSpace(s[2]);
    NeatTail(s, 2);
    assert s[1..][1..] == s[2..] && !IsSpace(s[2..][0]);
    assert Words(s[1..]) == Words(s[2..]);
  }

  lemma {:induction false} WordGrows(s: string)
    requires |s| >= 2 && !IsSpace(s[0]) && !IsSpace(s[1])
    ensures Words(s[1..]) != [] && Words(s) == [[s[0]] + Words(s[1..])[0]] + Words(s[1..])[1..]
    ensures s == [s[0]] + s[1..]
  {
  }

  lemma {:induction false} CollapseSingle(s: string)
    ensures SingleBlanks(Collapse(s))
  {
    if s != [] {
      CollapseSingle(s[1..]);
      var rest, r := Collapse(s[1..]), Collapse(s);
      if r != rest {
        forall i | 0 < i < |r| ensures !IsSpace(r[i - 1]) || !IsSpace(r[i]) {
          assert r[i] == rest[i - 1];
          if i > 1 {
            assert r[i - 1] == rest[i - 2];
            assert !IsSpace(rest[i - 1 - 1]) || !IsSpace(rest[i - 1]);
          }
        }
      }
    }
  }

  lemma {:induction false} TrimStartSingle(s: string)
    requires SingleBlanks(s)
    ensures SingleBlanks(TrimStart(s))
  {
    if s != [] && IsSpace(s[0]) {
      forall i | 0 < i < |s[1..]| ensures !IsSpace(s[1..][i - 1]) || !IsSpace(s[1..][i]) {
        assert s[1..][i - 1] == s[i + 1 - 1];
      }
      TrimStartSingle(s[1..]);
    }
  }

  lemma {:induction false} TrimEndSingle(s: string)
    requires SingleBlanks(s) && (s == [] || !IsSpace(s[0]))
    ensures Neat(TrimEnd(s))
  {
    if s != [] && IsSpace(s[|s| - 1]) {
      TrimEndSingle(s[..|s| - 1]);
    }
  }

  /** What is put on one line is the words, with single blanks. */
  lemma TidyIsWords(parts: seq<string>)
    ensures Tidy(parts) == Join(WordsOf(parts), " ")
  {
    var s := Collapse(Join(parts, " "));
    CollapseSingle(Join(parts, " "));
    TrimStartSingle(s);
    TrimEndSingle(TrimStart(s));
    TidyWords(parts);
    NeatIsJoined(Tidy(parts));
  }

  // ----- kinds of lines

  /** Its first character that is not white space is an at sign. */
  predicate TagLine(line: string) {
    exists k :: 0 <= k < |line| && line[k] == '@' && forall j | 0 <= j < k :: IsSpace(line[j])
  }

  /** A dash, and white space after it. */
  predicate ItemLine(line: string) {
    |line| >= 2 && line[0] == '-' && IsSpace(line[1])
  }

  predicate TextLine(line: string) {
    !Blank(line) && !TagLine(line) && !ItemLine(line)
  }

  lemma {:induction false} TagMeans(line: string)
    ensures IsTag(line) <==> TagLine(line)
  {
    if line != [] && IsSpace(line[0]) {
      TagMeans(line[1..]);
      if k :| 0 <= k < |line| && line[k] == '@' && forall j | 0 <= j < k :: IsSpace(line[j]) {
        assert line[1..][k - 1] == '@' && forall j | 0 <= j < k - 1 :: line[1..][j] == line[j + 1];
      }
      if k :| 0 <= k < |line| - 1 && line[1..][k] == '@' && forall j | 0 <= j < k :: IsSpace(line[1..][j]) {
        assert line[k + 1] == '@' && forall j | 0 < j < k + 1 :: line[j] == line[1..][j - 1];
      }
    }
  }

  // ----- pages

  function Flat(items: seq<seq<string>>): seq<string> {
    if items == [] then [] else Flat(items[..|items| - 1]) + items[|items| - 1]
  }

  /** An introduction of plain lines, and items that a dash opens and plain lines continue. */
  predicate Section(c: Chunk) {
    && (forall k | 0 <= k < |c.intro| :: TextLine(c.intro[k]))
    && (forall i | 0 <= i < |c.items| :: Item(c.items[i]))
  }

  predicate Item(item: seq<string>) {
    item != [] && ItemLine(item[0]) && forall k | 1 <= k < |item| :: TextLine(item[k])
  }

  function SectionLines(c: Chunk): seq<string> {
    c.intro + Flat(c.items)
  }

  /** The sections with a blank line after each but the last. A section may be empty. */
  function PageLines(sections: seq<Chunk>, blanks: seq<string>): seq<string>
    requires |sections| == |blanks| + 1
  {
    var n := |blanks|;
    if n == 0 then SectionLines(sections[0])
    else PageLines(sections[..n], blanks[..n - 1]) + [blanks[n - 1]] + SectionLines(sections[n])
  }

  predicate Page(lines: seq<string>, sections: seq<Chunk>, blanks: seq<string>) {
    && |sections| == |blanks| + 1
    && (forall i | 0 <= i < |sections| :: Section(sections[i]))
    && (forall i | 0 <= i < |blanks| :: Blank(blanks[i]))
    && lines == PageLines(sections, blanks)
  }

  lemma {:induction false} FlatSnoc(items: seq<seq<string>>, item: seq<string>)
    ensures Flat(items + [item]) == Flat(items) + item
  {
    assert (items + [item])[..|items|] == items;
  }

  lemma {:induction false} PageSnoc(sections: seq<Chunk>, blanks: seq<string>, blank: string, c: Chunk)
    requires |sections| == |blanks| + 1
    ensures PageLines(sections + [c], blanks + [blank]) == PageLines(sections, blanks) + [blank] + SectionLines(c)
  {
    assert (sections + [c])[..|sections|] == sections && (blanks + [blank])[..|blanks|] == blanks;
  }

  lemma {:induction false} ItemOpened(intro: seq<string>, items: seq<seq<string>>, line: string)
    requires ItemLine(line)
    ensures Extend(Chunk(intro, items), line) == Chunk(intro, items + [[line]])
    ensures SectionLines(Chunk(intro, items + [[line]])) == SectionLines(Chunk(intro, items)) + [line]
  {
    FlatSnoc(items, [line]);
  }

  lemma {:induction false} ItemContinued(intro: seq<string>, items: seq<seq<string>>, item: seq<string>, line: string)
    requires !ItemLine(line)
    ensures Extend(Chunk(intro, items + [item]), line) == Chunk(intro, items + [item + [line]])
    ensures
      SectionLines(Chunk(intro, items + [item + [line]])) == SectionLines(Chunk(intro, items + [item])) + [line]
  {
    var more := items + [item];
    assert more[..|more| - 1] == items;
    FlatSnoc(items, item);
    FlatSnoc(items, item + [line]);
  }

  /** One more line of a section, in its place. */
  lemma SectionExtends(c: Chunk, line: string)
    requires Section(c) && !Blank(line) && !TagLine(line)
    ensures Section(Extend(c, line)) && SectionLines(Extend(c, line)) == SectionLines(c) + [line]
  {
    var n := |c.items|;
    if ItemLine(line) {
      ItemOpened(c.intro, c.items, line);
    } else if n > 0 {
      assert c.items == c.items[..n - 1] + [c.items[n - 1]];
      ItemContinued(c.intro, c.items[..n - 1], c.items[n - 1], line);
    }
  }

  lemma {:induction false} PageExtends(init: seq<Chunk>, c: Chunk, d: Chunk, blanks: seq<string>, line: string)
    requires |init| == |blanks| && SectionLines(d) == SectionLines(c) + [line]
    ensures PageLines(init + [d], blanks) == PageLines(init + [c], blanks) + [line]
  {
    assert (init + [c])[..|init|] == init && (init + [d])[..|init|] == init;
  }

  lemma {:induction false} PageWithLine(lines: seq<string>, init: seq<Chunk>, c: Chunk, blanks: seq<string>,
                                        line: string)
    requires Page(lines, init + [c], blanks) && !Blank(line) && !TagLine(line)
    ensures Page(lines + [line], init + [Extend(c, line)], blanks)
  {
    LastSection(init, c);
    SectionExtends(c, line);
    PageExtends(init, c, Extend(c, line), blanks, line);
    AllSections(init, c, Extend(c, line));
  }

  lemma LastSection(init: seq<Chunk>, c: Chunk)
    requires forall i | 0 <= i < |init + [c]| :: Section((init + [c])[i])
    ensures Section(c)
  {
    assert (init + [c])[|init|] == c;
  }

  lemma AllSections(init: seq<Chunk>, c: Chunk, d: Chunk)
    requires (forall i | 0 <= i < |init + [c]| :: Section((init + [c])[i])) && Section(d)
    ensures forall i | 0 <= i < |init + [d]| :: Section((init + [d])[i])
  {
    forall i | 0 <= i < |init + [d]| ensures Section((init + [d])[i]) {
      assert i < |init| ==> (init + [c])[i] == (init + [d])[i];
    }
  }

  /** Lines without a tag are a page. */
  lemma {:induction false} EveryPage(lines: seq<string>) returns (blanks: seq<string>)
    requires forall k | 0 <= k < |lines| :: !TagLine(lines[k])
    ensures Page(lines, Chunks(lines), blanks)
  {
    if lines == [] {
      blanks := [];
    } else {
      var n := |lines| - 1;
      var init, line, before := lines[..n], lines[n], Chunks(lines[..n]);
      assert lines == init + [line];
      blanks := EveryPage(init);
      if Blank(line) {
        PageSnoc(before, blanks, line, EMPTY);
        blanks := blanks + [line];
      } else {
        var m := |before| - 1;
        assert before == before[..m] + [before[m]];
        PageWithLine(init, before[..m], before[m], blanks, line);
      }
    }
  }

  /** A section without its last line. */
  lemma Shrunk(c: Chunk) returns (d: Chunk, line: string)
    requires Section(c) && SectionLines(c) != []
    ensures Section(d) && Extend(d, line) == c && !Blank(line) && SectionLines(c) == SectionLines(d) + [line]
  {
    var n := |c.items|;
    if n == 0 {
      var m := |c.intro| - 1;
      d, line := Chunk(c.intro[..m], []), c.intro[m];
    } else {
      d, line := ShrunkList(c);
    }
  }

  lemma {:induction false} ShrunkList(c: Chunk) returns (d: Chunk, line: string)
    requires Section(c) && c.items != []
    ensures Section(d) && Extend(d, line) == c && !Blank(line) && SectionLines(c) == SectionLines(d) + [line]
  {
    var n := |c.items| - 1;
    var init, last := c.items[..n], c.items[n];
    assert Item(last) && c.items == init + [last];
    var m := |last| - 1;
    line := last[m];
    if m == 0 {
      d := Chunk(c.intro, init);
      assert last == [line];
      ItemOpened(c.intro, init, line);
    } else {
      d := Chunk(c.intro, init + [last[..m]]);
      assert Item(last[..m]) && last == last[..m] + [line];
      ItemContinued(c.intro, init, last[..m], line);
    }
  }

  lemma {:induction false} OneLineMore(fewer: seq<string>, init: seq<Chunk>, d: Chunk, line: string)
    requires Chunks(fewer) == init + [d] && !Blank(line)
    ensures Chunks(fewer + [line]) == init + [Extend(d, line)]
  {
    assert (fewer + [line])[..|fewer|] == fewer && Chunks(fewer)[..|init|] == init;
  }

  lemma {:induction false} OneBlankMore(fewer: seq<string>, blank: string)
    requires Blank(blank)
    ensures Chunks(fewer + [blank]) == Chunks(fewer) + [EMPTY]
  {
    assert (fewer + [blank])[..|fewer|] == fewer;
  }

  /** And only in one way. */
  lemma {:induction false} PageUnique(lines: seq<string>, sections: seq<Chunk>, blanks: seq<string>)
    requires Page(lines, sections, blanks)
    ensures Chunks(lines) == sections
    decreases |lines|
  {
    var n := |blanks|;
    if SectionLines(sections[n]) != [] {
      var fewer, d, line := OneLineLess(lines, sections, blanks);
      PageUnique(fewer, sections[..n] + [d], blanks);
      OneLineMore(fewer, sections[..n], d, line);
    } else {
      LineLess(sections[n]);
      if n > 0 {
        OneBlankLess(lines, sections, blanks);
        var fewer := PageLines(sections[..n], blanks[..n - 1]);
        PageUnique(fewer, sections[..n], blanks[..n - 1]);
        OneBlankMore(fewer, blanks[n - 1]);
      } else {
        assert sections == [EMPTY];
      }
    }
  }

  lemma {:induction false} OneLineLess(lines: seq<string>, sections: seq<Chunk>, blanks: seq<string>)
    returns (fewer: seq<string>, d: Chunk, line: string)
    requires Page(lines, sections, blanks) && SectionLines(sections[|blanks|]) != []
    ensures var init := sections[..|blanks|];
            Page(fewer, init + [d], blanks) && lines == fewer + [line] && !Blank(line)
            && sections == init + [Extend(d, line)]
  {
    var init, last := sections[..|blanks|], sections[|blanks|];
    assert sections == init + [last];
    d, line := Shrunk(last);
    PageExtends(init, d, last, blanks, line);
    fewer := PageLines(init + [d], blanks);
  }

  lemma {:induction false} OneBlankLess(lines: seq<string>, sections: seq<Chunk>, blanks: seq<string>)
    requires Page(lines, sections, blanks) && blanks != [] && sections[|blanks|] == EMPTY
    ensures var n := |blanks|;
            && Page(PageLines(sections[..n], blanks[..n - 1]), sections[..n], blanks[..n - 1])
            && lines == PageLines(sections[..n], blanks[..n - 1]) + [blanks[n - 1]]
            && sections == sections[..n] + [EMPTY]
  {
    assert SectionLines(EMPTY) == [];
  }

  lemma {:induction false} LineLess(c: Chunk)
    requires Section(c)
    ensures SectionLines(c) == [] ==> c == EMPTY
  {
    if c.items != [] {
      var n := |c.items| - 1;
      assert Item(c.items[n]);
      assert Flat(c.items) == Flat(c.items[..n]) + c.items[n];
    }
  }

  // ----- the text of a page

  /** The words of the lines, with single blanks. */
  function OneLine(lines: seq<string>): string {
    Join(WordsOf(lines), " ")
  }

  function ItemTexts(items: seq<seq<string>>): (r: seq<string>)
    ensures |r| == |items| && forall i | 0 <= i < |items| :: r[i] == OneLine(items[i])
  {
    seq(|items|, i requires 0 <= i < |items| => OneLine(items[i]))
  }

  /** A paragraph for the introduction, if there is one, and a block with the items line by line, if there are any. */
  function SectionTexts(c: Chunk): seq<string> {
    if c.intro == [] && c.items == [] then []
    else if c.items == [] then [OneLine(c.intro)]
    else if c.intro == [] then [Join(ItemTexts(c.items), "\n")]
    else [OneLine(c.intro), Join(ItemTexts(c.items), "\n")]
  }

  function PageTexts(sections: seq<Chunk>): seq<string> {
    if sections == [] then [] else PageTexts(sections[..|sections| - 1]) + SectionTexts(sections[|sections| - 1])
  }

  /** The paragraphs and blocks of the sections, with an empty line between them. */
  function PageText(sections: seq<Chunk>): string {
    Join(PageTexts(sections), "\n\n")
  }

  lemma BlocksAreTexts(c: Chunk)
    ensures Blocks(c) == SectionTexts(c)
  {
    TidyIsWords(c.intro);
    forall i | 0 <= i < |c.items| ensures TidyAll(c.items)[i] == ItemTexts(c.items)[i] {
      TidyIsWords(c.items[i]);
    }
    assert TidyAll(c.items) == ItemTexts(c.items);
  }

  lemma {:induction false} TextsRendered(sections: seq<Chunk>)
    ensures Rendered(sections) == PageTexts(sections)
  {
    if sections != [] {
      TextsRendered(sections[..|sections| - 1]);
      BlocksAreTexts(sections[|sections| - 1]);
    }
  }

  /** The first `n` lines are those before the first tag. */
  predicate UpToTag(lines: seq<string>, n: nat) {
    && n <= |lines| && (forall k | 0 <= k < n :: !TagLine(lines[k]))
    && (n < |lines| ==> TagLine(lines[n]))
  }

  lemma {:induction false} ProseEnds(lines: seq<string>) returns (n: nat)
    ensures UpToTag(lines, n) && Prose(lines) == lines[..n]
  {
    n := 0;
    if lines != [] {
      TagMeans(lines[0]);
      if !IsTag(lines[0]) {
        var rest := ProseEnds(lines[1..]);
        n := rest + 1;
        assert lines[..n] == [lines[0]] + lines[1..][..rest];
        assert forall k | 1 <= k < n :: lines[k] == lines[1..][k - 1];
      }
    }
  }

  lemma PageRead(lines: seq<string>) returns (n: nat, sections: seq<Chunk>, blanks: seq<string>)
    ensures UpToTag(lines, n) && Page(lines[..n], sections, blanks)
    ensures Join(Rendered(Chunks(Prose(lines))), "\n\n") == PageText(sections)
  {
    n := ProseEnds(lines);
    sections := Chunks(lines[..n]);
    blanks := EveryPage(lines[..n]);
    TextsRendered(sections);
  }

  /** There is one way to read the lines as a page, so its text is the text of the comment. */
  lemma OnePage(lines: seq<string>, n: nat, sections: seq<Chunk>, blanks: seq<string>, m: nat, others: seq<Chunk>,
                gaps: seq<string>)
    requires UpToTag(lines, n) && Page(lines[..n], sections, blanks)
    requires UpToTag(lines, m) && Page(lines[..m], others, gaps)
    ensures n == m && sections == others
  {
    PageUnique(lines[..n], sections, blanks);
    PageUnique(lines[..m], others, gaps);
  }

  /** An introduction with items right below it is a paragraph, an empty line, and a line for each item. */
  lemma IntroAndItems(lines: seq<string>, n: nat, sections: seq<Chunk>, blanks: seq<string>, intro: seq<string>,
                      items: seq<seq<string>>)
    requires UpToTag(lines, n) && Page(lines[..n], sections, blanks)
    requires Section(Chunk(intro, items)) && lines[..n] == intro + Flat(items) && items != []
    ensures PageText(sections)
         == (if intro == [] then [] else OneLine(intro) + "\n\n") + Join(ItemTexts(items), "\n")
  {
    var only := [Chunk(intro, items)];
    assert only[0] == Chunk(intro, items) && PageLines(only, []) == lines[..n];
    assert Page(lines[..n], only, []);
    OnePage(lines, n, sections, blanks, n, only, []);
    OneSection(intro, items);
  }

  lemma {:induction false} OneSection(intro: seq<string>, items: seq<seq<string>>)
    requires items != []
    ensures PageText([Chunk(intro, items)])
         == (if intro == [] then [] else OneLine(intro) + "\n\n") + Join(ItemTexts(items), "\n")
  {
    OnlyTexts(Chunk(intro, items));
    var list := Join(ItemTexts(items), "\n");
    if intro == [] {
      assert SectionTexts(Chunk(intro, items)) == [list];
    } else {
      TwoTexts(OneLine(intro), list, "\n\n");
    }
  }

  lemma {:induction false} OnlyTexts(c: Chunk)
    ensures PageTexts([c]) == SectionTexts(c)
  {
    assert [c][..0] == [] && PageTexts([c][..0]) == [];
    assert [] + SectionTexts(c) == SectionTexts(c);
  }

  lemma {:induction false} TwoTexts(a: string, b: string, separator: string)
    ensures Join([a, b], separator) == a + separator + b
  {
    assert [a, b][..1] == [a] && Join([a], separator) == a;
  }

  // ----- the dispatch mode

  /** The line is the tag and the name of the mode, and nothing else. */
  predicate Declares(line: string, mode: Mode) {
    match mode
    case Emit => Words(line) == ["@mode", "emit"]
    case Waterfall => Words(line) == ["@mode", "waterfall"]
    case Parallel => Words(line) == ["@mode", "parallel"]
    case Serial => Words(line) == ["@mode", "serial"]
    case Bail => Words(line) == ["@mode", "bail"]
  }

  lemma ModeMeans(line: string, mode: Mode)
    ensures ModeOf(line) == Some(mode) <==> Declares(line, mode)
  {
    var words := Words(line);
    if |words| == 2 {
      assert words == [words[0], words[1]];
    }
  }

  /** The mode is the last one that a line declares. */
  ghost predicate ModeIs(lines: seq<string>, mode: Option<Mode>) {
    if mode.None? then forall i, m | 0 <= i < |lines| :: !Declares(lines[i], m)
    else exists i | 0 <= i < |lines| ::
      Declares(lines[i], mode.value) && forall j, m | i < j < |lines| :: !Declares(lines[j], m)
  }

  /** The tag at the start of a line, at its end or before something that is neither a letter, a digit nor `_`. */
  predicate ModeTag(line: string) {
    exists k: nat :: k <= |line| && ModeTagAt(line, k)
  }

  /** The code of a digit, a letter or the underscore. */
  predicate WordCode(code: int) {
    48 <= code <= 57 || 65 <= code <= 90 || code == 95 || 97 <= code <= 122
  }

  /** The tag stands at `k`, behind white space. */
  predicate ModeTagAt(line: string, k: nat) {
    && k + 5 <= |line| && (forall j | 0 <= j < k :: IsSpace(line[j])) && line[k..k + 5] == "@mode"
    && (k + 5 < |line| ==> !WordCode(line[k + 5] as int))
  }

  lemma {:induction false} ModeTagMeans(line: string)
    ensures IsModeTag(line) <==> ModeTag(line)
  {
    if line != [] && IsSpace(line[0]) {
      ModeTagMeans(line[1..]);
      TagBehindSpace(line);
    } else {
      TagAtStart(line);
    }
  }

  lemma {:induction false} TagBehindSpace(line: string)
    requires line != [] && IsSpace(line[0])
    ensures ModeTag(line) <==> ModeTag(line[1..])
  {
    var rest := line[1..];
    if k: nat :| k <= |line| && ModeTagAt(line, k) {
      assert line[k..k + 5][0] == '@';
      TagLater(line, k);
    }
    if k: nat :| k <= |rest| && ModeTagAt(rest, k) {
      TagEarlier(line, k);
    }
  }

  lemma {:induction false} TagAtStart(line: string)
    requires line != [] ==> !IsSpace(line[0])
    ensures IsModeTag(line) <==> ModeTag(line)
  {
    if k: nat :| k <= |line| && ModeTagAt(line, k) {
      assert k == 0 && line[0..0 + 5] == line[..5];
    }
    if IsModeTag(line) {
      assert line[0..0 + 5] == line[..5];
      assert ModeTagAt(line, 0);
    }
  }

  lemma TagEarlier(line: string, k: nat)
    requires line != [] && IsSpace(line[0]) && ModeTagAt(line[1..], k)
    ensures ModeTagAt(line, k + 1)
  {
    SliceOfTail(line, 1, k, k + 5);
    forall j | 0 <= j < k + 1 ensures IsSpace(line[j]) {
      assert j > 0 ==> line[j] == line[1..][j - 1];
    }
  }

  lemma TagLater(line: string, k: nat)
    requires ModeTagAt(line, k) && k > 0
    ensures ModeTagAt(line[1..], k - 1)
  {
    SliceOfTail(line, 1, k - 1, k + 4);
    assert forall j | 0 <= j < k - 1 :: line[1..][j] == line[j + 1];
  }

  lemma ModesMean(lines: seq<string>, mode: Option<Mode>, hasMode: bool)
    requires ModesRead(lines, mode, hasMode)
    ensures ModeIs(lines, mode)
    ensures hasMode <==> exists i :: 0 <= i < |lines| && ModeTag(lines[i])
  {
    forall i, m | 0 <= i < |lines| ensures ModeOf(lines[i]) == Some(m) <==> Declares(lines[i], m) {
      ModeMeans(lines[i], m);
    }
    forall i | 0 <= i < |lines| ensures IsModeTag(lines[i]) <==> ModeTag(lines[i]) {
      ModeTagMeans(lines[i]);
    }
  }

  /** Read the comment line by line. */
  method ParseJsDoc(lines: seq<string>)
    returns (text: string, mode: Option<Mode>, hasMode: bool, ghost n: nat, ghost sections: seq<Chunk>,
             ghost blanks: seq<string>)
    ensures UpToTag(lines, n) && Page(lines[..n], sections, blanks) && text == PageText(sections)
    ensures ModeIs(lines, mode)
    ensures hasMode <==> exists i :: 0 <= i < |lines| && ModeTag(lines[i])
  {
    mode, hasMode := None, false;
    var inTags := false;
    var reader := new ProseReader();
    ghost var before, open, done := [], EMPTY, [];
    for k := 0 to |lines|
      invariant done == lines[..k] && ModesRead(done, mode, hasMode)
      invariant fresh(reader) && Written(reader.State(), before, open)
      invariant Read(done, inTags, before, open)
    {
      mode, hasMode := ReadMode(lines[k], mode, hasMode, done);
      inTags, before, open := ReadLine(reader, lines[k], inTags, done, before, open);
      PrefixOn(lines, k);
      done := done + [lines[k]];
    }
    PrefixAll(lines);
    reader.FlushPara(before, open);
    ReadDone(done, inTags, before, open, reader.State());
    text := Join(reader.blocks, "\n\n");
    n, sections, blanks := PageRead(lines);
    ModesMean(lines, mode, hasMode);
  }

  /** What a line says about the mode. */
  method ReadMode(line: string, mode0: Option<Mode>, hasMode0: bool, ghost done: seq<string>)
    returns (mode: Option<Mode>, hasMode: bool)
    requires ModesRead(done, mode0, hasMode0)
    ensures ModesRead(done + [line], mode, hasMode)
  {
    ModeSnoc(done, line, mode0, hasMode0);
    mode := mode0;
    if ModeOf(line).Some? {
      ModeLineIsTag(line);
      mode := ModeOf(line);
    }
    hasMode := hasMode0 || IsModeTag(line);
  }

  /** What a line says to the prose. */
  method ReadLine(reader: ProseReader, line: string, inTags0: bool, ghost done: seq<string>,
                  ghost before0: seq<Chunk>, ghost open0: Chunk)
    returns (inTags: bool, ghost before: seq<Chunk>, ghost open: Chunk)
    requires Written(reader.State(), before0, open0) && Read(done, inTags0, before0, open0)
    modifies reader
    ensures Written(reader.State(), before, open) && Read(done + [line], inTags, before, open)
  {
    inTags, before, open := inTags0, before0, open0;
    if IsTag(line) {
      ReadTag(done, line, inTags, before, open);
      reader.FlushPara(before, open);
      before, open, inTags := before + [open], EMPTY, true;
    } else if inTags {
      ReadAfterTag(done, line, before, open);
    } else {
      ReadProse(done, line, before, open);
      if Blank(line) {
        reader.FlushPara(before, open);
        before, open := before + [open], EMPTY;
      } else {
        reader.Take(line, before, open);
        open := Extend(open, line);
      }
    }
  }
}
