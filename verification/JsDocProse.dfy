/** The description in a documentation comment: paragraphs and bullet lists up to the first block tag. */
module JsDocProse {
  import opened Text
  import opened Options

  datatype Mode = Emit | Waterfall | Parallel | Serial | Bail

  // ----- kinds of lines

  predicate IsTag(line: string) {
    var t := TrimStart(line);
    t != [] && t[0] == '@'
  }

  predicate IsBullet(line: string) {
    |line| > 1 && line[0] == '-' && IsSpace(line[1])
  }

  predicate IsWordChar(c: char) {
    'a' <= c <= 'z' || 'A' <= c <= 'Z' || '0' <= c <= '9' || c == '_'
  }

  function ModeNamed(name: string): Option<Mode> {
    if name == "emit" then Some(Emit)
    else if name == "waterfall" then Some(Waterfall)
    else if name == "parallel" then Some(Parallel)
    else if name == "serial" then Some(Serial)
    else if name == "bail" then Some(Bail)
    else None
  }

  /** The mode a line declares: the tag, one of the five names, and nothing else. */
  function ModeOf(line: string): Option<Mode> {
    var words := Words(line);
    if |words| == 2 && words[0] == "@mode" then ModeNamed(words[1]) else None
  }

  /** The tag as such, whatever follows it. */
  predicate IsModeTag(line: string) {
    var t := TrimStart(line);
    |t| >= 5 && t[..5] == "@mode" && (|t| == 5 || !IsWordChar(t[5]))
  }

  lemma ModeLineIsTag(line: string)
    requires ModeOf(line).Some?
    ensures IsModeTag(line) && IsTag(line)
  {
    var t := TrimStart(line);
    WordsTrimmedStart(line);
    FirstWord(t);
  }

  lemma {:induction false} FirstWord(s: string)
    requires s != [] && !IsSpace(s[0])
    ensures
      var w := Words(s)[0];
      |w| <= |s| && s[..|w|] == w && (|w| < |s| ==> IsSpace(s[|w|]))
  {
    if |s| > 1 && !IsSpace(s[1]) {
      FirstWord(s[1..]);
      var w := Words(s[1..])[0];
      assert s[..1 + |w|] == [s[0]] + s[1..][..|w|];
    }
  }

  /** The lines before the first block tag. */
  function Prose(lines: seq<string>): seq<string> {
    if lines == [] || IsTag(lines[0]) then [] else [lines[0]] + Prose(lines[1..])
  }

  // ----- what the prose renders as

  /** Lines with no blank line between them: an introduction, then bullet items. */
  datatype Chunk = Chunk(intro: seq<string>, items: seq<seq<string>>)

  const EMPTY := Chunk([], [])

  /** A bullet opens an item, which takes every later line of the chunk. */
  function Extend(c: Chunk, line: string): Chunk {
    var n := |c.items|;
    if IsBullet(line) then c.(items := c.items + [[line]])
    else if n > 0 then c.(items := c.items[..n - 1] + [c.items[n - 1] + [line]])
    else c.(intro := c.intro + [line])
  }

  function Chunks(lines: seq<string>): (r: seq<Chunk>)
    ensures r != []
  {
    if lines == [] then [EMPTY]
    else
      var before, line := Chunks(lines[..|lines| - 1]), lines[|lines| - 1];
      if Blank(line) then before + [EMPTY] else before[..|before| - 1] + [Extend(before[|before| - 1], line)]
  }

  /** The parts on one line, with single blanks. */
  function Tidy(parts: seq<string>): string {
    Trim(Collapse(Join(parts, " ")))
  }

  function TidyAll(items: seq<seq<string>>): seq<string> {
    seq(|items|, i requires 0 <= i < |items| => Tidy(items[i]))
  }

  /** One block for the introduction, and one for the list, with an item a line. */
  function Blocks(c: Chunk): seq<string> {
    (if c.intro == [] then [] else [Tidy(c.intro)]) +
    (if c.items == [] then [] else [Join(TidyAll(c.items), "\n")])
  }

  function Rendered(chunks: seq<Chunk>): seq<string> {
    if chunks == [] then [] else Rendered(chunks[..|chunks| - 1]) + Blocks(chunks[|chunks| - 1])
  }

  // ----- words are kept

  lemma TidyWords(parts: seq<string>)
    ensures Words(Tidy(parts)) == WordsOf(parts)
  {
    var s := Join(parts, " ");
    WordsTrimmedEnd(TrimStart(Collapse(s)));
    WordsTrimmedStart(Collapse(s));
    WordsCollapsed(s);
    WordsJoined(parts, " ");
  }

  /** An item and a paragraph take one line each. */
  lemma TidyIsOneLine(parts: seq<string>)
    ensures '\n' !in Tidy(parts)
  {
    var s := Collapse(Join(parts, " "));
    assert IsSpace('\n');
    assert '\n' !in s;
    TrimmedChars(s, '\n');
  }

  lemma TrimmedChars(s: string, c: char)
    requires c !in s
    ensures c !in Trim(s)
  {
    TrimStartChars(s, c);
    TrimEndChars(TrimStart(s), c);
  }

  lemma {:induction false} TrimStartChars(s: string, c: char)
    requires c !in s
    ensures c !in TrimStart(s)
  {
    if s != [] && IsSpace(s[0]) {
      TrimStartChars(s[1..], c);
    }
  }

  lemma {:induction false} TrimEndChars(s: string, c: char)
    requires c !in s
    ensures c !in TrimEnd(s)
  {
    if s != [] && IsSpace(s[|s| - 1]) {
      TrimEndChars(s[..|s| - 1], c);
    }
  }

  function ItemWords(items: seq<seq<string>>): seq<string> {
    if items == [] then [] else ItemWords(items[..|items| - 1]) + WordsOf(items[|items| - 1])
  }

  function WordsIn(c: Chunk): seq<string> {
    WordsOf(c.intro) + ItemWords(c.items)
  }

  function ChunkWords(chunks: seq<Chunk>): seq<string> {
    if chunks == [] then []
    else ChunkWords(chunks[..|chunks| - 1]) + WordsIn(chunks[|chunks| - 1])
  }

  lemma {:induction false} TidyAllWords(items: seq<seq<string>>)
    ensures WordsOf(TidyAll(items)) == ItemWords(items)
  {
    if items != [] {
      var n := |items| - 1;
      assert TidyAll(items)[..n] == TidyAll(items[..n]);
      TidyAllWords(items[..n]);
      TidyWords(items[n]);
    }
  }

  lemma OneWord(s: string)
    ensures WordsOf([s]) == Words(s)
  {
    assert [s][..0] == [];
  }

  lemma BlockWords(c: Chunk)
    ensures WordsOf(Blocks(c)) == WordsIn(c)
  {
    var intro := if c.intro == [] then [] else [Tidy(c.intro)];
    var list := if c.items == [] then [] else [Join(TidyAll(c.items), "\n")];
    WordsOfConcat(intro, list);
    TidyWords(c.intro);
    OneWord(Tidy(c.intro));
    WordsJoined(TidyAll(c.items), "\n");
    TidyAllWords(c.items);
    OneWord(Join(TidyAll(c.items), "\n"));
  }

  lemma {:induction false} RenderedWords(chunks: seq<Chunk>)
    ensures WordsOf(Rendered(chunks)) == ChunkWords(chunks)
  {
    if chunks != [] {
      var init, last := chunks[..|chunks| - 1], chunks[|chunks| - 1];
      RenderedWords(init);
      BlockWords(last);
      WordsOfConcat(Rendered(init), Blocks(last));
    }
  }

  lemma ItemWordsSnoc(items: seq<seq<string>>, item: seq<string>)
    ensures ItemWords(items + [item]) == ItemWords(items) + WordsOf(item)
  {
    assert (items + [item])[..|items|] == items;
  }

  lemma ChunkWordsSnoc(chunks: seq<Chunk>, c: Chunk)
    ensures ChunkWords(chunks + [c]) == ChunkWords(chunks) + WordsIn(c)
  {
    assert (chunks + [c])[..|chunks|] == chunks;
  }

  lemma ExtendList(c: Chunk, line: string)
    requires IsBullet(line) || c.items != []
    ensures WordsIn(Extend(c, line)) == WordsIn(c) + Words(line)
  {
    var n := |c.items|;
    if IsBullet(line) {
      ItemWordsSnoc(c.items, [line]);
      OneWord(line);
    } else {
      ExtendItemWords(c.items[..n - 1], c.items[n - 1], line);
      assert c.items[..n - 1] + [c.items[n - 1]] == c.items;
    }
    Associate(WordsOf(c.intro), ItemWords(c.items), Words(line));
  }

  lemma NoItems(c: Chunk)
    requires c.items == []
    ensures WordsIn(c) == WordsOf(c.intro)
  {
  }

  lemma ExtendIntroWords(intro: seq<string>, line: string)
    ensures WordsOf(intro + [line]) == WordsOf(intro) + Words(line)
  {
    assert (intro + [line])[..|intro|] == intro;
  }

  lemma Associate(a: seq<string>, b: seq<string>, c: seq<string>)
    ensures (a + b) + c == a + (b + c)
  {
  }

  lemma ExtendItemWords(init: seq<seq<string>>, item: seq<string>, line: string)
    ensures ItemWords(init + [item + [line]]) == ItemWords(init + [item]) + Words(line)
  {
    OneWord(line);
    ItemWordsSnoc(init, item);
    ItemWordsSnoc(init, item + [line]);
    WordsOfConcat(item, [line]);
    Associate(ItemWords(init), WordsOf(item), Words(line));
  }

  lemma ExtendLastWords(init: seq<Chunk>, last: Chunk, line: string)
    ensures ChunkWords(init + [Extend(last, line)]) == ChunkWords(init + [last]) + Words(line)
  {
    ChunkWordsSnoc(init, last);
    ChunkWordsSnoc(init, Extend(last, line));
    if IsBullet(line) || last.items != [] {
      ExtendList(last, line);
    } else {
      ExtendIntroWords(last.intro, line);
      NoItems(last);
      NoItems(Extend(last, line));
    }
    Associate(ChunkWords(init), WordsIn(last), Words(line));
  }

  lemma {:induction false} ChunksWords(lines: seq<string>)
    ensures ChunkWords(Chunks(lines)) == WordsOf(lines)
  {
    if lines == [] {
      ChunkWordsSnoc([], EMPTY);
    } else {
      var line, before := lines[|lines| - 1], Chunks(lines[..|lines| - 1]);
      ChunksWords(lines[..|lines| - 1]);
      if Blank(line) {
        BlankHasNoWords(line);
        ChunkWordsSnoc(before, EMPTY);
      } else {
        ExtendLastWords(before[..|before| - 1], before[|before| - 1], line);
        assert before[..|before| - 1] + [before[|before| - 1]] == before;
      }
    }
  }

  /** Nothing before the first tag is lost, repeated or reordered, and nothing after it is taken in. */
  lemma WordsConserved(lines: seq<string>)
    ensures Words(Join(Rendered(Chunks(Prose(lines))), "\n\n")) == WordsOf(Prose(lines))
  {
    WordsJoined(Rendered(Chunks(Prose(lines))), "\n\n");
    RenderedWords(Chunks(Prose(lines)));
    ChunksWords(Prose(lines));
  }

  // ----- reading the lines

  /** The mode of the last line that declares one. */
  ghost predicate LastMode(lines: seq<string>, mode: Option<Mode>) {
    if mode.None? then forall i | 0 <= i < |lines| :: ModeOf(lines[i]).None?
    else exists i | 0 <= i < |lines| ::
      ModeOf(lines[i]) == mode && forall j | i < j < |lines| :: ModeOf(lines[j]).None?
  }

  /** The mode is the last one declared, and a tag was seen at all or not. */
  ghost predicate ModesRead(lines: seq<string>, mode: Option<Mode>, hasMode: bool) {
    && LastMode(lines, mode)
    && (hasMode <==> exists i | 0 <= i < |lines| :: IsModeTag(lines[i]))
  }

  lemma {:induction false} ProseSnoc(lines: seq<string>, line: string)
    ensures Prose(lines + [line]) == if Prose(lines) == lines && !IsTag(line) then lines + [line] else Prose(lines)
  {
    if lines != [] {
      assert (lines + [line])[1..] == lines[1..] + [line];
      ProseSnoc(lines[1..], line);
      assert lines == [lines[0]] + lines[1..];
    } else {
      assert lines + [line] == [line];
    }
  }

  lemma RenderedSnoc(chunks: seq<Chunk>, c: Chunk)
    ensures Rendered(chunks + [c]) == Rendered(chunks) + Blocks(c)
  {
    assert (chunks + [c])[..|chunks|] == chunks;
  }

  /** What is written out, and what is pending. */
  datatype Pending = Pending(blocks: seq<string>, para: seq<string>, list: seq<string>, item: seq<string>)

  function ItemFlushed(p: Pending): Pending {
    p.(list := p.list + if p.item == [] then [] else [Tidy(p.item)], item := [])
  }

  function ListFlushed(p: Pending): Pending {
    var q := ItemFlushed(p);
    q.(blocks := q.blocks + if q.list == [] then [] else [Join(q.list, "\n")], list := [])
  }

  function ParaFlushed(p: Pending): Pending {
    p.(blocks := p.blocks + if p.para == [] then [] else [Tidy(p.para)], para := [])
  }

  function Taken(p: Pending, line: string): Pending {
    if IsBullet(line) then
      var q := ParaFlushed(ItemFlushed(p));
      q.(item := q.item + [line])
    else if p.item != [] then p.(item := p.item + [line])
    else p.(para := p.para + [line])
  }

  /**
   * How far the finished chunks and the open one have been written out. A paragraph and a list
   * are never pending together: the introduction is written out when the first item opens.
   */
  ghost predicate Written(p: Pending, before: seq<Chunk>, open: Chunk) {
    var n := |open.items|;
    if n == 0 then p == Pending(Rendered(before), open.intro, [], [])
    else
      var intro := if open.intro == [] then [] else [Tidy(open.intro)];
      && open.items[n - 1] != []
      && p == Pending(Rendered(before) + intro, [], TidyAll(open.items[..n - 1]), open.items[n - 1])
  }

  lemma TidyAllSnoc(init: seq<seq<string>>, last: seq<string>)
    ensures TidyAll(init + [last]) == TidyAll(init) + [Tidy(last)]
  {
  }

  /** Flushing the last item completes the list. */
  lemma ItemsWritten(p: Pending, before: seq<Chunk>, open: Chunk)
    requires Written(p, before, open)
    ensures ItemFlushed(p).list == TidyAll(open.items)
  {
    if open.items != [] {
      var n := |open.items| - 1;
      TidyAllSnoc(open.items[..n], open.items[n]);
      assert open.items[..n] + [open.items[n]] == open.items;
    }
  }

  lemma FlushWritten(p: Pending, before: seq<Chunk>, open: Chunk)
    requires Written(p, before, open)
    ensures Written(ParaFlushed(ListFlushed(p)), before + [open], EMPTY)
  {
    ItemsWritten(p, before, open);
    RenderedSnoc(before, open);
  }

  lemma TakeWritten(p: Pending, before: seq<Chunk>, open: Chunk, line: string)
    requires Written(p, before, open)
    ensures Written(Taken(p, line), before, Extend(open, line))
  {
    var n, e := |open.items|, Extend(open, line);
    if IsBullet(line) {
      ItemsWritten(p, before, open);
      assert e.items[..n] == open.items;
    } else if n > 0 {
      assert e.items[..n - 1] == open.items[..n - 1];
    }
  }

  class ProseReader {
    var blocks: seq<string>
    var para: seq<string>
    var list: seq<string>
    var item: seq<string>

    ghost function State(): Pending
      reads this
    {
      Pending(blocks, para, list, item)
    }

    constructor ()
      ensures State() == Pending([], [], [], [])
    {
      blocks, para, list, item := [], [], [], [];
    }

    method FlushItem()
      modifies this
      ensures State() == ItemFlushed(old(State()))
    {
      if item != [] {
        list := list + [Tidy(item)];
      }
      item := [];
    }

    method FlushList()
      modifies this
      ensures State() == ListFlushed(old(State()))
    {
      FlushItem();
      if list != [] {
        blocks := blocks + [Join(list, "\n")];
      }
      list := [];
    }

    /** Write out everything that is pending; the next line opens a new chunk. */
    method FlushPara(ghost before: seq<Chunk>, ghost open: Chunk)
      requires Written(State(), before, open)
      modifies this
      ensures Written(State(), before + [open], EMPTY)
    {
      FlushWritten(State(), before, open);
      FlushList();
      if para != [] {
        blocks := blocks + [Tidy(para)];
      }
      para := [];
    }

    /** Take in a line of prose that is not blank. */
    method Take(line: string, ghost before: seq<Chunk>, ghost open: Chunk)
      requires Written(State(), before, open)
      modifies this
      ensures Written(State(), before, Extend(open, line))
    {
      TakeWritten(State(), before, open, line);
      if IsBullet(line) {
        FlushItem();
        if para != [] {
          blocks := blocks + [Tidy(para)];
          para := [];
        }
        item := item + [line];
      } else if item != [] {
        item := item + [line];
      } else {
        para := para + [line];
      }
    }
  }

  /** The chunks so far: all of them while in prose, and nothing pending once a tag was seen. */
  ghost predicate Read(lines: seq<string>, inTags: bool, before: seq<Chunk>, open: Chunk) {
    && (inTags <==> Prose(lines) != lines)
    && if inTags then open == EMPTY && Rendered(before) == Rendered(Chunks(Prose(lines)))
       else before + [open] == Chunks(lines)
  }

  lemma ReadTag(lines: seq<string>, line: string, inTags: bool, before: seq<Chunk>, open: Chunk)
    requires Read(lines, inTags, before, open) && IsTag(line)
    ensures Read(lines + [line], true, before + [open], EMPTY)
  {
    ProseSnoc(lines, line);
    RenderedSnoc(before, open);
    ProseShorter(lines);
  }

  lemma {:induction false} ProseShorter(lines: seq<string>)
    ensures |Prose(lines)| <= |lines|
  {
    if lines != [] {
      ProseShorter(lines[1..]);
    }
  }

  lemma ReadAfterTag(lines: seq<string>, line: string, before: seq<Chunk>, open: Chunk)
    requires Read(lines, true, before, open)
    ensures Read(lines + [line], true, before, open)
  {
    ProseSnoc(lines, line);
    ProseShorter(lines);
  }

  lemma ReadProse(lines: seq<string>, line: string, before: seq<Chunk>, open: Chunk)
    requires Read(lines, false, before, open) && !IsTag(line)
    ensures
      if Blank(line) then Read(lines + [line], false, before + [open], EMPTY)
      else Read(lines + [line], false, before, Extend(open, line))
  {
    ProseSnoc(lines, line);
    assert (lines + [line])[..|lines|] == lines;
    var chunks := before + [open];
    assert chunks[..|chunks| - 1] == before;
  }

  /** Everything is written out at the end. */
  lemma ReadDone(lines: seq<string>, inTags: bool, before: seq<Chunk>, open: Chunk, p: Pending)
    requires Read(lines, inTags, before, open) && Written(p, before + [open], EMPTY)
    ensures p.blocks == Rendered(Chunks(Prose(lines)))
  {
    RenderedSnoc(before, open);
  }

  lemma ModeSnoc(lines: seq<string>, line: string, mode: Option<Mode>, hasMode: bool)
    requires ModesRead(lines, mode, hasMode)
    ensures ModesRead(lines + [line], if ModeOf(line).Some? then ModeOf(line) else mode, hasMode || IsModeTag(line))
  {
    var all := lines + [line];
    assert all[|lines|] == line && forall i | 0 <= i < |lines| :: all[i] == lines[i];
    if ModeOf(line).None? && mode.Some? {
      var i :| 0 <= i < |lines| && ModeOf(lines[i]) == mode && forall j | i < j < |lines| :: ModeOf(lines[j]).None?;
      assert ModeOf(all[i]) == mode && forall j | i < j < |all| :: ModeOf(all[j]).None?;
    }
  }
}
