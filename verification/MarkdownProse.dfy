/** Which lines of a Markdown text are prose: neither code nor swallowed by HTML comments. */
module MarkdownProse {
  import opened Text
  import opened Sorting

  /** The offsets from `start` up to, and without, `end`. */
  datatype Range = Range(start: nat, end: nat)

  /** An HTML node of the parsed text: where it starts, and its own text. */
  datatype HtmlNode = HtmlNode(offset: nat, value: string)

  /** A code block's first and last line. */
  datatype CodeNode = CodeNode(first: nat, last: nat)

  datatype ProseLine = ProseLine(index: nat, raw: string)

  const OPEN := "<!--"
  const CLOSE := "-->"

  // ----- the comments of an HTML node

  predicate Occurs(s: string, pattern: string, i: nat) {
    i + |pattern| <= |s| && s[i..i + |pattern|] == pattern
  }

  /** The first occurrence at or after `from`; the length of `s` if there is none. */
  function Find(s: string, pattern: string, from: nat): (i: nat)
    requires from <= |s| && pattern != []
    ensures from <= i <= |s| && forall j | from <= j < i :: !Occurs(s, pattern, j)
    ensures i < |s| ==> Occurs(s, pattern, i)
    decreases |s| - from
  {
    if from == |s| || Occurs(s, pattern, from) then from else Find(s, pattern, from + 1)
  }

  /** Where a comment opened at `start` ends: after its first close, or with the text. */
  function CommentEnd(s: string, start: nat): (end: nat)
    requires Occurs(s, OPEN, start)
    ensures start < end <= |s|
  {
    var close := Find(s, CLOSE, start + |OPEN|);
    if close == |s| then |s| else close + |CLOSE|
  }

  function CommentsFrom(s: string, cursor: nat): seq<Range>
    requires cursor <= |s|
    decreases |s| - cursor
  {
    var start := Find(s, OPEN, cursor);
    if start == |s| then []
    else
      var end := CommentEnd(s, start);
      [Range(start, end)] + CommentsFrom(s, end)
  }

  /** Where the scan stands before comment `i`. */
  function ScanFrom(ranges: seq<Range>, cursor: nat, i: nat): nat
    requires i <= |ranges|
  {
    if i == 0 then cursor else ranges[i - 1].end
  }

  /** The comment is the first to open at or after `from`. */
  ghost predicate FirstFrom(s: string, from: nat, c: Range) {
    && from <= c.start && Occurs(s, OPEN, c.start) && c.end == CommentEnd(s, c.start)
    && forall k | from <= k < c.start :: !Occurs(s, OPEN, k)
  }

  /** Every comment opens at the first chance after the one before it. */
  lemma {:induction false} CommentsAreFirst(s: string, cursor: nat, i: nat)
    requires cursor <= |s| && i < |CommentsFrom(s, cursor)|
    ensures FirstFrom(s, ScanFrom(CommentsFrom(s, cursor), cursor, i), CommentsFrom(s, cursor)[i])
    decreases i
  {
    var ranges := CommentsFrom(s, cursor);
    if i > 0 {
      assert ranges[1..] == CommentsFrom(s, ranges[0].end);
      CommentsAreFirst(s, ranges[0].end, i - 1);
    }
  }

  /** No comment opens after the last. */
  lemma {:induction false} NoCommentAfterLast(s: string, cursor: nat, k: nat)
    requires cursor <= |s| && ScanFrom(CommentsFrom(s, cursor), cursor, |CommentsFrom(s, cursor)|) <= k < |s|
    ensures !Occurs(s, OPEN, k)
    decreases |s| - cursor
  {
    var ranges := CommentsFrom(s, cursor);
    if ranges != [] {
      assert ranges[1..] == CommentsFrom(s, ranges[0].end);
      NoCommentAfterLast(s, ranges[0].end, k);
    }
  }

  function Shifted(ranges: seq<Range>, shift: nat): seq<Range>
  {
    seq(|ranges|, i requires 0 <= i < |ranges| => Range(ranges[i].start + shift, ranges[i].end + shift))
  }

  /** The comments of all nodes, as offsets in the whole text. */
  function AllComments(nodes: seq<HtmlNode>): seq<Range> {
    if nodes == [] then []
    else
      var last := nodes[|nodes| - 1];
      AllComments(nodes[..|nodes| - 1]) + Shifted(CommentsFrom(last.value, 0), last.offset)
  }

  /** The nodes are pieces of the text. */
  predicate ArePieces(source: string, nodes: seq<HtmlNode>) {
    forall i | 0 <= i < |nodes| :: Occurs(source, nodes[i].value, nodes[i].offset)
  }

  /**
   * In the text the comment starts with an opening inside the node, and ends behind the first close
   * after it that the node holds, or with the node if it holds none.
   */
  ghost predicate IsCommentOf(source: string, node: HtmlNode, c: Range) {
    var end := node.offset + |node.value|;
    && node.offset <= c.start && c.start + |OPEN| <= c.end <= end <= |source| && Occurs(source, OPEN, c.start)
    && (forall k | c.start + |OPEN| <= k < c.end - |CLOSE| :: !Occurs(source, CLOSE, k))
    && (|| (c.start + |OPEN| + |CLOSE| <= c.end && Occurs(source, CLOSE, c.end - |CLOSE|))
        || (c.end == end && forall k | c.start + |OPEN| <= k <= end - |CLOSE| :: !Occurs(source, CLOSE, k)))
  }

  lemma OccursInPiece(source: string, node: HtmlNode, pattern: string, i: nat)
    requires Occurs(source, node.value, node.offset) && i + |pattern| <= |node.value|
    ensures Occurs(node.value, pattern, i) <==> Occurs(source, pattern, node.offset + i)
  {
    var at, size := node.offset, |node.value|;
    SliceOfSlice(source, at, at + size, i, i + |pattern|);
    assert source[at..at + size] == node.value;
    assert source[at + i..at + (i + |pattern|)] == source[at + i..at + i + |pattern|];
  }

  lemma SliceOfSlice(s: string, from: nat, to: nat, i: nat, j: nat)
    requires from <= to <= |s| && i <= j <= to - from
    ensures s[from..to][i..j] == s[from + i..from + j]
  {
    var a, b := s[from..to][i..j], s[from + i..from + j];
    assert |a| == |b| && forall k | 0 <= k < |a| :: a[k] == b[k];
  }

  /** A comment of a node's own text, moved to where the node stands in the source. */
  lemma CommentMoved(source: string, node: HtmlNode, r: Range)
    requires Occurs(source, node.value, node.offset)
    requires Occurs(node.value, OPEN, r.start) && r.end == CommentEnd(node.value, r.start)
    ensures IsCommentOf(source, node, Range(r.start + node.offset, r.end + node.offset))
  {
    var s, c := node.value, Range(r.start + node.offset, r.end + node.offset);
    var close := Find(s, CLOSE, r.start + |OPEN|);
    OccursInPiece(source, node, OPEN, r.start);
    NoCloseMoved(source, node, r.start + |OPEN|);
    if close < |s| {
      OccursInPiece(source, node, CLOSE, close);
    }
  }

  /** Up to the first close that the node holds from there on, the text holds none either. */
  lemma NoCloseMoved(source: string, node: HtmlNode, from: nat)
    requires Occurs(source, node.value, node.offset) && from <= |node.value|
    ensures
      var close := Find(node.value, CLOSE, from);
      forall k: nat | node.offset + from <= k && k + |CLOSE| <= node.offset + |node.value| && k < node.offset + close ::
        !Occurs(source, CLOSE, k)
  {
    var close := Find(node.value, CLOSE, from);
    forall k: nat | node.offset + from <= k && k + |CLOSE| <= node.offset + |node.value| && k < node.offset + close
      ensures !Occurs(source, CLOSE, k)
    {
      OccursInPiece(source, node, CLOSE, k - node.offset);
    }
  }

  /** A comment of a node's own text is closed, or not, as its end says. */
  lemma CommentCloses(s: string, i: nat)
    requires i < |CommentsFrom(s, 0)|
    ensures
      var r := CommentsFrom(s, 0)[i];
      Occurs(s, OPEN, r.start) && r.end == CommentEnd(s, r.start)
  {
    CommentsAreFirst(s, 0, i);
  }

  /** Every range is a comment of some node's text, moved. */
  lemma {:induction false} CommentFrom(nodes: seq<HtmlNode>, c: Range) returns (node: HtmlNode, r: Range)
    requires c in AllComments(nodes)
    ensures node in nodes && c == Range(r.start + node.offset, r.end + node.offset)
    ensures Occurs(node.value, OPEN, r.start) && r.end == CommentEnd(node.value, r.start)
  {
    var n := |nodes| - 1;
    if c in AllComments(nodes[..n]) {
      node, r := CommentFrom(nodes[..n], c);
    } else {
      node := nodes[n];
      var ranges := CommentsFrom(node.value, 0);
      var i :| 0 <= i < |ranges| && Shifted(ranges, node.offset)[i] == c;
      r := ranges[i];
      CommentCloses(node.value, i);
    }
  }

  /** Every range is a comment of the text, in one of its HTML nodes. */
  lemma CommentsInSource(source: string, nodes: seq<HtmlNode>, c: Range)
    requires ArePieces(source, nodes) && c in AllComments(nodes)
    ensures exists node :: node in nodes && IsCommentOf(source, node, c)
  {
    var node, r := CommentFrom(nodes, c);
    CommentMoved(source, node, r);
  }

  method AddComments(node: HtmlNode, before: seq<Range>) returns (comments: seq<Range>)
    ensures comments == before + Shifted(CommentsFrom(node.value, 0), node.offset)
  {
    comments := before;
    var cursor := 0;
    ghost var left := CommentsFrom(node.value, 0);
    ghost var all := before + Shifted(left, node.offset);
    while true
      invariant cursor <= |node.value| && left == CommentsFrom(node.value, cursor)
      invariant comments + Shifted(left, node.offset) == all
      decreases |node.value| - cursor
    {
      var start := Find(node.value, OPEN, cursor);
      if start == |node.value| {
        break;
      }
      var end := CommentEnd(node.value, start);
      var comment := Range(node.offset + start, node.offset + end);
      ShiftedCons(comments, left, node.offset, comment);
      comments := comments + [comment];
      cursor := end;
      left := left[1..];
    }
  }

  method CollectComments(nodes: seq<HtmlNode>) returns (comments: seq<Range>)
    ensures comments == AllComments(nodes)
  {
    comments := [];
    for n := 0 to |nodes|
      invariant comments == AllComments(nodes[..n])
    {
      comments := AddComments(nodes[n], comments);
      assert nodes[..n + 1][..n] == nodes[..n];
    }
    assert nodes[..|nodes|] == nodes;
  }

  lemma ShiftedCons(before: seq<Range>, left: seq<Range>, shift: nat, first: Range)
    requires left != [] && first == Range(left[0].start + shift, left[0].end + shift)
    ensures (before + [first]) + Shifted(left[1..], shift) == before + Shifted(left, shift)
  {
  }

  // ----- the comments on one line

  predicate Inside(c: Range, p: nat) {
    c.start <= p < c.end
  }

  ghost predicate InAny(ranges: seq<Range>, p: nat) {
    exists c | c in ranges :: Inside(c, p)
  }

  /** Some position of the line, or the end of an empty line, lies in the comment. */
  ghost predicate Touches(c: Range, from: nat, size: nat) {
    exists p: nat {:trigger Inside(c, p)} :: Inside(c, p) && (from <= p < from + size || p == from == from + size)
  }

  function Max(a: nat, b: nat): nat {
    if a < b then b else a
  }

  function Min(a: nat, b: nat): nat {
    if a < b then a else b
  }

  /** What of the comment is on the line: a column range, or the fact that it covers an empty line. */
  function Clip(c: Range, from: nat, size: nat): (r: seq<Range>)
    ensures r == [] || (r[0].start <= r[0].end <= size && r == [r[0]])
  {
    var first, end := Max(c.start, from), Min(c.end, from + size);
    if first < end || (size == 0 && c.start <= from < c.end) then [Range(first - from, end - from)] else []
  }

  lemma ClipTouches(c: Range, from: nat, size: nat)
    ensures Clip(c, from, size) != [] <==> Touches(c, from, size)
    ensures forall k: nat :: InAny(Clip(c, from, size), k) <==> k < size && Inside(c, from + k)
  {
    var clip := Clip(c, from, size);
    if clip != [] {
      assert Inside(c, Max(c.start, from));
      assert clip[0] in clip;
    }
  }

  function LineRanges(comments: seq<Range>, from: nat, size: nat): seq<Range> {
    if comments == [] then []
    else LineRanges(comments[..|comments| - 1], from, size) + Clip(comments[|comments| - 1], from, size)
  }

  lemma InAnyConcat(a: seq<Range>, b: seq<Range>, k: nat)
    ensures InAny(a + b, k) <==> InAny(a, k) || InAny(b, k)
  {
    if c :| c in a && Inside(c, k) {
      assert c in a + b;
    }
    if c :| c in b && Inside(c, k) {
      assert c in a + b;
    }
  }

  /** The line's column ranges say which comments touch it and which of its positions they cover. */
  lemma {:induction false} LineRangesCover(comments: seq<Range>, from: nat, size: nat)
    ensures LineRanges(comments, from, size) != [] <==> exists c | c in comments :: Touches(c, from, size)
    ensures forall k: nat :: InAny(LineRanges(comments, from, size), k) <==> k < size && InAny(comments, from + k)
    ensures forall r | r in LineRanges(comments, from, size) :: r.start <= r.end <= size
  {
    if comments != [] {
      var init, last := comments[..|comments| - 1], comments[|comments| - 1];
      assert comments == init + [last];
      LineRangesCover(init, from, size);
      ClipTouches(last, from, size);
      forall k: nat
        ensures InAny(LineRanges(comments, from, size), k) <==> k < size && InAny(comments, from + k)
      {
        InAnyConcat(LineRanges(init, from, size), Clip(last, from, size), k);
        InAnyConcat(init, [last], from + k);
        assert InAny([last], from + k) <==> Inside(last, from + k);
      }
    }
  }

  /** The ranges of a line are found under its number; there are none if no comment touches it. */
  ghost predicate KeyedLine(ranges: map<nat, seq<Range>>, number: nat, found: seq<Range>) {
    if found == [] then number !in ranges else number in ranges && ranges[number] == found
  }

  ghost predicate KeyedAt(ranges: map<nat, seq<Range>>, lines: seq<string>, comments: seq<Range>, i: nat)
    requires i < |lines|
  {
    KeyedLine(ranges, i + 1, LineRanges(comments, LineStart(lines, i), |lines[i]|))
  }

  ghost predicate Keyed(ranges: map<nat, seq<Range>>, lines: seq<string>, comments: seq<Range>, n: nat)
    requires n <= |lines|
  {
    forall i: nat | i < n :: KeyedAt(ranges, lines, comments, i)
  }

  /** The map after the ranges of line `n` were entered, if there are any. */
  function Entered(before: map<nat, seq<Range>>, n: nat, found: seq<Range>): map<nat, seq<Range>> {
    if found == [] then before else before[n + 1 := found]
  }

  /** Entering the ranges of one line leaves the other lines as they were. */
  lemma {:induction false} KeyedElsewhere(before: map<nat, seq<Range>>, lines: seq<string>, comments: seq<Range>,
                                          n: nat, found: seq<Range>, i: nat)
    requires i < |lines| && i != n && KeyedAt(before, lines, comments, i)
    ensures KeyedAt(Entered(before, n, found), lines, comments, i)
  {
  }

  lemma {:induction false} KeyedHere(before: map<nat, seq<Range>>, lines: seq<string>, comments: seq<Range>, n: nat)
    requires n < |lines| && n + 1 !in before
    ensures KeyedAt(Entered(before, n, LineRanges(comments, LineStart(lines, n), |lines[n]|)), lines, comments, n)
  {
  }

  lemma {:induction false} KeyedBefore(before: map<nat, seq<Range>>, lines: seq<string>, comments: seq<Range>, n: nat,
                                       found: seq<Range>)
    requires n < |lines| && Keyed(before, lines, comments, n)
    ensures Keyed(Entered(before, n, found), lines, comments, n)
  {
    var now := Entered(before, n, found);
    forall i: nat | i < n ensures KeyedAt(now, lines, comments, i) {
      assert KeyedAt(before, lines, comments, i);
      KeyedElsewhere(before, lines, comments, n, found, i);
    }
  }

  lemma {:induction false} KeyedOn(before: map<nat, seq<Range>>, lines: seq<string>, comments: seq<Range>, n: nat)
    requires n < |lines| && Keyed(before, lines, comments, n) && n + 1 !in before
    ensures Keyed(Entered(before, n, LineRanges(comments, LineStart(lines, n), |lines[n]|)), lines, comments, n + 1)
  {
    var found := LineRanges(comments, LineStart(lines, n), |lines[n]|);
    KeyedHere(before, lines, comments, n);
    KeyedBefore(before, lines, comments, n, found);
    KeyedSnoc(Entered(before, n, found), lines, comments, n);
  }

  lemma {:induction false} KeyedSnoc(ranges: map<nat, seq<Range>>, lines: seq<string>, comments: seq<Range>, n: nat)
    requires n < |lines| && Keyed(ranges, lines, comments, n) && KeyedAt(ranges, lines, comments, n)
    ensures Keyed(ranges, lines, comments, n + 1)
  {
  }

  method ClipAll(comments: seq<Range>, from: nat, size: nat) returns (lineRanges: seq<Range>)
    ensures lineRanges == LineRanges(comments, from, size)
  {
    lineRanges := [];
    for c := 0 to |comments|
      invariant lineRanges == LineRanges(comments[..c], from, size)
    {
      assert comments[..c + 1][..c] == comments[..c];
      lineRanges := lineRanges + Clip(comments[c], from, size);
    }
    assert comments[..|comments|] == comments;
  }

  method HtmlCommentRanges(lines: seq<string>, nodes: seq<HtmlNode>) returns (ranges: map<nat, seq<Range>>)
    ensures Keyed(ranges, lines, AllComments(nodes), |lines|)
  {
    var comments := CollectComments(nodes);
    ranges := map[];
    var lineOffset := 0;
    for index := 0 to |lines|
      invariant lineOffset == LineStart(lines, index)
      invariant Keyed(ranges, lines, comments, index)
      invariant forall k | k in ranges :: k <= index
    {
      var size := |lines[index]|;
      var lineRanges := ClipAll(comments, lineOffset, size);
      KeyedOn(ranges, lines, comments, index);
      if lineRanges != [] {
        ranges := ranges[index + 1 := lineRanges];
      }
      lineOffset := lineOffset + size + 1;
    }
  }

  // ----- what is left of a line

  /** The part of `raw` between two columns; empty when they are the wrong way round. */
  function Slice(raw: string, from: nat, to: nat): string
    requires to <= |raw|
  {
    if from < to then raw[from..to] else []
  }

  predicate StartsBefore(a: Range, b: Range) {
    a.start <= b.start
  }

  /** Some character of the first `n` is neither white space nor in one of the ranges. */
  ghost predicate Shows(raw: string, ranges: seq<Range>, n: nat)
    requires n <= |raw|
  {
    exists k: nat :: k < n && !IsSpace(raw[k]) && !InAny(ranges, k)
  }

  /** The sweep has passed `cursor`: what it collected, and why no later range reaches back into that. */
  ghost predicate Swept(raw: string, ranges: seq<Range>, done: nat, cursor: nat, visible: string)
    requires done <= |ranges|
  {
    && cursor <= |raw|
    && (!Blank(visible) <==> Shows(raw, ranges[..done], cursor))
    && (forall k: nat, i: nat {:trigger Inside(ranges[i], k)} | k < cursor && done <= i < |ranges| &&
        Inside(ranges[i], k) :: InAny(ranges[..done], k))
    && (forall k: nat | InAny(ranges[..done], k) :: k < cursor)
  }

  lemma BlankConcat(a: string, b: string)
    ensures Blank(a + b) <==> Blank(a) && Blank(b)
  {
    if Blank(a + b) {
      assert forall i | 0 <= i < |a| :: a[i] == (a + b)[i];
      assert forall i | 0 <= i < |b| :: b[i] == (a + b)[|a| + i];
    }
  }

  lemma SliceShows(raw: string, from: nat, to: nat)
    requires to <= |raw|
    ensures !Blank(Slice(raw, from, to)) <==> exists k: nat :: from <= k < to && !IsSpace(raw[k])
  {
    var s := Slice(raw, from, to);
    if k: nat :| from <= k < to && !IsSpace(raw[k]) {
      assert s[k - from] == raw[k];
    }
  }

  /** A range is taken in: its own columns are no longer shown, those up to its start may be. */
  lemma ShowsOn(raw: string, before: seq<Range>, r: Range, cursor: nat)
    requires cursor <= |raw| && r.start <= r.end <= |raw|
    requires forall k: nat | InAny(before, k) :: k < cursor
    requires forall k: nat | k < cursor && Inside(r, k) :: InAny(before, k)
    ensures
      Shows(raw, before + [r], Max(cursor, r.end)) <==>
      Shows(raw, before, cursor) || !Blank(Slice(raw, cursor, r.start))
  {
    var n := Max(cursor, r.end);
    SliceShows(raw, cursor, r.start);
    forall k: nat ensures InAny(before + [r], k) <==> InAny(before, k) || Inside(r, k) {
      InAnyConcat(before, [r], k);
      assert InAny([r], k) <==> Inside(r, k);
    }
    if k: nat :| k < n && !IsSpace(raw[k]) && !InAny(before + [r], k) {
      assert !Inside(r, k);
    }
    if k: nat :| k < cursor && !IsSpace(raw[k]) && !InAny(before, k) {
      assert k < n && !InAny(before + [r], k);
    }
    if k: nat :| cursor <= k < r.start && !IsSpace(raw[k]) {
      assert k < n && !InAny(before + [r], k);
    }
  }

  lemma SweepOn(raw: string, ranges: seq<Range>, done: nat, cursor: nat, visible: string, after: nat, shown: string)
    requires done < |ranges| && Swept(raw, ranges, done, cursor, visible)
    requires Sorted(StartsBefore, ranges) && ranges[done].start <= ranges[done].end <= |raw|
    requires after == Max(cursor, ranges[done].end) && shown == visible + Slice(raw, cursor, ranges[done].start)
    ensures Swept(raw, ranges, done + 1, after, shown)
  {
    var before, r, now := ranges[..done], ranges[done], ranges[..done + 1];
    assert now == before + [r];
    ShowsOn(raw, before, r, cursor);
    BlankConcat(visible, Slice(raw, cursor, r.start));
    forall k: nat ensures InAny(now, k) <==> InAny(before, k) || Inside(r, k) {
      InAnyConcat(before, [r], k);
      assert InAny([r], k) <==> Inside(r, k);
    }
    forall k: nat, i: nat {:trigger Inside(ranges[i], k)} | k < after && done + 1 <= i < |ranges| &&
        Inside(ranges[i], k)
      ensures InAny(now, k)
    {
      assert StartsBefore(ranges[done], ranges[i]);
      if k < cursor {
        assert InAny(before, k);
      } else {
        assert Inside(r, k);
      }
    }
    assert forall k: nat | InAny(now, k) :: k < after;
  }

  lemma SweepEnd(raw: string, ranges: seq<Range>, sorted: seq<Range>, cursor: nat, visible: string)
    requires Swept(raw, sorted, |sorted|, cursor, visible) && forall r :: r in ranges <==> r in sorted
    ensures !Blank(visible + Slice(raw, cursor, |raw|)) <==> Shows(raw, ranges, |raw|)
  {
    assert sorted[..|sorted|] == sorted;
    assert forall k: nat :: InAny(ranges, k) <==> InAny(sorted, k);
    SliceShows(raw, cursor, |raw|);
    BlankConcat(visible, Slice(raw, cursor, |raw|));
  }

  /** Whether anything but white space is left of a line once its comments are cut out. */
  method HasRenderedTextOutsideComments(raw: string, ranges: seq<Range>) returns (shown: bool)
    requires forall r | r in ranges :: r.start <= r.end <= |raw|
    ensures shown <==> Shows(raw, ranges, |raw|)
  {
    var sorted := Sort(StartsBefore, ranges);
    SameElems(ranges, sorted);
    SortSorted(StartsBefore, ranges);
    var cursor := 0;
    var visible := "";
    for j := 0 to |sorted|
      invariant Swept(raw, sorted, j, cursor, visible)
    {
      ghost var before, shownBefore := cursor, visible;
      assert sorted[j] in ranges;
      visible := visible + Slice(raw, cursor, sorted[j].start);
      cursor := Max(cursor, sorted[j].end);
      SweepOn(raw, sorted, j, before, shownBefore, cursor, visible);
    }
    SweepEnd(raw, ranges, sorted, cursor, visible);
    visible := visible + Slice(raw, cursor, |raw|);
    shown := |Trim(visible)| > 0;
  }

  // ----- the prose lines

  predicate IsCode(code: seq<CodeNode>, number: nat) {
    exists c | c in code :: c.first <= number <= c.last
  }

  /**
   * The rule for one line: it is not code, and either no comment touches it or some character of it
   * that is not white space lies outside every comment.
   */
  ghost predicate IsProse(source: string, comments: seq<Range>, code: seq<CodeNode>, from: nat, size: nat, number: nat)
    requires from + size <= |source|
  {
    && !IsCode(code, number)
    && (|| (forall c | c in comments :: !Touches(c, from, size))
        || exists p: nat :: from <= p < from + size && !IsSpace(source[p]) && !InAny(comments, p))
  }

  /** What is shown of a line's columns is what is shown at the text's positions. */
  lemma ShowsAt(source: string, comments: seq<Range>, from: nat, raw: string)
    requires from + |raw| <= |source| && source[from..from + |raw|] == raw
    ensures
      Shows(raw, LineRanges(comments, from, |raw|), |raw|) <==>
      exists p: nat :: from <= p < from + |raw| && !IsSpace(source[p]) && !InAny(comments, p)
  {
    var ranges := LineRanges(comments, from, |raw|);
    LineRangesCover(comments, from, |raw|);
    assert forall k: nat | k < |raw| :: raw[k] == source[from + k];
    if k: nat :| k < |raw| && !IsSpace(raw[k]) && !InAny(ranges, k) {
      assert from <= from + k < from + |raw| && !IsSpace(source[from + k]) && !InAny(comments, from + k);
    }
    if p: nat :| from <= p < from + |raw| && !IsSpace(source[p]) && !InAny(comments, p) {
      var k := p - from;
      assert !IsSpace(raw[k]) && !InAny(ranges, k);
    }
  }

  lemma TextHasLines(source: string, i: nat)
    requires i < |Lines(source)|
    ensures
      var from, raw := LineStart(Lines(source), i), Lines(source)[i];
      from + |raw| <= |source| && source[from..from + |raw|] == raw
  {
    LinesArePieces(source, i);
  }

  ghost predicate ProseAt(source: string, comments: seq<Range>, code: seq<CodeNode>, i: nat)
    requires i < |Lines(source)|
  {
    TextHasLines(source, i);
    IsProse(source, comments, code, LineStart(Lines(source), i), |Lines(source)[i]|, i + 1)
  }

  /** What the column ranges of a line that is no code say about it. */
  lemma {:induction false} LineShows(source: string, comments: seq<Range>, code: seq<CodeNode>, i: nat)
    requires i < |Lines(source)| && !IsCode(code, i + 1)
    ensures
      var raw := Lines(source)[i];
      var ranges := LineRanges(comments, LineStart(Lines(source), i), |raw|);
      && (forall r | r in ranges :: r.start <= r.end <= |raw|)
      && (ProseAt(source, comments, code, i) <==> ranges == [] || Shows(raw, ranges, |raw|))
  {
    var from, raw := LineStart(Lines(source), i), Lines(source)[i];
    TextHasLines(source, i);
    LineRangesCover(comments, from, |raw|);
    ShowsAt(source, comments, from, raw);
  }

  /** Decide one line. */
  method KeepLine(source: string, nodes: seq<HtmlNode>, code: seq<CodeNode>, i: nat, ranges: map<nat, seq<Range>>)
    returns (kept: bool)
    requires i < |Lines(source)| && Keyed(ranges, Lines(source), AllComments(nodes), |Lines(source)|)
    ensures kept <==> ProseAt(source, AllComments(nodes), code, i)
  {
    if IsCode(code, i + 1) {
      return false;
    }
    var raw := Lines(source)[i];
    LineShows(source, AllComments(nodes), code, i);
    assert KeyedAt(ranges, Lines(source), AllComments(nodes), i);
    if i + 1 !in ranges {
      return true;
    }
    kept := HasRenderedTextOutsideComments(raw, ranges[i + 1]);
  }
}
