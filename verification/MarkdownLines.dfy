/** The prose lines of a Markdown text, told by positions of the text and of its nodes alone. */
module MarkdownLines {
  import opened Text
  import opened MarkdownProse

  /** `mark` stands in `s` at `k`. */
  predicate StandsAt(s: string, mark: string, k: nat) {
    k + |mark| <= |s| && s[k..k + |mark|] == mark
  }

  /** The comment opens at the first `<!--` from `from` on, and ends behind the next `-->` or else with the text. */
  ghost predicate Comment(s: string, from: nat, c: Range) {
    && from <= c.start && StandsAt(s, "<!--", c.start)
    && (forall k | from <= k < c.start :: !StandsAt(s, "<!--", k))
    && (|| (c.end == |s| && forall k: nat | c.start + 4 <= k :: !StandsAt(s, "-->", k))
        || (c.start + 7 <= c.end && StandsAt(s, "-->", c.end - 3)
            && forall k | c.start + 4 <= k < c.end - 3 :: !StandsAt(s, "-->", k)))
  }

  /** Where comment `i` may open: behind the one before it. */
  function Behind(comments: seq<Range>, i: nat): nat
    requires i <= |comments|
  {
    if i == 0 then 0 else comments[i - 1].end
  }

  /** The comments of a text, each the first behind the one before, and none behind the last. */
  ghost predicate Scanned(s: string, comments: seq<Range>) {
    && (forall i | 0 <= i < |comments| :: Comment(s, Behind(comments, i), comments[i]))
    && forall k: nat | Behind(comments, |comments|) <= k :: !StandsAt(s, "<!--", k)
  }

  /** Position `p` of the text lies in comment `j` of node `i`. */
  predicate CommentedBy(nodes: seq<HtmlNode>, comments: seq<seq<Range>>, p: nat, i: nat, j: nat) {
    && i < |nodes| && |comments| == |nodes| && j < |comments[i]|
    && nodes[i].offset + comments[i][j].start <= p < nodes[i].offset + comments[i][j].end
  }

  ghost predicate Commented(nodes: seq<HtmlNode>, comments: seq<seq<Range>>, p: nat) {
    exists i: nat, j: nat :: CommentedBy(nodes, comments, p, i, j)
  }

  /** Where the line starts, or some position of it, lies in no comment. */
  ghost predicate Untouched(nodes: seq<HtmlNode>, comments: seq<seq<Range>>, from: nat, size: nat) {
    if size == 0 then !Commented(nodes, comments, from)
    else forall p | from <= p < from + size :: !Commented(nodes, comments, p)
  }

  /**
   * Line `number` of the text is kept: it lies in no code block, from its first to its last line, and either no
   * comment touches it or something other than white space stands in it outside every comment.
   */
  ghost predicate Kept(source: string, nodes: seq<HtmlNode>, comments: seq<seq<Range>>, code: seq<CodeNode>,
                       number: nat, raw: string) {
    var lines := Lines(source);
    && 1 <= number <= |lines| && raw == lines[number - 1]
    && (forall c | c in code :: number < c.first || c.last < number)
    && var from := LineStart(lines, number - 1);
       || Untouched(nodes, comments, from, |raw|)
       || exists p | from <= p < from + |raw| && p < |source| ::
            !IsSpace(source[p]) && !Commented(nodes, comments, p)
  }

  // ----- the scan of a node

  lemma OccursAt(s: string, mark: string, k: nat)
    ensures Occurs(s, mark, k) <==> StandsAt(s, mark, k)
  {
  }

  lemma EndsBehindClose(s: string, from: nat, c: Range)
    requires FirstFrom(s, from, c)
    ensures Comment(s, from, c)
  {
    var close := Find(s, CLOSE, c.start + |OPEN|);
    OccursAt(s, "<!--", c.start);
    forall k: nat | c.start + 4 <= k < close ensures !StandsAt(s, "-->", k) {
      OccursAt(s, "-->", k);
    }
    OccursAt(s, "-->", close);
    forall k | from <= k < c.start ensures !StandsAt(s, "<!--", k) {
      OccursAt(s, "<!--", k);
    }
  }

  lemma ScanIsScanned(s: string)
    ensures Scanned(s, CommentsFrom(s, 0))
  {
    var cs := CommentsFrom(s, 0);
    forall i | 0 <= i < |cs| ensures Comment(s, Behind(cs, i), cs[i]) {
      CommentsAreFirst(s, 0, i);
      EndsBehindClose(s, ScanFrom(cs, 0, i), cs[i]);
    }
    forall k: nat | Behind(cs, |cs|) <= k ensures !StandsAt(s, "<!--", k) {
      if k < |s| {
        NoCommentAfterLast(s, 0, k);
        OccursAt(s, "<!--", k);
      }
    }
  }

  ghost function NodeComments(nodes: seq<HtmlNode>): (r: seq<seq<Range>>)
    ensures |r| == |nodes| && forall i | 0 <= i < |nodes| :: r[i] == CommentsFrom(nodes[i].value, 0)
  {
    seq(|nodes|, i requires 0 <= i < |nodes| => CommentsFrom(nodes[i].value, 0))
  }

  ghost predicate InShifted(comments: seq<Range>, shift: nat, p: nat) {
    exists j: nat :: j < |comments| && ShiftedAt(comments, shift, p, j)
  }

  predicate ShiftedAt(comments: seq<Range>, shift: nat, p: nat, j: nat)
    requires j < |comments|
  {
    shift + comments[j].start <= p < shift + comments[j].end
  }

  lemma ShiftedAny(comments: seq<Range>, shift: nat, p: nat)
    ensures InAny(Shifted(comments, shift), p) <==> InShifted(comments, shift, p)
  {
    var all := Shifted(comments, shift);
    if j: nat :| j < |comments| && ShiftedAt(comments, shift, p, j) {
      assert all[j] in all && Inside(all[j], p);
    }
    if c :| c in all && Inside(c, p) {
      var j :| 0 <= j < |all| && all[j] == c;
      assert ShiftedAt(comments, shift, p, j);
    }
  }

  lemma CommentedBefore(nodes: seq<HtmlNode>, p: nat, i: nat, j: nat)
    requires i < |nodes| - 1
    ensures CommentedBy(nodes, NodeComments(nodes), p, i, j)
       <==> CommentedBy(nodes[..|nodes| - 1], NodeComments(nodes[..|nodes| - 1]), p, i, j)
  {
  }

  lemma CommentedAtLast(nodes: seq<HtmlNode>, p: nat, j: nat)
    requires nodes != []
    ensures var n, all := |nodes| - 1, NodeComments(nodes);
            CommentedBy(nodes, all, p, n, j) <==> j < |all[n]| && ShiftedAt(all[n], nodes[n].offset, p, j)
  {
  }

  lemma {:induction false} CommentedDown(nodes: seq<HtmlNode>, p: nat)
    requires nodes != [] && Commented(nodes, NodeComments(nodes), p)
    ensures
      var n := |nodes| - 1;
      || Commented(nodes[..n], NodeComments(nodes[..n]), p)
      || InShifted(CommentsFrom(nodes[n].value, 0), nodes[n].offset, p)
  {
    var i: nat, j: nat :| CommentedBy(nodes, NodeComments(nodes), p, i, j);
    if i < |nodes| - 1 {
      CommentedBefore(nodes, p, i, j);
    } else {
      CommentedAtLast(nodes, p, j);
    }
  }

  lemma {:induction false} CommentedUp(nodes: seq<HtmlNode>, p: nat)
    requires nodes != [] && Commented(nodes[..|nodes| - 1], NodeComments(nodes[..|nodes| - 1]), p)
    ensures Commented(nodes, NodeComments(nodes), p)
  {
    var n := |nodes| - 1;
    var i: nat, j: nat :| CommentedBy(nodes[..n], NodeComments(nodes[..n]), p, i, j);
    CommentedBefore(nodes, p, i, j);
  }

  lemma {:induction false} CommentedByLast(nodes: seq<HtmlNode>, p: nat)
    requires nodes != []
    requires InShifted(CommentsFrom(nodes[|nodes| - 1].value, 0), nodes[|nodes| - 1].offset, p)
    ensures Commented(nodes, NodeComments(nodes), p)
  {
    var last := nodes[|nodes| - 1];
    var j: nat :| j < |CommentsFrom(last.value, 0)| && ShiftedAt(CommentsFrom(last.value, 0), last.offset, p, j);
    CommentedAtLast(nodes, p, j);
  }

  lemma {:induction false} CommentedInAll(nodes: seq<HtmlNode>, p: nat)
    ensures Commented(nodes, NodeComments(nodes), p) <==> InAny(AllComments(nodes), p)
  {
    if nodes != [] {
      var n := |nodes| - 1;
      var init, last := nodes[..n], nodes[n];
      CommentedInAll(init, p);
      if Commented(nodes, NodeComments(nodes), p) {
        CommentedDown(nodes, p);
      } else if Commented(init, NodeComments(init), p) {
        CommentedUp(nodes, p);
      } else if InShifted(CommentsFrom(last.value, 0), last.offset, p) {
        CommentedByLast(nodes, p);
      }
      InAnyConcat(AllComments(init), Shifted(CommentsFrom(last.value, 0), last.offset), p);
      ShiftedAny(CommentsFrom(last.value, 0), last.offset, p);
    }
  }

  // ----- the lines

  lemma UntouchedMeans(nodes: seq<HtmlNode>, from: nat, size: nat)
    ensures Untouched(nodes, NodeComments(nodes), from, size)
       <==> forall c | c in AllComments(nodes) :: !Touches(c, from, size)
  {
    var all, cs := AllComments(nodes), NodeComments(nodes);
    forall p: nat ensures Commented(nodes, cs, p) <==> InAny(all, p) {
      CommentedInAll(nodes, p);
    }
    if c :| c in all && Touches(c, from, size) {
      var p: nat :| Inside(c, p) && (from <= p < from + size || p == from == from + size);
      assert InAny(all, p);
    }
    if !Untouched(nodes, cs, from, size) {
      var p: nat :| InAny(all, p) && (from <= p < from + size || p == from == from + size);
      var c :| c in all && Inside(c, p);
      assert Touches(c, from, size);
    }
  }

  lemma ProseIsKeptAt(source: string, nodes: seq<HtmlNode>, code: seq<CodeNode>, i: nat)
    requires i < |Lines(source)|
    ensures ProseAt(source, AllComments(nodes), code, i)
       <==> Kept(source, nodes, NodeComments(nodes), code, i + 1, Lines(source)[i])
  {
    var from, size := LineStart(Lines(source), i), |Lines(source)[i]|;
    TextHasLines(source, i);
    UntouchedMeans(nodes, from, size);
    forall p: nat ensures Commented(nodes, NodeComments(nodes), p) <==> InAny(AllComments(nodes), p) {
      CommentedInAll(nodes, p);
    }
  }

  /** These are the kept ones of the first `n` lines. */
  ghost predicate KeptTo(source: string, nodes: seq<HtmlNode>, code: seq<CodeNode>, n: nat, kept: seq<ProseLine>) {
    && (forall l :: l in kept <==> l.index <= n && Kept(source, nodes, NodeComments(nodes), code, l.index, l.raw))
    && (forall i, j | 0 <= i < j < |kept| :: kept[i].index < kept[j].index)
  }

  lemma NoneKept(source: string, nodes: seq<HtmlNode>, code: seq<CodeNode>)
    ensures KeptTo(source, nodes, code, 0, [])
  {
  }

  lemma {:induction false} OneMoreLine(source: string, nodes: seq<HtmlNode>, code: seq<CodeNode>, n: nat,
                                       kept: seq<ProseLine>)
    requires 0 < n <= |Lines(source)| && KeptTo(source, nodes, code, n - 1, kept)
    ensures
      var raw := Lines(source)[n - 1];
      if Kept(source, nodes, NodeComments(nodes), code, n, raw) then
        KeptTo(source, nodes, code, n, kept + [ProseLine(n, raw)])
      else KeptTo(source, nodes, code, n, kept)
  {
    var raw := Lines(source)[n - 1];
    forall i | 0 <= i < |kept| ensures kept[i].index < n {
      assert kept[i] in kept;
    }
    var keep := Kept(source, nodes, NodeComments(nodes), code, n, raw);
    forall l: ProseLine
      ensures l.index <= n && Kept(source, nodes, NodeComments(nodes), code, l.index, l.raw)
         <==> l in kept || (keep && l == ProseLine(n, raw))
    {
      assert l.index == n && l.raw == raw ==> l == ProseLine(n, raw);
    }
  }

  /** The lines outside code and comments, verbatim and with their numbers. */
  method MarkdownProseLines(source: string, nodes: seq<HtmlNode>, code: seq<CodeNode>)
    returns (kept: seq<ProseLine>, ghost comments: seq<seq<Range>>)
    ensures |comments| == |nodes| && forall i | 0 <= i < |nodes| :: Scanned(nodes[i].value, comments[i])
    ensures forall l :: l in kept <==> Kept(source, nodes, comments, code, l.index, l.raw)
    ensures forall i, j | 0 <= i < j < |kept| :: kept[i].index < kept[j].index
  {
    var lines := Lines(source);
    var ranges := HtmlCommentRanges(lines, nodes);
    kept := [];
    NoneKept(source, nodes, code);
    for i := 0 to |lines|
      invariant KeptTo(source, nodes, code, i, kept)
    {
      var keep := KeepLine(source, nodes, code, i, ranges);
      ProseIsKeptAt(source, nodes, code, i);
      OneMoreLine(source, nodes, code, i + 1, kept);
      if keep {
        kept := kept + [ProseLine(i + 1, lines[i])];
      }
    }
    comments := NodeComments(nodes);
    forall i | 0 <= i < |nodes| ensures Scanned(nodes[i].value, comments[i]) {
      ScanIsScanned(nodes[i].value);
    }
  }
}
