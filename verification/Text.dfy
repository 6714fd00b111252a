/** White space, lines and words of a string. */
module Text {

  /** What the language's `trim` and `\s` take for white space. */
  predicate IsSpace(c: char) {
    || 9 <= c as int <= 13 || c == ' ' || c as int in {0xA0, 0x1680, 0x2028, 0x2029, 0x202F, 0x205F, 0x3000, 0xFEFF}
    || 0x2000 <= c as int <= 0x200A
  }

  /** The codes of the white space characters. */
  const SPACE_CODES := [
    9, 10, 11, 12, 13, 32, 0xA0, 0x1680, 0x2000, 0x2001, 0x2002, 0x2003, 0x2004, 0x2005, 0x2006, 0x2007, 0x2008,
    0x2009, 0x200A, 0x2028, 0x2029, 0x202F, 0x205F, 0x3000, 0xFEFF]

  lemma SpacesAre(c: char)
    ensures IsSpace(c) <==> c as int in SPACE_CODES
  {
  }

  predicate Blank(s: string) {
    forall i | 0 <= i < |s| :: IsSpace(s[i])
  }

  function TrimStart(s: string): (r: string)
    ensures r != [] ==> !IsSpace(r[0])
    ensures r == [] <==> Blank(s)
  {
    if s != [] && IsSpace(s[0]) then TrimStart(s[1..]) else s
  }

  function TrimEnd(s: string): (r: string)
    ensures r != [] ==> !IsSpace(r[|r| - 1])
    ensures r == [] <==> Blank(s)
  {
    if s != [] && IsSpace(s[|s| - 1]) then TrimEnd(s[..|s| - 1]) else s
  }

  function Trim(s: string): (r: string)
    ensures r == [] <==> Blank(s)
  {
    TrimEnd(TrimStart(s))
  }

  function IndexOf(s: string, c: char): (i: nat)
    ensures i <= |s| && c !in s[..i]
    ensures i < |s| ==> s[i] == c
  {
    if s == [] || s[0] == c then 0
    else
      var rest := IndexOf(s[1..], c);
      assert s[..1 + rest] == [s[0]] + s[1..][..rest];
      1 + rest
  }

  function Lines(s: string): (r: seq<string>)
    ensures r != []
    decreases |s|
  {
    var i := IndexOf(s, '\n');
    if i == |s| then [s] else [s[..i]] + Lines(s[i + 1..])
  }

  lemma SliceOfTail(s: string, cut: nat, i: nat, j: nat)
    requires cut <= |s| && i <= j <= |s| - cut
    ensures s[cut..][i..j] == s[cut + i..cut + j]
  {
    var a, b := s[cut..][i..j], s[cut + i..cut + j];
    assert |a| == |b| && forall k | 0 <= k < |a| :: a[k] == b[k];
  }

  function Join(parts: seq<string>, separator: string): string {
    if parts == [] then []
    else if |parts| == 1 then parts[0]
    else Join(parts[..|parts| - 1], separator) + separator + parts[|parts| - 1]
  }

  lemma {:induction false} JoinFront(parts: seq<string>, separator: string)
    requires |parts| >= 2
    ensures Join(parts, separator) == parts[0] + separator + Join(parts[1..], separator)
  {
    var n := |parts| - 1;
    if n > 1 {
      JoinFront(parts[..n], separator);
      assert parts[1..][..n - 1] == parts[..n][1..];
    }
  }

  /** Cutting a text at its newlines and joining the pieces again changes nothing, either way round. */
  lemma {:induction false} JoinLines(s: string)
    ensures Join(Lines(s), "\n") == s
    decreases |s|
  {
    var i := IndexOf(s, '\n');
    CutLines(s);
    if i < |s| {
      JoinLines(s[i + 1..]);
      JoinFirst(s[..i], Lines(s[i + 1..]), "\n");
      AroundNewline(s, i);
    }
  }

  lemma {:induction false} JoinFirst(first: string, rest: seq<string>, separator: string)
    requires rest != []
    ensures Join([first] + rest, separator) == first + separator + Join(rest, separator)
  {
    JoinFront([first] + rest, separator);
    assert ([first] + rest)[1..] == rest;
  }

  lemma AroundNewline(s: string, i: nat)
    requires i < |s| && s[i] == '\n'
    ensures s[..i] + "\n" + s[i + 1..] == s
  {
  }

  lemma {:induction false} LinesJoin(parts: seq<string>)
    requires parts != [] && forall k | 0 <= k < |parts| :: '\n' !in parts[k]
    ensures Lines(Join(parts, "\n")) == parts
  {
    var s := Join(parts, "\n");
    if |parts| > 1 {
      JoinFront(parts, "\n");
      LinesJoin(parts[1..]);
      var n := |parts[0]|;
      assert s == parts[0] + ['\n'] + Join(parts[1..], "\n");
      NewlineAt(s, n);
      assert s[..n] == parts[0] && s[n + 1..] == Join(parts[1..], "\n");
    }
  }

  lemma {:induction false} NewlineAt(s: string, n: nat)
    requires n < |s| && s[n] == '\n' && '\n' !in s[..n]
    ensures IndexOf(s, '\n') == n
  {
    if n > 0 {
      assert s[..n][0] == s[0] && s[1..][..n - 1] == s[..n][1..];
      NewlineAt(s[1..], n - 1);
    }
  }

  /** Where line `i` starts, counting one newline after every line before it. */
  function LineStart(lines: seq<string>, i: nat): nat
    requires i <= |lines|
  {
    if i == 0 then 0 else LineStart(lines, i - 1) + |lines[i - 1]| + 1
  }

  lemma {:induction false} LineStartTail(lines: seq<string>, i: nat)
    requires 0 < i <= |lines|
    ensures LineStart(lines, i) == |lines[0]| + 1 + LineStart(lines[1..], i - 1)
  {
    if i > 1 {
      LineStartTail(lines, i - 1);
    }
  }

  /** `line` stands in `s` at `from`, with no newline in it and, unless it is the last, one after it. */
  predicate LineAt(s: string, line: string, from: nat, last: bool) {
    var to := from + |line|;
    && to <= |s| && s[from..to] == line && '\n' !in line
    && if last then to == |s| else to < |s| && s[to] == '\n'
  }

  lemma LineAtShift(s: string, cut: nat, line: string, from: nat, last: bool)
    requires cut <= |s| && LineAt(s[cut..], line, from, last)
    ensures LineAt(s, line, cut + from, last)
  {
    assert s[cut + from..cut + from + |line|] == s[cut..][from..from + |line|];
  }

  lemma FirstLine(s: string)
    ensures LineAt(s, Lines(s)[0], 0, |Lines(s)| == 1)
  {
    var end := IndexOf(s, '\n');
    assert s[0..end] == s[..end] && (end == |s| ==> s[..end] == s);
  }

  lemma {:induction false} LaterLines(s: string)
    requires |Lines(s)| > 1
    ensures
      var end := IndexOf(s, '\n');
      end < |s| && Lines(s) == [s[..end]] + Lines(s[end + 1..])
  {
    CutLines(s);
  }

  lemma {:induction false} CutLines(s: string)
    ensures
      var end := IndexOf(s, '\n');
      Lines(s) == if end == |s| then [s] else [s[..end]] + Lines(s[end + 1..])
  {
  }

  lemma ShiftLine(s: string, lines: seq<string>, rest: seq<string>, cut: nat, i: nat)
    requires 0 < i < |lines| && 0 < cut <= |s| && lines[1..] == rest && |lines[0]| + 1 == cut
    requires LineAt(s[cut..], rest[i - 1], LineStart(rest, i - 1), i == |lines| - 1)
    ensures LineAt(s, lines[i], LineStart(lines, i), i == |lines| - 1)
  {
    LineStartTail(lines, i);
    LineAtShift(s, cut, lines[i], LineStart(rest, i - 1), i == |lines| - 1);
  }

  /** The lines are the pieces of the text at their starts. */
  lemma {:induction false} LinesArePieces(s: string, i: nat)
    requires i < |Lines(s)|
    ensures LineAt(s, Lines(s)[i], LineStart(Lines(s), i), i == |Lines(s)| - 1)
    decreases i
  {
    if i == 0 {
      FirstLine(s);
    } else {
      LaterLines(s);
      var cut := IndexOf(s, '\n') + 1;
      LinesArePieces(s[cut..], i - 1);
      ShiftLine(s, Lines(s), Lines(s[cut..]), cut, i);
    }
  }

  // ----- words

  /** The maximal runs of characters that are not white space. */
  function Words(s: string): (r: seq<string>)
    ensures s != [] && !IsSpace(s[0]) ==> r != []
  {
    if s == [] then []
    else if IsSpace(s[0]) then Words(s[1..])
    else if |s| == 1 || IsSpace(s[1]) then [[s[0]]] + Words(s[1..])
    else
      var rest := Words(s[1..]);
      [[s[0]] + rest[0]] + rest[1..]
  }

  /** The words with what stands before, between and after them. */
  function Weave(gaps: seq<string>, words: seq<string>): string
    requires |gaps| == |words| + 1
  {
    if words == [] then gaps[0] else gaps[0] + words[0] + Weave(gaps[1..], words[1..])
  }

  /** The gaps are white space, and none of them empty between two words; the words hold no white space. */
  predicate Apart(gaps: seq<string>, words: seq<string>) {
    && |gaps| == |words| + 1
    && (forall i | 0 <= i < |gaps| :: Blank(gaps[i]) && (0 < i < |words| ==> gaps[i] != []))
    && (forall i, j | 0 <= i < |words| && 0 <= j < |words[i]| :: !IsSpace(words[i][j]))
    && (forall i | 0 <= i < |words| :: words[i] != [])
  }

  /** The words are the runs between the white space. */
  lemma {:induction false} WordsAreRuns(s: string) returns (gaps: seq<string>)
    ensures Apart(gaps, Words(s)) && s == Weave(gaps, Words(s))
    ensures s != [] ==> (gaps[0] == [] <==> !IsSpace(s[0]))
  {
    if s == [] {
      gaps := [[]];
    } else {
      var rest := WordsAreRuns(s[1..]);
      var words := Words(s[1..]);
      assert s == [s[0]] + s[1..];
      if IsSpace(s[0]) {
        gaps := [[s[0]] + rest[0]] + rest[1..];
        WiderGap(rest, words, s[0]);
      } else if |s| == 1 || IsSpace(s[1]) {
        gaps := [[]] + rest;
        NewWord(rest, words, s[0]);
      } else {
        gaps := rest;
        LongerWord(rest, words, s[0]);
      }
    }
  }

  lemma WiderGap(gaps: seq<string>, words: seq<string>, c: char)
    requires Apart(gaps, words) && IsSpace(c)
    ensures var wider := [[c] + gaps[0]] + gaps[1..];
            Apart(wider, words) && Weave(wider, words) == [c] + Weave(gaps, words)
  {
    var wider := [[c] + gaps[0]] + gaps[1..];
    assert forall i | 0 < i < |gaps| :: wider[i] == gaps[i];
    assert wider[1..] == gaps[1..];
  }

  lemma NewWord(gaps: seq<string>, words: seq<string>, c: char)
    requires Apart(gaps, words) && !IsSpace(c) && (words != [] ==> gaps[0] != [])
    ensures Apart([[]] + gaps, [[c]] + words) && Weave([[]] + gaps, [[c]] + words) == [c] + Weave(gaps, words)
  {
    var more, all := [[]] + gaps, [[c]] + words;
    assert more[1..] == gaps && all[1..] == words;
    assert forall i | 0 < i < |more| :: more[i] == gaps[i - 1];
    assert forall i | 0 < i < |all| :: all[i] == words[i - 1];
  }

  lemma LongerWord(gaps: seq<string>, words: seq<string>, c: char)
    requires Apart(gaps, words) && words != [] && gaps[0] == [] && !IsSpace(c)
    ensures var longer := [[c] + words[0]] + words[1..];
            Apart(gaps, longer) && Weave(gaps, longer) == [c] + Weave(gaps, words)
  {
    LongerApart(gaps, words, c);
    LongerWeave(gaps, words, c);
  }

  lemma {:induction false} LongerApart(gaps: seq<string>, words: seq<string>, c: char)
    requires Apart(gaps, words) && words != [] && !IsSpace(c)
    ensures Apart(gaps, [[c] + words[0]] + words[1..])
  {
    var longer := [[c] + words[0]] + words[1..];
    forall i | 0 <= i < |longer| ensures longer[i] != [] && forall j | 0 <= j < |longer[i]| :: !IsSpace(longer[i][j]) {
      if i == 0 {
        assert longer[0] == [c] + words[0];
      } else {
        assert longer[i] == words[i];
      }
    }
  }

  lemma {:induction false} LongerWeave(gaps: seq<string>, words: seq<string>, c: char)
    requires |gaps| == |words| + 1 && words != [] && gaps[0] == []
    ensures Weave(gaps, [[c] + words[0]] + words[1..]) == [c] + Weave(gaps, words)
  {
    var longer := [[c] + words[0]] + words[1..];
    assert longer[0] == [c] + words[0] && longer[1..] == words[1..];
    Prepend(c, words[0], Weave(gaps[1..], words[1..]));
  }

  lemma Prepend(c: char, a: string, b: string)
    ensures [] + ([c] + a) + b == [c] + ([] + a + b)
  {
  }

  function WordsOf(parts: seq<string>): seq<string> {
    if parts == [] then [] else WordsOf(parts[..|parts| - 1]) + Words(parts[|parts| - 1])
  }

  /** White space separates words. */
  lemma {:induction false} WordsApart(a: string, c: char, b: string)
    requires IsSpace(c)
    ensures Words(a + [c] + b) == Words(a) + Words(b)
  {
    var s := a + [c] + b;
    if a == [] {
      assert s[1..] == b;
    } else {
      assert s[1..] == a[1..] + [c] + b;
      WordsApart(a[1..], c, b);
      if |a| == 1 {
        assert s[1] == c;
      } else {
        assert s[1] == a[1];
      }
    }
  }

  lemma {:induction false} WordsJoined(parts: seq<string>, separator: string)
    requires separator in [" ", "\n", "\n\n"]
    ensures Words(Join(parts, separator)) == WordsOf(parts)
  {
    if |parts| == 1 {
      assert WordsOf(parts[..0]) == [];
    } else if parts != [] {
      var init, last := Join(parts[..|parts| - 1], separator), parts[|parts| - 1];
      WordsJoined(parts[..|parts| - 1], separator);
      if |separator| == 1 {
        WordsApart(init, separator[0], last);
        assert init + separator + last == init + [separator[0]] + last;
      } else {
        WordsApart(init, '\n', "\n" + last);
        WordsApart("", '\n', last);
        assert init + separator + last == init + ['\n'] + ("\n" + last);
        assert "" + ['\n'] + last == "\n" + last;
      }
    }
  }

  /** Every run of white space becomes one blank. */
  function Collapse(s: string): (r: string)
    ensures (r == [] <==> s == []) && (s != [] ==> (IsSpace(r[0]) <==> IsSpace(s[0])))
    ensures forall i | 0 <= i < |r| && IsSpace(r[i]) :: r[i] == ' '
  {
    if s == [] then []
    else if !IsSpace(s[0]) then [s[0]] + Collapse(s[1..])
    else if |s| > 1 && IsSpace(s[1]) then Collapse(s[1..])
    else [' '] + Collapse(s[1..])
  }

  lemma {:induction false} WordsCollapsed(s: string)
    ensures Words(Collapse(s)) == Words(s)
  {
    if s != [] {
      WordsCollapsed(s[1..]);
      var r := Collapse(s);
      if !IsSpace(s[0]) || |s| == 1 || !IsSpace(s[1]) {
        assert r[1..] == Collapse(s[1..]);
      }
    }
  }

  lemma {:induction false} WordsTrimmedStart(s: string)
    ensures Words(TrimStart(s)) == Words(s)
  {
    if s != [] && IsSpace(s[0]) {
      WordsTrimmedStart(s[1..]);
    }
  }

  lemma {:induction false} WordsTrimmedEnd(s: string)
    ensures Words(TrimEnd(s)) == Words(s)
  {
    if s != [] && IsSpace(s[|s| - 1]) {
      var init := s[..|s| - 1];
      WordsTrimmedEnd(init);
      WordsApart(init, s[|s| - 1], []);
      assert s == init + [s[|s| - 1]] + [];
    }
  }

  lemma {:induction false} BlankHasNoWords(s: string)
    requires Blank(s)
    ensures Words(s) == []
  {
    if s != [] {
      BlankHasNoWords(s[1..]);
    }
  }

  lemma {:induction false} WordsOfConcat(a: seq<string>, b: seq<string>)
    ensures WordsOf(a + b) == WordsOf(a) + WordsOf(b)
  {
    if b == [] {
      assert a + b == a;
    } else {
      assert (a + b)[..|a + b| - 1] == a + b[..|b| - 1];
      WordsOfConcat(a, b[..|b| - 1]);
    }
  }
}
