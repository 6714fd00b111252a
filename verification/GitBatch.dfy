/** Reading the batch output of `git cat-file`: per object a header line, its bytes, and a newline. */
module GitBatch {
  import opened Decimal
  import opened Options

  type Path = string

  const MAX_SAFE_INTEGER := 9007199254740991
  const MINUS: Byte := 45
  const PLUS: Byte := 43

  const MISSING: seq<Byte> := Ascii(" missing")

  datatype ReadError = NoHeader(path: Path) | Missing(path: Path) | InvalidSize(path: Path) | Truncated(path: Path)
  datatype Result = Ok(contents: map<Path, seq<Byte>>) | Err(error: ReadError)

  /** The first `b` at or after `from`; the length of `s` if there is none. */
  function IndexOf(s: seq<Byte>, b: Byte, from: nat): (i: nat)
    requires from <= |s|
    ensures from <= i <= |s| && (i < |s| ==> s[i] == b)
    decreases |s| - from
  {
    if from == |s| || s[from] == b then from else IndexOf(s, b, from + 1)
  }

  lemma {:induction false} IndexIs(s: seq<Byte>, b: Byte, from: nat, i: nat)
    requires from <= i <= |s| && forall k | from <= k < i :: s[k] != b
    requires i < |s| ==> s[i] == b
    ensures IndexOf(s, b, from) == i
    decreases i - from
  {
    if from < i {
      IndexIs(s, b, from + 1, i);
    }
  }

  lemma {:induction false} NoneBefore(s: seq<Byte>, b: Byte, from: nat, k: nat)
    requires from <= |s| && from <= k < IndexOf(s, b, from)
    ensures s[k] != b
    decreases k - from
  {
    if from < k {
      NoneBefore(s, b, from + 1, k);
    }
  }

  /** The `k`-th piece between spaces; empty when there are fewer. */
  function Field(s: seq<Byte>, k: nat): seq<Byte>
    decreases k
  {
    var i := IndexOf(s, SPACE, 0);
    if k == 0 then s[..i] else if i == |s| then [] else Field(s[i + 1..], k - 1)
  }

  predicate EndsWith(s: seq<Byte>, suffix: seq<Byte>) {
    |s| >= |suffix| && s[|s| - |suffix|..] == suffix
  }

  predicate IsWhitespace(b: Byte) {
    b == SPACE || 9 <= b <= 13
  }

  /** The first place at or after `from` without white space. */
  function NumberStart(s: seq<Byte>, from: nat): (start: nat)
    requires from <= |s|
    ensures from <= start <= |s|
    decreases |s| - from
  {
    if from == |s| || !IsWhitespace(s[from]) then from else NumberStart(s, from + 1)
  }

  /** Leading white space, an optional sign, and a run of digits; none when there is no digit. */
  function ParseInt(s: seq<Byte>): Option<int> {
    var start := NumberStart(s, 0);
    var signed := start < |s| && (s[start] == MINUS || s[start] == PLUS);
    var first := if signed then start + 1 else start;
    var end := DigitEnd(s, first);
    if end == first then None
    else
      var magnitude: int := Value(s[first..end]);
      Some(if signed && s[start] == MINUS then -magnitude else magnitude)
  }

  /** The third field of a header, when it is a safe integer and not negative. */
  function SizeOf(header: seq<Byte>): Option<nat> {
    var size := ParseInt(Field(header, 2));
    if size.None? || size.value > MAX_SAFE_INTEGER || size.value < 0 then None else Some(size.value)
  }

  datatype Piece = Piece(content: seq<Byte>, rest: seq<Byte>) | Bad(error: ReadError)

  /** Take `size` bytes and the newline that must follow them. */
  function Cut(body: seq<Byte>, size: nat, path: Path): (r: Piece)
    ensures r.Piece? ==> |r.rest| < |body| && body == r.content + [NEWLINE] + r.rest
  {
    if size >= |body| || body[size] != NEWLINE then Bad(Truncated(path))
    else Piece(body[..size], body[size + 1..])
  }

  /** What a path gets by its header and what follows it. */
  function HeadedPiece(header: seq<Byte>, body: seq<Byte>, path: Path): (r: Piece)
    ensures r.Piece? ==> |r.rest| < |body|
  {
    if EndsWith(header, MISSING) then Bad(Missing(path))
    else
      var size := SizeOf(header);
      if size.None? then Bad(InvalidSize(path)) else Cut(body, size.value, path)
  }

  /** What one path takes off the front of the remaining output. */
  function ReadOne(s: seq<Byte>, path: Path): (r: Piece)
    ensures r.Piece? ==> |r.rest| < |s|
  {
    var headerEnd := IndexOf(s, NEWLINE, 0);
    if headerEnd == |s| then Bad(NoHeader(path))
    else
      HeadedPiece(s[..headerEnd], s[headerEnd + 1..], path)
  }

  /** Read all paths in order: the contents, and what is left of the output. */
  function ReadAll(s: seq<Byte>, paths: seq<Path>, contents: map<Path, seq<Byte>>): (Result, seq<Byte>)
    decreases |paths|
  {
    if paths == [] then (Ok(contents), s)
    else match ReadOne(s, paths[0])
      case Bad(error) => (Err(error), s)
      case Piece(content, rest) => ReadAll(rest, paths[1..], contents[paths[0] := content])
  }

  /** What the header decides. */
  lemma {:induction false} ReadSized(s: seq<Byte>, path: Path, headerEnd: nat, header: seq<Byte>, size: Option<nat>)
    requires headerEnd == IndexOf(s, NEWLINE, 0) < |s| && header == s[..headerEnd] && size == SizeOf(header)
    ensures
      ReadOne(s, path) ==
      if EndsWith(header, MISSING) then Bad(Missing(path))
      else if size.None? then Bad(InvalidSize(path))
      else Cut(s[headerEnd + 1..], size.value, path)
  {
  }

  lemma ReadOn(s: seq<Byte>, path: Path, paths: seq<Path>, contents: map<Path, seq<Byte>>, content: seq<Byte>,
               rest: seq<Byte>)
    requires paths != [] && paths[0] == path && ReadOne(s, path) == Piece(content, rest)
    ensures ReadAll(s, paths, contents) == ReadAll(rest, paths[1..], contents[path := content])
  {
  }

  lemma ReadStops(s: seq<Byte>, path: Path, paths: seq<Path>, contents: map<Path, seq<Byte>>, error: ReadError)
    requires paths != [] && paths[0] == path && ReadOne(s, path) == Bad(error)
    ensures ReadAll(s, paths, contents) == (Err(error), s)
  {
  }

  // ----- positions in the whole output, of which `pre` is read

  lemma {:induction false} FoundBehind(pre: seq<Byte>, rest: seq<Byte>, b: Byte)
    ensures IndexOf(pre + rest, b, |pre|) == |pre| + IndexOf(rest, b, 0)
  {
    var all, i := pre + rest, IndexOf(rest, b, 0);
    forall k | |pre| <= k < |pre| + i ensures all[k] != b {
      NoneBefore(rest, b, 0, k - |pre|);
    }
    IndexIs(all, b, |pre|, |pre| + i);
  }

  lemma SliceBehind(pre: seq<Byte>, rest: seq<Byte>, size: nat)
    requires size <= |rest|
    ensures (pre + rest)[|pre|..|pre| + size] == rest[..size]
  {
  }

  lemma ReadOff(pre: seq<Byte>, rest: seq<Byte>, size: nat)
    requires size <= |rest|
    ensures (pre + rest[..size]) + rest[size..] == pre + rest
  {
    assert rest[..size] + rest[size..] == rest;
  }

  /** The header that comes next, what follows it, and what is read when it is. */
  lemma SplitRest(pre: seq<Byte>, rest: seq<Byte>, path: Path)
    returns (header: seq<Byte>, body: seq<Byte>, done: seq<Byte>)
    requires IndexOf(rest, NEWLINE, 0) < |rest|
    ensures ReadOne(rest, path) == HeadedPiece(header, body, path)
    ensures |header| == IndexOf(rest, NEWLINE, 0) && (pre + rest)[|pre|..|pre| + |header|] == header
    ensures pre + rest == done + body && |done| == |pre| + |header| + 1
  {
    var size := IndexOf(rest, NEWLINE, 0);
    SliceBehind(pre, rest, size);
    ReadOff(pre, rest, size + 1);
    header, body, done := rest[..size], rest[size + 1..], pre + rest[..size + 1];
  }

  lemma {:induction false} NoHeaderLeft(rest: seq<Byte>, path: Path)
    requires IndexOf(rest, NEWLINE, 0) == |rest|
    ensures ReadOne(rest, path) == Bad(NoHeader(path))
  {
  }

  /** One turn of the loop: the content at the offset, and the offset after it. */
  method ReadFile(output: seq<Byte>, offset: nat, path: Path, ghost pre: seq<Byte>, ghost rest: seq<Byte>)
    returns (piece: Piece, after: nat, ghost done: seq<Byte>)
    requires output == pre + rest && |pre| == offset
    ensures piece == ReadOne(rest, path)
    ensures piece.Piece? ==> output == done + piece.rest && |done| == after
  {
    done := pre;
    FoundBehind(pre, rest, NEWLINE);
    var headerEnd := IndexOf(output, NEWLINE, offset);
    if headerEnd == |output| {
      NoHeaderLeft(rest, path);
      return Bad(NoHeader(path)), offset, done;
    }
    ghost var header, body;
    header, body, done := SplitRest(pre, rest, path);
    piece, after, done := ReadHeaded(output, offset, headerEnd, path, header, done, body, ReadOne(rest, path));
  }

  /** What follows the header, when the header gives a size. */
  method ReadHeaded(output: seq<Byte>, offset: nat, headerEnd: nat, path: Path, ghost header: seq<Byte>,
                    ghost pre: seq<Byte>, ghost body: seq<Byte>, ghost expected: Piece)
    returns (piece: Piece, after: nat, ghost done: seq<Byte>)
    requires offset <= headerEnd < |output| && output[offset..headerEnd] == header
    requires output == pre + body && |pre| == headerEnd + 1 && expected == HeadedPiece(header, body, path)
    ensures piece == expected
    ensures piece.Piece? ==> output == done + piece.rest && |done| == after
  {
    done := pre;
    var text := output[offset..headerEnd];
    if EndsWith(text, MISSING) {
      return Bad(Missing(path)), offset, done;
    }
    var size := SizeOf(text);
    if size.None? {
      return Bad(InvalidSize(path)), offset, done;
    }
    piece, after, done := TakeContent(output, headerEnd + 1, size.value, path, pre, body);
  }

  method TakeContent(output: seq<Byte>, contentStart: nat, size: nat, path: Path, ghost pre: seq<Byte>,
                     ghost body: seq<Byte>)
    returns (piece: Piece, after: nat, ghost done: seq<Byte>)
    requires output == pre + body && |pre| == contentStart
    ensures piece == Cut(body, size, path)
    ensures piece.Piece? ==> output == done + piece.rest && |done| == after
  {
    done := pre;
    var contentEnd := contentStart + size;
    after := contentEnd + 1;
    if contentEnd >= |output| || output[contentEnd] != NEWLINE {
      return Bad(Truncated(path)), after, done;
    }
    SliceBehind(pre, body, size);
    ReadOff(pre, body, size + 1);
    done := pre + body[..size + 1];
    piece := Piece(output[contentStart..contentEnd], output[after..]);
    DropRead(done, body[size + 1..]);
  }

  lemma DropRead(pre: seq<Byte>, rest: seq<Byte>)
    ensures (pre + rest)[|pre|..] == rest
  {
  }

  /** Walk the output with an offset. */
  method ReadGitFiles(output: seq<Byte>, paths: seq<Path>) returns (r: Result, ghost rest: seq<Byte>)
    ensures r == ReadAll(output, paths, map[]).0
    ensures rest == ReadAll(output, paths, map[]).1
  {
    var contents: map<Path, seq<Byte>> := map[];
    var offset: nat := 0;
    rest := output;
    ghost var pre: seq<Byte> := [];
    assert [] + output == output;
    for k := 0 to |paths|
      invariant output == pre + rest && |pre| == offset
      invariant ReadAll(output, paths, map[]) == ReadAll(rest, paths[k..], contents)
    {
      ghost var done;
      var piece, after;
      piece, after, done := ReadFile(output, offset, paths[k], pre, rest);
      assert paths[k..][0] == paths[k] && paths[k..][1..] == paths[k + 1..];
      if piece.Bad? {
        return Err(piece.error), rest;
      }
      ReadOn(rest, paths[k], paths[k..], contents, piece.content, piece.rest);
      contents := contents[paths[k] := piece.content];
      offset, pre, rest := after, done, piece.rest;
    }
    r := Ok(contents);
  }

  // ----- the output as git prints it

  /** One answer of the batch: an object, or the name of one that does not exist. */
  datatype Answer = Object(id: seq<Byte>, kind: seq<Byte>, content: seq<Byte>) | Absent(name: seq<Byte>)

  predicate WellFormed(a: Answer) {
    match a
    case Object(id, kind, content) =>
      SPACE !in id && SPACE !in kind && NEWLINE !in id && NEWLINE !in kind && |content| <= MAX_SAFE_INTEGER
    case Absent(name) => NEWLINE !in name
  }

  function Header(a: Answer): seq<Byte> {
    match a
    case Object(id, kind, content) => id + [SPACE] + (kind + [SPACE] + Print(|content|))
    case Absent(name) => name + MISSING
  }

  function PrintAnswer(a: Answer): seq<Byte> {
    Header(a) + [NEWLINE] + if a.Object? then a.content + [NEWLINE] else []
  }

  function Batch(answers: seq<Answer>): seq<Byte> {
    if answers == [] then [] else PrintAnswer(answers[0]) + Batch(answers[1..])
  }

  lemma {:induction false} IndexOfFirst(s: seq<Byte>, b: Byte, rest: seq<Byte>)
    requires b !in s
    ensures IndexOf(s + [b] + rest, b, 0) == |s|
  {
    var all := s + [b] + rest;
    assert all[|s|] == b && forall k | 0 <= k < |s| :: all[k] == s[k];
    IndexIs(all, b, 0, |s|);
  }

  lemma {:induction false} IndexOfNone(s: seq<Byte>, b: Byte)
    requires b !in s
    ensures IndexOf(s, b, 0) == |s|
  {
    IndexIs(s, b, 0, |s|);
  }

  lemma DigitsHaveNo(s: seq<Byte>, b: Byte)
    requires AllDigits(s) && !IsDigit(b)
    ensures b !in s
  {
  }

  /** The third field of three is what follows the second blank. */
  lemma ThirdField(id: seq<Byte>, kind: seq<Byte>, digits: seq<Byte>)
    requires SPACE !in id && SPACE !in kind && SPACE !in digits
    ensures Field(id + [SPACE] + (kind + [SPACE] + digits), 2) == digits
  {
    var tail := kind + [SPACE] + digits;
    var header := id + [SPACE] + tail;
    IndexOfFirst(id, SPACE, tail);
    assert header[|id| + 1..] == tail;
    IndexOfFirst(kind, SPACE, digits);
    assert tail[|kind| + 1..] == digits;
    IndexOfNone(digits, SPACE);
    assert digits[..|digits|] == digits;
    assert Field(tail, 1) == Field(digits, 0) == digits;
  }

  /** The size of a printed header is read back. */
  lemma HeaderSize(a: Answer)
    requires a.Object? && WellFormed(a)
    ensures SizeOf(Header(a)) == Some(|a.content|)
    ensures !EndsWith(Header(a), MISSING) && NEWLINE !in Header(a)
  {
    var digits := Print(|a.content|);
    DigitsHaveNo(digits, SPACE);
    ThirdField(a.id, a.kind, digits);
    PrintedNumber(|a.content|);
    HeaderIsPlain(a);
  }

  lemma HeaderIsPlain(a: Answer)
    requires a.Object? && WellFormed(a)
    ensures !EndsWith(Header(a), MISSING) && NEWLINE !in Header(a)
  {
    var digits, header := Print(|a.content|), Header(a);
    DigitsHaveNo(digits, NEWLINE);
    assert header[|header| - 1] == digits[|digits| - 1];
  }

  lemma PrintedNumber(n: nat)
    ensures ParseInt(Print(n)) == Some(n)
  {
    var digits := Print(n);
    assert IsDigit(digits[0]);
    DigitEndIs(digits, 0, |digits|);
    assert digits[0..|digits|] == digits;
    ValuePrint(n);
  }

  lemma ReadPresent(a: Answer, tail: seq<Byte>, path: Path)
    requires a.Object? && WellFormed(a)
    ensures ReadOne(PrintAnswer(a) + tail, path) == Piece(a.content, tail)
  {
    HeaderSize(a);
    ReadPrinted(Header(a), a.content, tail, path);
    PrintedParts(a, tail);
  }

  lemma PrintedParts(a: Answer, tail: seq<Byte>)
    requires a.Object?
    ensures PrintAnswer(a) + tail == Header(a) + [NEWLINE] + (a.content + [NEWLINE] + tail)
  {
  }

  lemma ReadPrinted(header: seq<Byte>, content: seq<Byte>, tail: seq<Byte>, path: Path)
    requires SizeOf(header) == Some(|content|) && !EndsWith(header, MISSING) && NEWLINE !in header
    ensures ReadOne(header + [NEWLINE] + (content + [NEWLINE] + tail), path) == Piece(content, tail)
  {
    var body := content + [NEWLINE] + tail;
    SplitHeader(header, body);
    ReadSized(header + [NEWLINE] + body, path, |header|, header, Some(|content|));
    CutContent(content, tail, path);
  }

  lemma SplitHeader(header: seq<Byte>, body: seq<Byte>)
    requires NEWLINE !in header
    ensures
      var s := header + [NEWLINE] + body;
      IndexOf(s, NEWLINE, 0) == |header| < |s| && s[..|header|] == header && s[|header| + 1..] == body
  {
    IndexOfFirst(header, NEWLINE, body);
  }

  lemma CutContent(content: seq<Byte>, tail: seq<Byte>, path: Path)
    ensures Cut(content + [NEWLINE] + tail, |content|, path) == Piece(content, tail)
  {
    var body := content + [NEWLINE] + tail;
    assert body[..|content|] == content && body[|content| + 1..] == tail;
  }

  lemma ReadAbsent(a: Answer, tail: seq<Byte>, path: Path)
    requires a.Absent? && WellFormed(a)
    ensures ReadOne(PrintAnswer(a) + tail, path) == Bad(Missing(path))
  {
    var s, header := PrintAnswer(a) + tail, Header(a);
    assert s == header + [NEWLINE] + tail;
    IndexOfFirst(header, NEWLINE, tail);
    assert s[..|header|] == header;
    assert header[|header| - |MISSING|..] == MISSING;
  }

  /** The contents the answers give the paths; a repeated path keeps its last answer. */
  function Contents(paths: seq<Path>, answers: seq<Answer>, before: map<Path, seq<Byte>>): map<Path, seq<Byte>>
    requires |paths| == |answers| && forall a | a in answers :: a.Object?
  {
    if paths == [] then before
    else
      assert answers[0] in answers;
      Contents(paths[1..], answers[1..], before[paths[0] := answers[0].content])
  }

  /**
   * Whatever bytes the objects contain, reading the batch of existing objects gives back exactly
   * their contents and consumes the whole output.
   */
  lemma {:induction false} ReadBatch(paths: seq<Path>, answers: seq<Answer>, before: map<Path, seq<Byte>>)
    requires |paths| == |answers| && forall a | a in answers :: a.Object? && WellFormed(a)
    ensures ReadAll(Batch(answers), paths, before) == (Ok(Contents(paths, answers, before)), [])
    decreases |paths|
  {
    if paths != [] {
      assert answers[0] in answers;
      ReadPresentFirst(paths, answers, before);
      ReadBatch(paths[1..], answers[1..], before[paths[0] := answers[0].content]);
    }
  }

  lemma ReadPresentFirst(paths: seq<Path>, answers: seq<Answer>, before: map<Path, seq<Byte>>)
    requires paths != [] && answers != [] && answers[0].Object? && WellFormed(answers[0])
    ensures
      ReadAll(Batch(answers), paths, before) ==
      ReadAll(Batch(answers[1..]), paths[1..], before[paths[0] := answers[0].content])
  {
    ReadPresent(answers[0], Batch(answers[1..]), paths[0]);
    ReadOn(Batch(answers), paths[0], paths, before, answers[0].content, Batch(answers[1..]));
  }

  lemma ReadAbsentFirst(paths: seq<Path>, answers: seq<Answer>, before: map<Path, seq<Byte>>)
    requires paths != [] && answers != [] && answers[0].Absent? && WellFormed(answers[0])
    ensures ReadAll(Batch(answers), paths, before).0 == Err(Missing(paths[0]))
  {
    ReadAbsent(answers[0], Batch(answers[1..]), paths[0]);
    ReadStops(Batch(answers), paths[0], paths, before, Missing(paths[0]));
  }

  /** Object `k` does not exist, and all before it do. */
  predicate FirstAbsent(answers: seq<Answer>, k: nat) {
    && k < |answers| && answers[k].Absent?
    && forall i | 0 <= i <= k :: WellFormed(answers[i]) && (i < k ==> answers[i].Object?)
  }

  lemma FirstAbsentLater(answers: seq<Answer>, k: nat)
    requires FirstAbsent(answers, k) && k > 0
    ensures answers[0].Object? && WellFormed(answers[0]) && FirstAbsent(answers[1..], k - 1)
  {
  }

  /** The first object that does not exist is the one that is reported. */
  lemma {:induction false} ReadBatchMissing(paths: seq<Path>, answers: seq<Answer>, before: map<Path, seq<Byte>>,
                                            k: nat)
    requires |paths| == |answers| && FirstAbsent(answers, k)
    ensures ReadAll(Batch(answers), paths, before).0 == Err(Missing(paths[k]))
    decreases k
  {
    if k == 0 {
      ReadAbsentFirst(paths, answers, before);
    } else {
      FirstAbsentLater(answers, k);
      ReadPresentFirst(paths, answers, before);
      var more := before[paths[0] := answers[0].content];
      ReadBatchMissing(paths[1..], answers[1..], more, k - 1);
      assert paths[1..][k - 1] == paths[k];
    }
  }

  // ----- the format, told by its text

  /** What git prints for an object that exists, and for one that does not. */
  lemma {:induction false} AnswerText(a: Answer)
    ensures a.Object? ==>
              PrintAnswer(a)
              == a.id + Ascii(" ") + a.kind + Ascii(" ") + Print(|a.content|) + Ascii("\n") + a.content + Ascii("\n")
    ensures a.Absent? ==> PrintAnswer(a) == a.name + Ascii(" missing\n")
  {
    assert Ascii(" ") == [SPACE] && Ascii("\n") == [NEWLINE];
    assert Ascii(" missing\n") == MISSING + [NEWLINE];
  }

  lemma {:induction false} NumberStarts(s: seq<Byte>, from: nat, start: nat)
    requires from <= start <= |s| && forall k | from <= k < start :: s[k] in [9, 10, 11, 12, 13, 32]
    requires start < |s| ==> s[start] !in [9, 10, 11, 12, 13, 32]
    ensures NumberStart(s, from) == start
    decreases start - from
  {
    if from < start {
      NumberStarts(s, from + 1, start);
    }
  }

  /** Where the number's parts stand. */
  predicate NumberAt(s: seq<Byte>, start: nat, first: nat, end: nat) {
    && start <= first <= end <= |s|
    && (forall k | 0 <= k < start :: s[k] in [9, 10, 11, 12, 13, 32])
    && (if first == start then start < |s| ==> s[start] !in [9, 10, 11, 12, 13, 32, 43, 45]
        else first == start + 1 && s[start] in [43, 45])
    && (forall k | first <= k < end :: IsDigit(s[k]))
    && (end < |s| ==> !IsDigit(s[end]))
  }

  /**
   * A number in the third field may stand behind white space and a plus or minus, and before anything that is no
   * digit; without a digit there it is none.
   */
  lemma {:induction false} ReadsNumber(s: seq<Byte>, start: nat, first: nat, end: nat)
    requires NumberAt(s, start, first, end)
    ensures
      var size: int := Value(s[first..end]);
      ParseInt(s) ==
      if end == first then None else Some(if first == start + 1 && s[start] == '-' as int then -size else size)
  {
    NumberStarts(s, 0, start);
    DigitEndIs(s, first, end);
  }

  /** The sizes that are taken: those up to the greatest safe integer. */
  lemma {:induction false} SizeLimit(id: seq<Byte>, kind: seq<Byte>, n: nat)
    requires SPACE !in id && SPACE !in kind
    ensures SizeOf(id + Ascii(" ") + (kind + Ascii(" ") + Print(n)))
         == if n <= 9007199254740991 then Some(n) else None
  {
    assert Ascii(" ") == [SPACE];
    DigitsHaveNo(Print(n), SPACE);
    ThirdField(id, kind, Print(n));
    PrintedNumber(n);
  }

  /** An answer that is cut short anywhere is an error: in its header a missing one, behind it a truncated one. */
  lemma {:induction false} CutShort(a: Answer, k: nat, path: Path)
    requires a.Object? && WellFormed(a) && k < |PrintAnswer(a)|
    ensures ReadOne(PrintAnswer(a)[..k], path)
         == Bad(if k <= |Header(a)| then NoHeader(path) else Truncated(path))
  {
    HeaderSize(a);
    if k <= |Header(a)| {
      CutInHeader(Header(a), PrintAnswer(a), k, path);
    } else {
      assert PrintAnswer(a) == Header(a) + [NEWLINE] + (a.content + [NEWLINE]);
      CutInContent(Header(a), a.content, k - |Header(a)| - 1, path);
      CutBehind(Header(a) + [NEWLINE], a.content + [NEWLINE], k);
    }
  }

  lemma {:induction false} CutInHeader(header: seq<Byte>, all: seq<Byte>, k: nat, path: Path)
    requires NEWLINE !in header && k <= |header| && header <= all
    ensures ReadOne(all[..k], path) == Bad(NoHeader(path))
  {
    assert all[..k] == header[..k];
    IndexOfNone(all[..k], NEWLINE);
  }

  lemma CutBehind(a: seq<Byte>, b: seq<Byte>, k: nat)
    requires |a| <= k <= |a| + |b|
    ensures (a + b)[..k] == a + b[..k - |a|]
  {
  }

  lemma {:induction false} CutInContent(header: seq<Byte>, content: seq<Byte>, n: nat, path: Path)
    requires SizeOf(header) == Some(|content|) && !EndsWith(header, MISSING) && NEWLINE !in header
    requires n <= |content|
    ensures ReadOne(header + [NEWLINE] + (content + [NEWLINE])[..n], path) == Bad(Truncated(path))
  {
    var body := (content + [NEWLINE])[..n];
    SplitHeader(header, body);
    ReadSized(header + [NEWLINE] + body, path, |header|, header, Some(|content|));
  }
}
