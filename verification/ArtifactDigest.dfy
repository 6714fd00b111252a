/** The byte stream behind the client artifact digest: every path and content, length first. */
module ArtifactDigest {
  import opened Decimal
  import opened Options

  datatype Artifact = Artifact(path: seq<Byte>, content: seq<Byte>)

  /** A length, a colon, and that many bytes. */
  function Frame(s: seq<Byte>): seq<Byte> {
    Print(|s|) + [COLON] + s
  }

  /** All the bytes that are hashed for a list of artifacts. */
  function Stream(artifacts: seq<Artifact>): seq<Byte> {
    if artifacts == [] then []
    else
      var last := artifacts[|artifacts| - 1];
      Stream(artifacts[..|artifacts| - 1]) + Frame(last.path) + Frame(last.content)
  }

  /** What one artifact adds to the stream. */
  lemma StreamGrows(artifacts: seq<Artifact>, a: Artifact)
    ensures Stream(artifacts + [a])
         == Stream(artifacts) + Print(|a.path|) + Ascii(":") + a.path + Print(|a.content|) + Ascii(":") + a.content
  {
    assert (artifacts + [a])[..|artifacts|] == artifacts && Ascii(":") == [COLON];
    Associate(Stream(artifacts), Print(|a.path|) + [COLON], a.path, Print(|a.content|) + [COLON], a.content);
    Regroup(Stream(artifacts), Print(|a.path|), [COLON], a.path, Print(|a.content|), a.content);
  }

  lemma Regroup(s: seq<Byte>, m: seq<Byte>, c: seq<Byte>, a: seq<Byte>, n: seq<Byte>, b: seq<Byte>)
    ensures s + (m + c) + a + (n + c) + b == s + m + c + a + n + c + b
  {
  }

  /** Feed the artifacts to the hash, update by update. */
  method FeedDigest(artifacts: seq<Artifact>) returns (fed: seq<Byte>)
    ensures fed == Stream(artifacts)
  {
    fed := [];
    for i := 0 to |artifacts|
      invariant fed == Stream(artifacts[..i])
    {
      var a := artifacts[i];
      fed := fed + (Print(|a.path|) + [COLON]);
      fed := fed + a.path;
      fed := fed + (Print(|a.content|) + [COLON]);
      fed := fed + a.content;
      assert artifacts[..i + 1][..i] == artifacts[..i];
      Associate(Stream(artifacts[..i]), Print(|a.path|) + [COLON], a.path, Print(|a.content|) + [COLON], a.content);
    }
    assert artifacts[..|artifacts|] == artifacts;
  }

  lemma Associate(s: seq<Byte>, a: seq<Byte>, b: seq<Byte>, c: seq<Byte>, d: seq<Byte>)
    ensures (((s + a) + b) + c) + d == (s + (a + b)) + (c + d)
  {
  }

  /** Split off one length-prefixed piece. */
  function Unframe(s: seq<Byte>): (r: Option<(seq<Byte>, seq<Byte>)>)
    ensures r.Some? ==> |r.value.1| < |s|
  {
    var n := DigitEnd(s, 0);
    if n == |s| || s[n] != COLON then None
    else
      var size, body := Value(s[..n]), s[n + 1..];
      if size > |body| then None else Some((body[..size], body[size..]))
  }

  function Decode(s: seq<Byte>): Option<seq<Artifact>>
    decreases |s|
  {
    if s == [] then Some([])
    else
      var path := Unframe(s);
      if path.None? then None
      else
        var content := Unframe(path.value.1);
        if content.None? then None
        else
          var rest := Decode(content.value.1);
          if rest.None? then None else Some([Artifact(path.value.0, content.value.0)] + rest.value)
  }

  lemma {:induction false} UnframeFrame(s: seq<Byte>, rest: seq<Byte>)
    ensures Unframe(Frame(s) + rest) == Some((s, rest))
  {
    var digits, all := Print(|s|), Frame(s) + rest;
    FrameParts(digits, s, rest);
    DigitEndIs(all, 0, |digits|);
    ValuePrint(|s|);
    assert s + rest == all[|digits| + 1..];
    assert (s + rest)[..|s|] == s && (s + rest)[|s|..] == rest;
  }

  lemma {:induction false} FrameParts(digits: seq<Byte>, s: seq<Byte>, rest: seq<Byte>)
    requires AllDigits(digits)
    ensures
      var all := digits + [COLON] + s + rest;
      && |all| > |digits| && all[..|digits|] == digits && all[|digits|] == COLON && all[|digits| + 1..] == s + rest
      && forall k | 0 <= k < |digits| :: IsDigit(all[k])
  {
    var all := digits + [COLON] + s + rest;
    assert forall k | 0 <= k < |digits| :: all[k] == digits[k];
  }

  lemma {:induction false} StreamSnoc(artifacts: seq<Artifact>, last: Artifact)
    ensures Stream(artifacts + [last]) == Stream(artifacts) + Frame(last.path) + Frame(last.content)
  {
    assert (artifacts + [last])[..|artifacts|] == artifacts;
  }

  /** The same bytes, split off from the front. */
  lemma {:induction false} StreamFront(first: Artifact, rest: seq<Artifact>)
    ensures Stream([first] + rest) == Frame(first.path) + (Frame(first.content) + Stream(rest))
  {
    if rest == [] {
      StreamOfOne(first);
      assert [first] + rest == [first];
    } else {
      var init, last := rest[..|rest| - 1], rest[|rest| - 1];
      StreamFront(first, init);
      StreamSnoc([first] + init, last);
      StreamSnoc(init, last);
      assert rest == init + [last] && [first] + rest == ([first] + init) + [last];
      Reassociate(Frame(first.path), Frame(first.content), Stream(init), Frame(last.path), Frame(last.content));
    }
  }

  lemma {:induction false} StreamOfOne(first: Artifact)
    ensures Stream([first]) == Frame(first.path) + (Frame(first.content) + Stream([]))
  {
    StreamSnoc([], first);
    assert [] + [first] == [first];
    var path, content: seq<Byte> := Frame(first.path), Frame(first.content);
    assert [] + path + content == path + (content + []);
  }

  lemma Reassociate(a: seq<Byte>, b: seq<Byte>, s: seq<Byte>, c: seq<Byte>, d: seq<Byte>)
    ensures (a + (b + s)) + c + d == a + (b + (s + c + d))
  {
  }

  /** The stream determines the artifacts: decoding gives back the very list. */
  lemma {:induction false} DecodeStream(artifacts: seq<Artifact>)
    ensures Decode(Stream(artifacts)) == Some(artifacts)
  {
    if artifacts != [] {
      var first, rest := artifacts[0], artifacts[1..];
      assert artifacts == [first] + rest;
      DecodeStream(rest);
      StreamFront(first, rest);
      DecodeFirst(first, rest);
    }
  }

  lemma {:induction false} DecodeFirst(first: Artifact, rest: seq<Artifact>)
    requires Decode(Stream(rest)) == Some(rest)
    ensures Decode(Frame(first.path) + (Frame(first.content) + Stream(rest))) == Some([first] + rest)
  {
    var tail := Frame(first.content) + Stream(rest);
    UnframeFrame(first.path, tail);
    UnframeFrame(first.content, Stream(rest));
    assert Frame(first.path) + tail != [];
  }

  /** Different artifact lists never feed the hash the same bytes, whatever bytes they contain. */
  lemma StreamInjective(a: seq<Artifact>, b: seq<Artifact>)
    requires Stream(a) == Stream(b)
    ensures a == b
  {
    DecodeStream(a);
    DecodeStream(b);
  }
}
