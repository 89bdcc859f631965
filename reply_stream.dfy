/**
 * Assembly of the assistant reply from a streamed chat completion.
 *
 * The completion service delivers a finite sequence of chunks; the script walks
 * them in arrival order, skips chunks that carry no choice or no delta, maps a
 * null delta content to the empty string, collects the rest in a list and joins
 * that list into the reply text.
 */
module ReplyStream {
  import opened Wrappers

  /** `choices[0].delta` of a stream chunk; `content` is null on role-only and final deltas. */
  datatype Delta = Delta(content: Option<string>)

  /** One entry of a chunk's `choices`; `delta` may be missing. */
  datatype Choice = Choice(delta: Option<Delta>)

  /** One element of the stream; `choices` may be empty (e.g. content-filter or keep-alive chunks). */
  datatype Chunk = Chunk(choices: seq<Choice>)

  /**
   * Line 75: true when the loop skips the chunk, i.e. it has no choice or its
   * first choice has no delta. A chunk that is not skipped has a first choice
   * with a delta, so line 77 can read it.
   */
  predicate Skipped(c: Chunk)
    ensures c.choices == [] ==> Skipped(c)
    ensures !Skipped(c) ==> |c.choices| > 0 && c.choices[0].delta.Some?
  {
    c.choices == [] || c.choices[0].delta.None?
  }

  /** Line 77: the string the loop appends for a chunk it does not skip; a null content becomes "". */
  function Content(c: Chunk): (text: string)
    requires !Skipped(c)
    ensures c.choices[0].delta.value.content.None? ==> text == ""
    ensures c.choices[0].delta.value.content.Some? ==> text == c.choices[0].delta.value.content.value
  {
    c.choices[0].delta.value.content.GetOr("")
  }

  /** The list `collected_chunks` after the loop has consumed `stream`. */
  function Collected(stream: seq<Chunk>): (pieces: seq<string>)
    ensures |pieces| <= |stream|
  {
    if stream == [] then []
    else
      var last := stream[|stream| - 1];
      Collected(stream[..|stream| - 1]) + (if Skipped(last) then [] else [Content(last)])
  }

  /** The sum of the lengths of `pieces`. */
  function TotalLength(pieces: seq<string>): nat
  {
    if pieces == [] then 0 else TotalLength(pieces[..|pieces| - 1]) + |pieces[|pieces| - 1]|
  }

  /** `"".join(pieces)`. */
  function Join(pieces: seq<string>): (text: string)
    ensures |text| == TotalLength(pieces)
  {
    if pieces == [] then "" else Join(pieces[..|pieces| - 1]) + pieces[|pieces| - 1]
  }

  /**
   * `full_response`: the joined pieces collected from the whole stream. Its
   * length is the sum of the pieces' lengths.
   */
  function Reply(stream: seq<Chunk>): (text: string)
    ensures |text| == TotalLength(Collected(stream))
  {
    Join(Collected(stream))
  }

  /**
   * The collecting loop and the join. The list it builds is the one the
   * specification function Collected describes, and the reply is its join,
   * so its length is the sum of the collected pieces' lengths.
   */
  method AssembleReply(stream: seq<Chunk>) returns (collected: seq<string>, fullResponse: string)
    ensures collected == Collected(stream)
    ensures fullResponse == Reply(stream)
    ensures |fullResponse| == TotalLength(collected)
  {
    collected := [];
    for i := 0 to |stream|
      invariant collected == Collected(stream[..i])
    {
      var chunk := stream[i];
      assert stream[..i + 1][..i] == stream[..i];
      if chunk.choices == [] || chunk.choices[0].delta.None? {
        continue;
      }
      var content := chunk.choices[0].delta.value.content.GetOr("");
      collected := collected + [content];
    }
    assert stream[..|stream|] == stream;
    fullResponse := Join(collected);
  }

  /** Joining is compatible with concatenation: nothing is reordered or dropped. */
  lemma {:induction false} JoinConcat(a: seq<string>, b: seq<string>)
    ensures Join(a + b) == Join(a) + Join(b)
  {
    if b == [] {
      assert a + b == a;
    } else {
      var front := b[..|b| - 1];
      assert (a + b)[..|a + b| - 1] == a + front;
      assert (a + b)[|a + b| - 1] == b[|b| - 1];
      JoinConcat(a, front);
    }
  }

  /** Collecting a stream split in two collects each half, in order. */
  lemma {:induction false} CollectedConcat(a: seq<Chunk>, b: seq<Chunk>)
    ensures Collected(a + b) == Collected(a) + Collected(b)
  {
    if b == [] {
      assert a + b == a;
    } else {
      var front := b[..|b| - 1];
      assert (a + b)[..|a + b| - 1] == a + front;
      assert (a + b)[|a + b| - 1] == b[|b| - 1];
      CollectedConcat(a, front);
    }
  }

  /** The reply of a stream split in two is the reply of the first part followed by that of the second. */
  lemma ReplyConcat(a: seq<Chunk>, b: seq<Chunk>)
    ensures Reply(a + b) == Reply(a) + Reply(b)
  {
    CollectedConcat(a, b);
    JoinConcat(Collected(a), Collected(b));
  }

  /** What a single chunk contributes to the collected list. */
  lemma CollectedSingle(c: Chunk)
    ensures Collected([c]) == if Skipped(c) then [] else [Content(c)]
  {
  }

  /** A chunk with no choices, or whose first choice has no delta, changes neither the list nor the reply. */
  lemma SkippedChunkContributesNothing(before: seq<Chunk>, c: Chunk, after: seq<Chunk>)
    requires c.choices == [] || c.choices[0].delta.None?
    ensures Collected(before + [c] + after) == Collected(before + after)
    ensures Reply(before + [c] + after) == Reply(before + after)
  {
    CollectedSingle(c);
    CollectedConcat(before, [c]);
    assert Collected(before + [c]) == Collected(before);
    CollectedConcat(before + [c], after);
    CollectedConcat(before, after);
  }

  /** A delta whose content is null adds one empty string to the list and nothing to the reply. */
  lemma NullContentContributesEmpty(before: seq<Chunk>, c: Chunk, after: seq<Chunk>)
    requires c.choices != [] && c.choices[0].delta.Some? && c.choices[0].delta.value.content.None?
    ensures Collected(before + [c] + after) == Collected(before) + [""] + Collected(after)
    ensures Reply(before + [c] + after) == Reply(before + after)
  {
    CollectedConcat(before + [c], after);
    CollectedConcat(before, [c]);
    CollectedSingle(c);
    var pre, post := Collected(before), Collected(after);
    assert Collected(before + [c] + after) == pre + [""] + post;
    JoinConcat(pre + [""], post);
    JoinConcat(pre, [""]);
    assert [""][..0] == [];
    assert Join([""]) == "";
    assert Join(pre + [""]) == Join(pre);
    ReplyConcat(before, after);
  }

  /** A delta carrying text places that text, unchanged, between the replies of what came before and after. */
  lemma ContentChunkAppendsInOrder(before: seq<Chunk>, c: Chunk, after: seq<Chunk>, text: string)
    requires c.choices != [] && c.choices[0].delta == Some(Delta(Some(text)))
    ensures Collected(before + [c] + after) == Collected(before) + [text] + Collected(after)
    ensures Reply(before + [c] + after) == Reply(before) + text + Reply(after)
  {
    CollectedConcat(before + [c], after);
    CollectedConcat(before, [c]);
    CollectedSingle(c);
    var pre, post := Collected(before), Collected(after);
    assert Collected(before + [c] + after) == pre + [text] + post;
    JoinConcat(pre + [text], post);
    JoinConcat(pre, [text]);
    assert [text][..0] == [];
    assert Join([text]) == text;
  }

  /**
   * Fragments "Hel", "lo", ", ", "world" with a chunk without choices, a chunk
   * without delta and a null-content delta interspersed assemble to "Hello, world".
   */
  lemma HelloWorldStream()
    ensures Reply([
      Chunk([Choice(Some(Delta(Some("Hel"))))]),
      Chunk([]),
      Chunk([Choice(Some(Delta(Some("lo"))))]),
      Chunk([Choice(None)]),
      Chunk([Choice(Some(Delta(Some(", "))))]),
      Chunk([Choice(Some(Delta(None)))]),
      Chunk([Choice(Some(Delta(Some("world"))))])
    ]) == "Hello, world"
  {
    var hel := Chunk([Choice(Some(Delta(Some("Hel"))))]);
    var lo := Chunk([Choice(Some(Delta(Some("lo"))))]);
    var comma := Chunk([Choice(Some(Delta(Some(", "))))]);
    var world := Chunk([Choice(Some(Delta(Some("world"))))]);
    var s0: seq<Chunk> := [];
    ReplyStep(s0, hel);
    var s1 := s0 + [hel];
    ReplyStep(s1, Chunk([]));
    var s2 := s1 + [Chunk([])];
    ReplyStep(s2, lo);
    var s3 := s2 + [lo];
    ReplyStep(s3, Chunk([Choice(None)]));
    var s4 := s3 + [Chunk([Choice(None)])];
    ReplyStep(s4, comma);
    var s5 := s4 + [comma];
    ReplyStep(s5, Chunk([Choice(Some(Delta(None)))]));
    var s6 := s5 + [Chunk([Choice(Some(Delta(None)))])];
    ReplyStep(s6, world);
    var s7 := s6 + [world];
    assert Reply(s7) == "Hello, world";
    assert s7 == [
      Chunk([Choice(Some(Delta(Some("Hel"))))]),
      Chunk([]),
      Chunk([Choice(Some(Delta(Some("lo"))))]),
      Chunk([Choice(None)]),
      Chunk([Choice(Some(Delta(Some(", "))))]),
      Chunk([Choice(Some(Delta(None)))]),
      Chunk([Choice(Some(Delta(Some("world"))))])
    ];
  }

  /** ReplySnoc read forwards: appending a chunk extends the reply by what that chunk adds. */
  lemma ReplyStep(s: seq<Chunk>, c: Chunk)
    ensures Reply(s + [c]) == Reply(s) + (if Skipped(c) then "" else Content(c))
  {
    ReplySnoc(s + [c]);
    assert (s + [c])[..|s|] == s;
  }

  /** The reply of a non-empty stream is the reply of all but its last chunk, followed by what the last chunk adds. */
  lemma ReplySnoc(s: seq<Chunk>)
    requires s != []
    ensures Reply(s) == Reply(s[..|s| - 1]) + (if Skipped(s[|s| - 1]) then "" else Content(s[|s| - 1]))
  {
    var last := s[|s| - 1];
    var piece := if Skipped(last) then [] else [Content(last)];
    JoinConcat(Collected(s[..|s| - 1]), piece);
    assert piece != [] ==> piece[..0] == [];
  }
}
