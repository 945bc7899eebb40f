/**
 * What the OpenAI SDK hands the two backends while a reply streams, and
 * the text fragments they forward from it. The service itself is not
 * modelled: a `Stream` is the sequence of events the backend would read,
 * up to the exception that ends it early, if any.
 */
module Upstream {
  import opened Wrappers

  /** The Responses API event type that carries a piece of output text. */
  const OutputTextDelta: string := "response.output_text.delta"

  /** One Responses streaming event: its `type` and `delta` attributes, `None` where absent. */
  datatype ResponseEvent = ResponseEvent(kind: Option<string>, delta: Option<string>)

  /** The `delta` object of a chat-completions choice, with its `content` attribute. */
  datatype Delta = Delta(content: Option<string>)

  /** One chat-completions choice, with its `delta` attribute (`None` when absent or null). */
  datatype Choice = Choice(delta: Option<Delta>)

  /** One chat-completions stream chunk; `choices` is `None` when absent or null. */
  datatype CompletionChunk = CompletionChunk(choices: Option<seq<Choice>>)

  /**
   * The stream a backend reads: the events of the Responses API when the
   * client has a `responses` attribute, otherwise the chunks of the
   * chat-completions API, in arrival order; `failure` is the message of
   * the exception raised after the last of them (by the call that opens
   * the stream when there is no event at all).
   */
  datatype Stream =
    | Responses(events: seq<ResponseEvent>, failure: Option<string>)
    | Completions(chunks: seq<CompletionChunk>, failure: Option<string>)

  /** The text a Responses event contributes: a non-empty delta of an output-text event. */
  function ResponseText(e: ResponseEvent): Option<string>
  {
    if e.kind == Some(OutputTextDelta) && e.delta.Some? && e.delta.value != [] then Some(e.delta.value) else None
  }

  /**
   * The text a chat-completions chunk contributes: the non-empty content
   * of the delta of its first choice; a chunk without choices, a choice
   * without delta, or an empty or missing content contributes nothing.
   */
  function CompletionText(c: CompletionChunk): Option<string>
  {
    if c.choices.None? || c.choices.value == [] then None
    else
      var d := c.choices.value[0].delta;
      if d.None? || d.value.content.None? || d.value.content.value == [] then None
      else Some(d.value.content.value)
  }

  /** The texts `pick` finds in `xs`, in order; items for which it finds none are skipped. */
  function Collect<T>(xs: seq<T>, pick: T -> Option<string>): seq<string>
    decreases |xs|
  {
    if xs == [] then []
    else (if pick(xs[0]).Some? then [pick(xs[0]).value] else []) + Collect(xs[1..], pick)
  }

  /** The fragments a backend forwards from a stream, in arrival order. */
  function Fragments(u: Stream): seq<string>
  {
    match u
    case Responses(events, _) => Collect(events, ResponseText)
    case Completions(chunks, _) => Collect(chunks, CompletionText)
  }

  /**
   * Forwarding is incremental: what is forwarded from two runs of events
   * read one after the other is what is forwarded from the first followed
   * by what is forwarded from the second.
   */
  lemma {:induction false} CollectAppend<T>(a: seq<T>, b: seq<T>, pick: T -> Option<string>)
    ensures Collect(a + b, pick) == Collect(a, pick) + Collect(b, pick)
    decreases |a|
  {
    if a != [] {
      assert (a + b)[0] == a[0];
      assert (a + b)[1..] == a[1..] + b;
      CollectAppend(a[1..], b, pick);
    } else {
      assert a + b == b;
    }
  }

  /** A single item forwards exactly what `pick` finds in it, or nothing. */
  lemma CollectOne<T>(x: T, pick: T -> Option<string>)
    ensures Collect([x], pick) == if pick(x).Some? then [pick(x).value] else []
  {
    assert [x][1..] == [];
  }

  /** When `pick` only finds non-empty texts, every forwarded fragment is non-empty. */
  lemma {:induction false} CollectNonEmpty<T>(xs: seq<T>, pick: T -> Option<string>)
    requires forall x :: pick(x).Some? ==> pick(x).value != []
    ensures forall i :: 0 <= i < |Collect(xs, pick)| ==> Collect(xs, pick)[i] != []
    decreases |xs|
  {
    if xs != [] {
      CollectNonEmpty(xs[1..], pick);
      var r := Collect(xs, pick);
      var rest := Collect(xs[1..], pick);
      var head := if pick(xs[0]).Some? then [pick(xs[0]).value] else [];
      assert r == head + rest;
      forall i | 0 <= i < |r|
        ensures r[i] != []
      {
        if i >= |head| {
          assert r[i] == rest[i - |head|];
        }
      }
    }
  }

  /** Only output-text events with a non-empty delta are forwarded, and exactly their delta. */
  lemma ResponseTextForwards(e: ResponseEvent)
    ensures Collect([e], ResponseText) ==
      if e.kind == Some(OutputTextDelta) && e.delta.Some? && e.delta.value != [] then [e.delta.value] else []
  {
    CollectOne(e, ResponseText);
  }

  /**
   * A chunk without choices, whose first choice has no delta, or whose
   * delta has no or empty content is skipped; any other forwards its content.
   */
  lemma CompletionTextForwards(c: CompletionChunk)
    ensures c.choices.None? || c.choices.value == [] ==> Collect([c], CompletionText) == []
    ensures c.choices.Some? && c.choices.value != [] && c.choices.value[0].delta.None? ==>
      Collect([c], CompletionText) == []
    ensures c.choices.Some? && c.choices.value != [] && c.choices.value[0].delta.Some? ==>
      var content := c.choices.value[0].delta.value.content;
      Collect([c], CompletionText) == if content.Some? && content.value != [] then [content.value] else []
  {
    CollectOne(c, CompletionText);
  }

  /** No forwarded fragment is empty. */
  lemma FragmentsNonEmpty(u: Stream)
    ensures forall i :: 0 <= i < |Fragments(u)| ==> Fragments(u)[i] != []
  {
    match u
    case Responses(events, _) => CollectNonEmpty(events, ResponseText);
    case Completions(chunks, _) => CollectNonEmpty(chunks, CompletionText);
  }
}
