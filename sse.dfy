/**
 * Server-sent-event framing as the RAG backend writes it: an `event:`
 * line, a `data:` line holding the JSON payload, and a blank line. A
 * reader that splits the body back into frames recovers every frame as
 * long as neither the event name nor the payload holds a newline, which
 * `json.dumps` without indentation never produces.
 */
module Sse {
  import opened Wrappers
  import opened Text

  /** One frame: the event name and its serialised payload. */
  datatype Frame = Frame(event: string, data: string)

  /** `_sse(event, data)` once the payload is serialised. */
  function Encode(f: Frame): string
  {
    "event: " + f.event + "\n" + "data: " + f.data + "\n\n"
  }

  /** The response body: the frames one after the other. */
  function Render(frames: seq<Frame>): string
    decreases |frames|
  {
    if frames == [] then [] else Encode(frames[0]) + Render(frames[1..])
  }

  predicate SingleLine(s: string)
  {
    forall i :: 0 <= i < |s| ==> s[i] != '\n'
  }

  /** A reader of one frame at the front of `s`: the frame and the length it takes up. */
  function ParseFrame(s: string): (r: Option<(Frame, nat)>)
    ensures r.Some? ==> 0 < r.value.1 <= |s|
  {
    if !StartsWith(s, "event: ") then None
    else
      var e := IndexOf(s, '\n', 7);
      if e == |s| || !StartsWith(s[e + 1..], "data: ") then None
      else
        var d := IndexOf(s, '\n', e + 7);
        if d + 1 >= |s| || s[d + 1] != '\n' then None
        else Some((Frame(s[7..e], s[e + 7..d]), d + 2))
  }

  /** A reader of a whole body: frames until the text is used up, `None` on anything else. */
  function ParseAll(s: string): Option<seq<Frame>>
    decreases |s|
  {
    if s == [] then Some([])
    else
      match ParseFrame(s)
      case None => None
      case Some((f, k)) =>
        match ParseAll(s[k..])
        case None => None
        case Some(fs) => Some([f] + fs)
  }

  /** Where each part of an encoded frame sits. */
  lemma EncodeLayout(f: Frame, rest: string)
    ensures var s := Encode(f) + rest;
      var e := 7 + |f.event|;
      var d := e + 7 + |f.data|;
      |Encode(f)| == d + 2 &&
      s[..7] == "event: " && s[7..e] == f.event && s[e] == '\n' &&
      s[e + 1..e + 7] == "data: " && s[e + 7..d] == f.data &&
      s[d] == '\n' && s[d + 1] == '\n' && s[d + 2..] == rest
  {
  }

  /** The reader takes a single-line frame back off the front of any text. */
  lemma ParseEncode(f: Frame, rest: string)
    requires SingleLine(f.event) && SingleLine(f.data)
    ensures ParseFrame(Encode(f) + rest) == Some((f, |Encode(f)|))
  {
    var s := Encode(f) + rest;
    var e := 7 + |f.event|;
    var d := e + 7 + |f.data|;
    EncodeLayout(f, rest);
    assert s[7..e] == f.event;
    forall j | 7 <= j < e
      ensures s[j] != '\n'
    {
      assert s[j] == f.event[j - 7];
    }
    IndexOfAt(s, '\n', 7, e);
    assert s[e + 1..][..6] == s[e + 1..e + 7];
    forall j | e + 7 <= j < d
      ensures s[j] != '\n'
    {
      assert s[j] == f.data[j - e - 7];
    }
    IndexOfAt(s, '\n', e + 7, d);
  }

  /** Reading a rendered body gives back exactly the frames written, in order. */
  lemma {:induction false} ParseRender(frames: seq<Frame>)
    requires forall i :: 0 <= i < |frames| ==> SingleLine(frames[i].event) && SingleLine(frames[i].data)
    ensures ParseAll(Render(frames)) == Some(frames)
    decreases |frames|
  {
    if frames != [] {
      var f := frames[0];
      var rest := Render(frames[1..]);
      ParseEncode(f, rest);
      EncodeLayout(f, rest);
      ParseRender(frames[1..]);
      assert [f] + frames[1..] == frames;
    }
  }
}
