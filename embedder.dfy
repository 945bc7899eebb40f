/**
 * `_embed_texts`: the texts go to the embedding service in batches of 64,
 * each text with its newlines replaced by spaces; the vectors come back in
 * order, and anything but one row per text of one common length is an
 * error. The service is the parameter `embed`: a batch in, its vectors or
 * the message of the exception it raised out.
 */
module Embedder {
  import opened Wrappers

  const BatchSize: nat := 64

  type Vector = seq<real>

  /** The exceptions `_embed_texts` lets out: the service's own, or its shape check. */
  datatype EmbedError = RemoteError(message: string) | ShapeMismatch

  /** `str(e)` of an embedding exception. */
  function ErrorMessage(e: EmbedError): string
  {
    match e
    case RemoteError(m) => m
    case ShapeMismatch => "Embedding shape mismatch."
  }

  /** `t.replace("\n", " ")`: every newline becomes a space, nothing else changes. */
  function Sanitize(t: string): (r: string)
    ensures |r| == |t|
    ensures forall i :: 0 <= i < |r| ==> r[i] != '\n'
    ensures forall i :: 0 <= i < |t| && t[i] != '\n' ==> r[i] == t[i]
    ensures forall i :: 0 <= i < |t| && t[i] == '\n' ==> r[i] == ' '
  {
    seq(|t|, i requires 0 <= i < |t| => if t[i] == '\n' then ' ' else t[i])
  }

  function SanitizeAll(ts: seq<string>): (r: seq<string>)
    ensures |r| == |ts|
  {
    seq(|ts|, i requires 0 <= i < |ts| => Sanitize(ts[i]))
  }

  /** The batch sent for the texts from offset `i`: the next (at most) 64 of them, sanitised. */
  function BatchAt(texts: seq<string>, i: nat): seq<string>
    requires i < |texts|
  {
    SanitizeAll(texts[i..Min(|texts|, i + BatchSize)])
  }

  /** The batches for the texts from offset `i` on, in order. */
  function BatchesFrom(texts: seq<string>, i: nat): seq<seq<string>>
    decreases |texts| - i
  {
    if i >= |texts| then [] else [BatchAt(texts, i)] + BatchesFrom(texts, i + BatchSize)
  }

  function Flatten(bs: seq<seq<string>>): seq<string>
    decreases |bs|
  {
    if bs == [] then [] else bs[0] + Flatten(bs[1..])
  }

  /** Every batch holds between 1 and 64 texts. */
  predicate Sized(bs: seq<seq<string>>)
  {
    forall j :: 0 <= j < |bs| ==> 0 < |bs[j]| <= BatchSize
  }

  lemma SizedCons(b: seq<string>, rest: seq<seq<string>>)
    requires 0 < |b| <= BatchSize && Sized(rest)
    ensures Sized([b] + rest)
  {
    var bs := [b] + rest;
    forall j | 0 <= j < |bs|
      ensures 0 < |bs[j]| <= BatchSize
    {
      if j > 0 {
        assert bs[j] == rest[j - 1];
      }
    }
  }

  /** No batch is empty or larger than 64. */
  lemma {:induction false} BatchesSized(texts: seq<string>, i: nat)
    ensures Sized(BatchesFrom(texts, i))
    decreases |texts| - i
  {
    if i < |texts| {
      BatchesSized(texts, i + BatchSize);
      SizedCons(BatchAt(texts, i), BatchesFrom(texts, i + BatchSize));
    }
  }

  /** Sanitising a list piece by piece is sanitising the whole list. */
  lemma SanitizeAllAppend(a: seq<string>, b: seq<string>)
    ensures SanitizeAll(a + b) == SanitizeAll(a) + SanitizeAll(b)
  {
    var l := SanitizeAll(a + b);
    var r := SanitizeAll(a) + SanitizeAll(b);
    forall k | 0 <= k < |l|
      ensures l[k] == r[k]
    {
      if k < |a| {
        assert (a + b)[k] == a[k];
      } else {
        assert (a + b)[k] == b[k - |a|];
      }
    }
  }

  /**
   * The batches from offset `i` hold, in order, every text from `i` on
   * exactly once, sanitised.
   */
  lemma {:induction false} BatchesCover(texts: seq<string>, i: nat)
    requires i <= |texts|
    ensures Flatten(BatchesFrom(texts, i)) == SanitizeAll(texts[i..])
    decreases |texts| - i
  {
    if i < |texts| {
      var end := Min(|texts|, i + BatchSize);
      var bs := BatchesFrom(texts, i);
      var rest := BatchesFrom(texts, i + BatchSize);
      assert bs[0] == BatchAt(texts, i) && bs[1..] == rest;
      assert texts[i..] == texts[i..end] + texts[end..];
      SanitizeAllAppend(texts[i..end], texts[end..]);
      if end == |texts| {
        assert rest == [];
        assert SanitizeAll(texts[end..]) == [];
        assert BatchAt(texts, i) + [] == BatchAt(texts, i);
      } else {
        BatchesCover(texts, end);
      }
    } else {
      assert SanitizeAll(texts[i..]) == [];
    }
  }

  /** Every text is sent exactly once, sanitised, in order, in batches of 1 to 64. */
  lemma BatchesOfTexts(texts: seq<string>)
    ensures Flatten(BatchesFrom(texts, 0)) == SanitizeAll(texts)
    ensures Sized(BatchesFrom(texts, 0))
  {
    BatchesCover(texts, 0);
    assert texts[0..] == texts;
    BatchesSized(texts, 0);
  }

  /** The vectors gathered batch by batch after `acc`, or the first batch's exception. */
  function Gather(bs: seq<seq<string>>, acc: seq<Vector>, embed: seq<string> -> Result<seq<Vector>, string>): Result<seq<Vector>, string>
    decreases |bs|
  {
    if bs == [] then Success(acc)
    else
      match embed(bs[0])
      case Failure(e) => Failure(e)
      case Success(vs) => Gather(bs[1..], acc + vs, embed)
  }

  /** `np.array(vectors).ndim == 2`: at least one row, and every row as long as the first. */
  predicate Matrix(vs: seq<Vector>)
  {
    |vs| > 0 && forall i :: 0 <= i < |vs| ==> |vs[i]| == |vs[0]|
  }

  /** What `_embed_texts(texts)` returns or raises, before the L2 normalisation. */
  function EmbedSpec(texts: seq<string>, embed: seq<string> -> Result<seq<Vector>, string>): Result<seq<Vector>, EmbedError>
  {
    match Gather(BatchesFrom(texts, 0), [], embed)
    case Failure(e) => Failure(RemoteError(e))
    case Success(vs) => if !Matrix(vs) || |vs| != |texts| then Failure(ShapeMismatch) else Success(vs)
  }

  /** One pass of the batch loop, in the shape of the loop body. */
  lemma GatherStep(texts: seq<string>, i: nat, acc: seq<Vector>, embed: seq<string> -> Result<seq<Vector>, string>)
    requires i < |texts|
    ensures Gather(BatchesFrom(texts, i), acc, embed) ==
      match embed(BatchAt(texts, i))
      case Failure(e) => Failure(e)
      case Success(vs) => Gather(BatchesFrom(texts, i + BatchSize), acc + vs, embed)
  {
    var bs := BatchesFrom(texts, i);
    assert bs[0] == BatchAt(texts, i) && bs[1..] == BatchesFrom(texts, i + BatchSize);
  }

  /**
   * The batch loop of `_embed_texts`: one service call per batch of 64,
   * the returned vectors appended in order; an exception from the service
   * ends it; then the shape check.
   */
  method EmbedTexts(texts: seq<string>, embed: seq<string> -> Result<seq<Vector>, string>)
    returns (r: Result<seq<Vector>, EmbedError>)
    ensures r == EmbedSpec(texts, embed)
  {
    var vectors: seq<Vector> := [];
    var i: nat := 0;
    ghost var total := Gather(BatchesFrom(texts, 0), [], embed);
    while i < |texts|
      invariant Gather(BatchesFrom(texts, i), vectors, embed) == total
      decreases |texts| - i
    {
      var batch := SanitizeAll(texts[i..Min(|texts|, i + BatchSize)]);
      var resp := embed(batch);
      GatherStep(texts, i, vectors, embed);
      if resp.Failure? {
        return Failure(RemoteError(resp.error));
      }
      vectors := vectors + resp.value;
      i := i + BatchSize;
    }
    if !Matrix(vectors) || |vectors| != |texts| {
      return Failure(ShapeMismatch);
    }
    return Success(vectors);
  }

  /** Rows all `d` long. */
  predicate Rows(vs: seq<Vector>, d: nat)
  {
    forall i :: 0 <= i < |vs| ==> |vs[i]| == d
  }

  /** A service that answers every batch with one `d`-long row per text. */
  ghost predicate Faithful(embed: seq<string> -> Result<seq<Vector>, string>, d: nat)
  {
    forall b :: embed(b).Success? && |embed(b).value| == |b| && Rows(embed(b).value, d)
  }

  lemma RowsAppend(a: seq<Vector>, b: seq<Vector>, d: nat)
    requires Rows(a, d) && Rows(b, d)
    ensures Rows(a + b, d)
  {
    var c := a + b;
    forall i | 0 <= i < |c|
      ensures |c[i]| == d
    {
      if i >= |a| {
        assert c[i] == b[i - |a|];
      }
    }
  }

  /** Against a faithful service gathering never fails and yields one row per text sent. */
  lemma {:induction false} GatherFaithful(bs: seq<seq<string>>, acc: seq<Vector>, embed: seq<string> -> Result<seq<Vector>, string>, d: nat)
    requires Faithful(embed, d) && Rows(acc, d)
    ensures Gather(bs, acc, embed).Success?
    ensures |Gather(bs, acc, embed).value| == |acc| + |Flatten(bs)|
    ensures Rows(Gather(bs, acc, embed).value, d)
    decreases |bs|
  {
    if bs != [] {
      var vs := embed(bs[0]).value;
      RowsAppend(acc, vs, d);
      GatherFaithful(bs[1..], acc + vs, embed, d);
    }
  }

  /**
   * Against a faithful service, a non-empty list of texts gets one vector
   * per text; the shape check only rejects what such a service never sends.
   */
  lemma EmbedFaithful(texts: seq<string>, embed: seq<string> -> Result<seq<Vector>, string>, d: nat)
    requires Faithful(embed, d) && texts != []
    ensures EmbedSpec(texts, embed).Success?
    ensures |EmbedSpec(texts, embed).value| == |texts|
  {
    BatchesOfTexts(texts);
    GatherFaithful(BatchesFrom(texts, 0), [], embed, d);
  }

  /** Success means exactly one vector per text, all of one length; no text at all is always a shape error. */
  lemma EmbedResultShape(texts: seq<string>, embed: seq<string> -> Result<seq<Vector>, string>)
    ensures EmbedSpec(texts, embed).Success? ==>
      |EmbedSpec(texts, embed).value| == |texts| && Matrix(EmbedSpec(texts, embed).value)
    ensures texts == [] ==> EmbedSpec(texts, embed) == Failure(ShapeMismatch)
  {
  }
}
