/** What the three bulk loaders (code/SetRank/index_data_ESR.py,
    code/SetRank/index_data_TREC.py and code/baselines/TREC-BIO/index_data.py)
    share: each document becomes an index action naming its id followed by
    the document itself, the entries pile up until the document counter is
    a multiple of 500, and what is left at the end is sent as a last
    request. The requests themselves are outside the model; the sequence of
    request bodies is what the loop produces. */
module Bulk {
  import opened Seqs

  /** Documents per bulk request (`bulk_size`). */
  const BulkSize: nat := 500

  /** One entry of a bulk request body: the index action for a document
      (`{"index": {"_index", "_type", "_id"}}`), or the document itself. */
  datatype Entry<R> = Action(index: string, docType: string, id: string) | Source(doc: R)

  /** The body of a request carrying `docs`: per document, its action and
      then the document. */
  function Body<R>(index: string, docType: string, id: R -> string, docs: seq<R>): seq<Entry<R>>
    decreases |docs|
  {
    if |docs| == 0 then []
    else Body(index, docType, id, docs[..|docs| - 1])
         + [Action(index, docType, id(docs[|docs| - 1])), Source(docs[|docs| - 1])]
  }

  /** A body has two entries per document, in document order: the action
      keyed by the document's id at an even position, the document right
      after it. */
  lemma {:induction false} BodyLayout<R>(index: string, docType: string, id: R -> string, docs: seq<R>)
    ensures |Body(index, docType, id, docs)| == 2 * |docs|
    ensures forall k :: 0 <= k < |docs| ==>
              Body(index, docType, id, docs)[2 * k] == Action(index, docType, id(docs[k]))
              && Body(index, docType, id, docs)[2 * k + 1] == Source(docs[k])
    decreases |docs|
  {
    if |docs| > 0 {
      var init := docs[..|docs| - 1];
      BodyLayout(index, docType, id, init);
      forall k | 0 <= k < |init| ensures init[k] == docs[k] { }
    }
  }

  lemma BatchesGrow<R>(batches: seq<seq<R>>, pending: seq<R>, docs: seq<R>, i: nat)
    requires i < |docs|
    requires Flatten(batches) + pending == docs[..i]
    ensures Flatten(batches) + (pending + [docs[i]]) == docs[..i + 1]
    ensures Flatten(batches + [pending + [docs[i]]]) == docs[..i + 1]
  {
    assert docs[..i + 1] == docs[..i] + [docs[i]];
    FlattenAppend(batches, [pending + [docs[i]]]);
    assert Flatten([pending + [docs[i]]]) == pending + [docs[i]];
  }

  lemma FlushWhenFull(cnt: nat, full: nat, pending: nat)
    requires 1 <= pending <= BulkSize && cnt == full * BulkSize + pending
    ensures cnt % BulkSize == 0 <==> pending == BulkSize
  {
  }

  /** The batching loop: documents are sent in order, each exactly once;
      every request but the last carries exactly 500 documents and the
      last carries between one and 500; nothing is sent for no
      documents. Each request body is the `Body` of its documents. */
  method Batches<R>(index: string, docType: string, id: R -> string, docs: seq<R>)
    returns (batches: seq<seq<R>>, bodies: seq<seq<Entry<R>>>)
    ensures Flatten(batches) == docs
    ensures forall b :: 0 <= b < |batches| ==> 1 <= |batches[b]| <= BulkSize
    ensures forall b :: 0 <= b < |batches| - 1 ==> |batches[b]| == BulkSize
    ensures |batches| == (|docs| + BulkSize - 1) / BulkSize
    ensures |bodies| == |batches|
    ensures forall b :: 0 <= b < |bodies| ==> bodies[b] == Body(index, docType, id, batches[b])
  {
    batches, bodies := [], [];
    var pending: seq<R> := [];
    var data: seq<Entry<R>> := [];
    var cnt := 0;
    while cnt < |docs|
      invariant 0 <= cnt <= |docs|
      invariant Flatten(batches) + pending == docs[..cnt]
      invariant |pending| < BulkSize
      invariant cnt == |batches| * BulkSize + |pending|
      invariant data == Body(index, docType, id, pending)
      invariant forall b :: 0 <= b < |batches| ==> |batches[b]| == BulkSize
      invariant |bodies| == |batches|
      invariant forall b :: 0 <= b < |bodies| ==> bodies[b] == Body(index, docType, id, batches[b])
    {
      var doc := docs[cnt];
      BatchesGrow(batches, pending, docs, cnt);
      assert (pending + [doc])[..|pending|] == pending;
      data := data + [Action(index, docType, id(doc)), Source(doc)];
      pending := pending + [doc];
      cnt := cnt + 1;
      FlushWhenFull(cnt, |batches|, |pending|);
      if cnt % BulkSize == 0 {
        batches := batches + [pending];
        bodies := bodies + [data];
        pending, data := [], [];
      }
    }
    assert docs[..cnt] == docs;
    BatchCount(|docs|, |batches|, |pending|);
    if |pending| > 0 {
      FlattenAppend(batches, [pending]);
      assert Flatten([pending]) == pending;
      batches := batches + [pending];
      bodies := bodies + [data];
    }
  }

  lemma BatchCount(n: nat, full: nat, rest: nat)
    requires rest < BulkSize && n == full * BulkSize + rest
    ensures (n + BulkSize - 1) / BulkSize == if rest == 0 then full else full + 1
  {
  }
}
