/** The Markdown index: how it turns the reader's documents into index nodes
    (the whole-file document is chunked, every section is summarised into one
    node), how it merges existing and newly computed embeddings, and which
    nodes it records in its index structure and document store. The node
    parser, the response synthesizer, the embedding model and the vector store
    are function-valued parameters. */
module MarkDownIndex {
  import opened Wrappers
  import opened Schema

  /** The query the synthesizer is asked when none is given. */
  const DefaultSummaryQuery: string :=
    "Give a concise summary of this document. Also describe some of the questions "
    + "that this document can answer. "

  /** A node together with the embedding the index uses for it. */
  datatype NodeWithEmbedding = NodeWithEmbedding(node: Node, embedding: Embedding)

  function Min(a: nat, b: nat): nat {
    if a <= b then a else b
  }

  // ---------------------------------------------------------------------
  // Embeddings
  // ---------------------------------------------------------------------

  /** The requests queued with the embedding model: the id and embed-mode
      content of every node that has no embedding yet, in node order. */
  function Queued(nodes: seq<Node>, embedContent: Node -> string): seq<(string, string)> {
    if nodes == [] then []
    else
      var last := nodes[|nodes| - 1];
      Queued(nodes[..|nodes| - 1], embedContent)
      + (if last.embedding.None? then [(last.id, embedContent(last))] else [])
  }

  /** The embeddings the nodes already carry, by node id. */
  function Known(nodes: seq<Node>): map<string, Embedding> {
    if nodes == [] then map[]
    else
      var last := nodes[|nodes| - 1];
      var m := Known(nodes[..|nodes| - 1]);
      if last.embedding.Some? then m[last.id := last.embedding.value] else m
  }

  /** `m` updated with the first `n` pairs of `zip(ids, embs)`. */
  function PutFirst(m: map<string, Embedding>, ids: seq<string>, embs: seq<Embedding>, n: nat)
    : map<string, Embedding>
    requires n <= |ids| && n <= |embs|
  {
    if n == 0 then m else PutFirst(m, ids, embs, n - 1)[ids[n - 1] := embs[n - 1]]
  }

  /** The `id_to_embed_map` after the model's answer is merged in. */
  function EmbeddingMap(nodes: seq<Node>, embedContent: Node -> string,
                        embedQueued: seq<(string, string)> -> (seq<string>, seq<Embedding>))
    : map<string, Embedding>
  {
    var answer := embedQueued(Queued(nodes, embedContent));
    PutFirst(Known(nodes), answer.0, answer.1, Min(|answer.0|, |answer.1|))
  }

  /** Every node paired with its embedding, in node order. */
  function Paired(nodes: seq<Node>, m: map<string, Embedding>): (r: seq<NodeWithEmbedding>)
    requires forall k :: 0 <= k < |nodes| ==> nodes[k].id in m
    ensures |r| == |nodes|
    ensures forall k :: 0 <= k < |nodes| ==> r[k] == NodeWithEmbedding(nodes[k], m[nodes[k].id])
  {
    if nodes == [] then []
    else [NodeWithEmbedding(nodes[0], m[nodes[0].id])] + Paired(nodes[1..], m)
  }

  /** Every node's id has an embedding in `m`. */
  predicate AllEmbedded(nodes: seq<Node>, m: map<string, Embedding>) {
    forall k :: 0 <= k < |nodes| ==> nodes[k].id in m
  }

  /** `_get_node_embedding_results`: queue the nodes without an embedding,
      ask the model once, merge its answer over the existing embeddings and
      look every node up; a node whose id is still missing raises `KeyError`. */
  method GetNodeEmbeddingResults(nodes: seq<Node>, embedContent: Node -> string,
                                 embedQueued: seq<(string, string)> -> (seq<string>, seq<Embedding>))
    returns (result: Result<seq<NodeWithEmbedding>>)
    ensures var m := EmbeddingMap(nodes, embedContent, embedQueued);
            result.Success? <==> AllEmbedded(nodes, m)
    ensures result.Success? ==>
              var m := EmbeddingMap(nodes, embedContent, embedQueued);
              |result.value| == |nodes|
              && forall k :: 0 <= k < |nodes| ==>
                   result.value[k] == NodeWithEmbedding(nodes[k], m[nodes[k].id])
  {
    var idToEmbed: map<string, Embedding> := map[];
    var queue: seq<(string, string)> := [];
    for i := 0 to |nodes|
      invariant queue == Queued(nodes[..i], embedContent)
      invariant idToEmbed == Known(nodes[..i])
    {
      assert nodes[..i + 1][..i] == nodes[..i];
      var n := nodes[i];
      if n.embedding.None? {
        queue := queue + [(n.id, embedContent(n))];
      } else {
        idToEmbed := idToEmbed[n.id := n.embedding.value];
      }
    }
    assert nodes[..|nodes|] == nodes;
    var answer := embedQueued(queue);
    var resultIds, resultEmbeddings := answer.0, answer.1;
    var zipped := Min(|resultIds|, |resultEmbeddings|);
    for j := 0 to zipped
      invariant idToEmbed == PutFirst(Known(nodes), resultIds, resultEmbeddings, j)
    {
      idToEmbed := idToEmbed[resultIds[j] := resultEmbeddings[j]];
    }
    var results: seq<NodeWithEmbedding> := [];
    for i := 0 to |nodes|
      invariant |results| == i
      invariant forall k :: 0 <= k < i ==>
                  nodes[k].id in idToEmbed
                  && results[k] == NodeWithEmbedding(nodes[k], idToEmbed[nodes[k].id])
    {
      if nodes[i].id !in idToEmbed {
        return Failure("KeyError: " + nodes[i].id);
      }
      results := results + [NodeWithEmbedding(nodes[i], idToEmbed[nodes[i].id])];
    }
    return Success(results);
  }

  /** Exactly the nodes without an embedding are queued, with their
      embed-mode content. */
  lemma {:induction false} QueuedExactly(nodes: seq<Node>, embedContent: Node -> string,
                                         id: string, content: string)
    ensures (id, content) in Queued(nodes, embedContent) <==>
            exists k :: 0 <= k < |nodes| && nodes[k].embedding.None?
                        && nodes[k].id == id && embedContent(nodes[k]) == content
  {
    if nodes != [] {
      var init := nodes[..|nodes| - 1];
      QueuedExactly(init, embedContent, id, content);
      if (id, content) in Queued(nodes, embedContent) {
        if (id, content) !in Queued(init, embedContent) {
          assert nodes[|nodes| - 1].id == id;
        } else {
          var k :| 0 <= k < |init| && init[k].embedding.None?
                   && init[k].id == id && embedContent(init[k]) == content;
          assert nodes[k] == init[k];
        }
      } else {
        forall k | 0 <= k < |nodes| && nodes[k].embedding.None? && nodes[k].id == id
          ensures embedContent(nodes[k]) != content
        {
          if k < |init| {
            assert nodes[k] == init[k];
          }
        }
      }
    }
  }

  /** No node is queued when every node already has an embedding. */
  lemma {:induction false} NothingQueued(nodes: seq<Node>, embedContent: Node -> string)
    requires forall k :: 0 <= k < |nodes| ==> nodes[k].embedding.Some?
    ensures Queued(nodes, embedContent) == []
  {
    if nodes != [] {
      NothingQueued(nodes[..|nodes| - 1], embedContent);
    }
  }

  /** The node ids are pairwise distinct. */
  predicate DistinctIds(nodes: seq<Node>) {
    forall a, b :: 0 <= a < b < |nodes| ==> nodes[a].id != nodes[b].id
  }

  lemma {:induction false} KnownHolds(nodes: seq<Node>, k: nat)
    requires DistinctIds(nodes) && k < |nodes| && nodes[k].embedding.Some?
    ensures nodes[k].id in Known(nodes) && Known(nodes)[nodes[k].id] == nodes[k].embedding.value
  {
    var init := nodes[..|nodes| - 1];
    if k < |init| {
      assert nodes[k] == init[k];
      KnownHolds(init, k);
    }
  }

  lemma {:induction false} PutFirstOther(m: map<string, Embedding>, ids: seq<string>,
                                         embs: seq<Embedding>, n: nat, key: string)
    requires n <= |ids| && n <= |embs|
    requires forall j :: 0 <= j < n ==> ids[j] != key
    ensures key in PutFirst(m, ids, embs, n) <==> key in m
    ensures key in m ==> PutFirst(m, ids, embs, n)[key] == m[key]
  {
    if n > 0 {
      PutFirstOther(m, ids, embs, n - 1, key);
    }
  }

  lemma {:induction false} PutFirstHas(m: map<string, Embedding>, ids: seq<string>,
                                       embs: seq<Embedding>, n: nat, j: nat)
    requires j < n <= |ids| && n <= |embs|
    ensures ids[j] in PutFirst(m, ids, embs, n)
  {
    if j < n - 1 {
      PutFirstHas(m, ids, embs, n - 1, j);
    }
  }

  lemma {:induction false} PutFirstKeeps(m: map<string, Embedding>, ids: seq<string>,
                                         embs: seq<Embedding>, n: nat, key: string)
    requires n <= |ids| && n <= |embs| && key in m
    ensures key in PutFirst(m, ids, embs, n)
  {
    if n > 0 {
      PutFirstKeeps(m, ids, embs, n - 1, key);
    }
  }

  lemma {:induction false} KnownHasEmbedded(nodes: seq<Node>, k: nat)
    requires k < |nodes| && nodes[k].embedding.Some?
    ensures nodes[k].id in Known(nodes)
  {
    var init := nodes[..|nodes| - 1];
    if k < |init| {
      assert nodes[k] == init[k];
      KnownHasEmbedded(init, k);
    }
  }

  /** The ids of the queued requests. */
  function Ids(q: seq<(string, string)>): (r: seq<string>)
    ensures |r| == |q| && forall i :: 0 <= i < |q| ==> r[i] == q[i].0
  {
    if q == [] then [] else [q[0].0] + Ids(q[1..])
  }

  /** With distinct ids, a node that has an embedding is not asked about. */
  lemma EmbeddedNotQueued(nodes: seq<Node>, embedContent: Node -> string, k: nat)
    requires DistinctIds(nodes) && k < |nodes| && nodes[k].embedding.Some?
    ensures nodes[k].id !in Ids(Queued(nodes, embedContent))
  {
    var q := Queued(nodes, embedContent);
    forall i | 0 <= i < |q| ensures q[i].0 != nodes[k].id {
      assert q[i] in q;
      QueuedExactly(nodes, embedContent, q[i].0, q[i].1);
      var k' :| 0 <= k' < |nodes| && nodes[k'].embedding.None?
                && nodes[k'].id == q[i].0 && embedContent(nodes[k']) == q[i].1;
      assert k' != k;
    }
  }

  /** A node that already has an embedding keeps it, when node ids are distinct
      and the model answers only for ids it was asked about. */
  lemma ExistingEmbeddingKept(nodes: seq<Node>, embedContent: Node -> string,
                              embedQueued: seq<(string, string)> -> (seq<string>, seq<Embedding>),
                              k: nat)
    requires DistinctIds(nodes) && k < |nodes| && nodes[k].embedding.Some?
    requires var q := Queued(nodes, embedContent);
             forall j :: 0 <= j < |embedQueued(q).0| ==> embedQueued(q).0[j] in Ids(q)
    ensures var m := EmbeddingMap(nodes, embedContent, embedQueued);
            nodes[k].id in m && m[nodes[k].id] == nodes[k].embedding.value
  {
    var q := Queued(nodes, embedContent);
    var answer := embedQueued(q);
    var n := Min(|answer.0|, |answer.1|);
    KnownHolds(nodes, k);
    EmbeddedNotQueued(nodes, embedContent, k);
    assert forall j :: 0 <= j < n ==> answer.0[j] != nodes[k].id;
    PutFirstOther(Known(nodes), answer.0, answer.1, n, nodes[k].id);
  }

  /** The ids the model's answer gives embeddings for: the first ids that
      `zip` pairs with an embedding. */
  function Answered(nodes: seq<Node>, embedContent: Node -> string,
                    embedQueued: seq<(string, string)> -> (seq<string>, seq<Embedding>)): seq<string>
  {
    var answer := embedQueued(Queued(nodes, embedContent));
    answer.0[..Min(|answer.0|, |answer.1|)]
  }

  /** When the model answers for every queued request, every node gets an
      embedding, so the lookup cannot fail. */
  lemma EveryQueuedAnswered(nodes: seq<Node>, embedContent: Node -> string,
                            embedQueued: seq<(string, string)> -> (seq<string>, seq<Embedding>))
    requires var q := Queued(nodes, embedContent);
             forall i :: 0 <= i < |q| ==> q[i].0 in Answered(nodes, embedContent, embedQueued)
    ensures AllEmbedded(nodes, EmbeddingMap(nodes, embedContent, embedQueued))
  {
    var q := Queued(nodes, embedContent);
    var answer := embedQueued(q);
    var n := Min(|answer.0|, |answer.1|);
    var answered := Answered(nodes, embedContent, embedQueued);
    forall k | 0 <= k < |nodes|
      ensures nodes[k].id in EmbeddingMap(nodes, embedContent, embedQueued)
    {
      if nodes[k].embedding.Some? {
        KnownHasEmbedded(nodes, k);
        PutFirstKeeps(Known(nodes), answer.0, answer.1, n, nodes[k].id);
      } else {
        QueuedExactly(nodes, embedContent, nodes[k].id, embedContent(nodes[k]));
        var i :| 0 <= i < |q| && q[i] == (nodes[k].id, embedContent(nodes[k]));
        assert nodes[k].id in answered;
        var j :| 0 <= j < |answered| && answered[j] == nodes[k].id;
        PutFirstHas(Known(nodes), answer.0, answer.1, n, j);
      }
    }
  }

  lemma {:induction false} KnownOnlyEmbedded(nodes: seq<Node>, id: string)
    requires forall k :: 0 <= k < |nodes| && nodes[k].id == id ==> nodes[k].embedding.None?
    ensures id !in Known(nodes)
  {
    if nodes != [] {
      var init := nodes[..|nodes| - 1];
      forall k | 0 <= k < |init| && init[k].id == id ensures init[k].embedding.None? {
        assert init[k] == nodes[k];
      }
      KnownOnlyEmbedded(init, id);
    }
  }

  /** A queued node the model does not answer for, and that no other node
      supplies an embedding for, makes the lookup fail. */
  lemma UnansweredFails(nodes: seq<Node>, embedContent: Node -> string,
                        embedQueued: seq<(string, string)> -> (seq<string>, seq<Embedding>),
                        k: nat)
    requires k < |nodes|
    requires forall a :: 0 <= a < |nodes| && nodes[a].id == nodes[k].id ==> nodes[a].embedding.None?
    requires nodes[k].id !in Answered(nodes, embedContent, embedQueued)
    ensures !AllEmbedded(nodes, EmbeddingMap(nodes, embedContent, embedQueued))
  {
    var answer := embedQueued(Queued(nodes, embedContent));
    var n := Min(|answer.0|, |answer.1|);
    var answered := Answered(nodes, embedContent, embedQueued);
    forall j | 0 <= j < n ensures answer.0[j] != nodes[k].id {
      assert answered[j] == answer.0[j];
    }
    KnownOnlyEmbedded(nodes, nodes[k].id);
    PutFirstOther(Known(nodes), answer.0, answer.1, n, nodes[k].id);
  }

  // ---------------------------------------------------------------------
  // Index structure and document store
  // ---------------------------------------------------------------------

  /** The index structure: which node each vector-store text id stands for. */
  class IndexDict {
    var nodesDict: map<string, string>

    constructor ()
      ensures nodesDict == map[]
    {
      nodesDict := map[];
    }

    /** `add_node(node, text_id)`: record the node under the text id. */
    method AddNode(node: Node, textId: string)
      modifies this
      ensures nodesDict == old(nodesDict)[textId := node.id]
    {
      nodesDict := nodesDict[textId := node.id];
    }
  }

  /** The document store: stored nodes by id, and document hashes by id. */
  class DocStore {
    var docs: map<string, Node>
    var hashes: map<string, string>

    constructor ()
      ensures docs == map[] && hashes == map[]
    {
      docs := map[];
      hashes := map[];
    }

    /** `set_document_hash(doc_id, hash)`. */
    method SetDocumentHash(docId: string, hash: string)
      modifies this
      ensures hashes == old(hashes)[docId := hash]
      ensures docs == old(docs)
    {
      hashes := hashes[docId := hash];
    }

    /** `add_documents([node], allow_update=True)`: store or replace the
        node, and record the node's own hash under its id, in the same table
        `set_document_hash` writes to. */
    method AddDocument(node: Node, hash: string)
      modifies this
      ensures docs == old(docs)[node.id := node]
      ensures hashes == old(hashes)[node.id := hash]
    {
      docs := docs[node.id := node];
      hashes := hashes[node.id := hash];
    }
  }

  /** Whether `_add_nodes_to_index` records a node: always when the vector
      store does not keep text or storing is forced, otherwise only image and
      index nodes. */
  predicate Admits(storesText: bool, storeOverride: bool, node: Node) {
    !storesText || storeOverride || node.kind == ImageKind || node.kind == IndexKind
  }

  /** The (node, text id) pairs recorded, from the first `n` pairs of
      `zip(results, newIds)`, in order. */
  function Admitted(results: seq<NodeWithEmbedding>, newIds: seq<string>, n: nat,
                    storesText: bool, storeOverride: bool): seq<(Node, string)>
    requires n <= |results| && n <= |newIds|
  {
    if n == 0 then []
    else
      Admitted(results, newIds, n - 1, storesText, storeOverride)
      + (if Admits(storesText, storeOverride, results[n - 1].node)
         then [(results[n - 1].node, newIds[n - 1])] else [])
  }

  /** The index structure after recording the pairs. */
  function IndexAfter(nodesDict: map<string, string>, pairs: seq<(Node, string)>): map<string, string> {
    if pairs == [] then nodesDict
    else
      var last := pairs[|pairs| - 1];
      IndexAfter(nodesDict, pairs[..|pairs| - 1])[last.1 := last.0.id]
  }

  /** The stored nodes after recording the pairs. */
  function DocsAfter(docs: map<string, Node>, pairs: seq<(Node, string)>): map<string, Node> {
    if pairs == [] then docs
    else
      var last := pairs[|pairs| - 1];
      DocsAfter(docs, pairs[..|pairs| - 1])[last.0.id := last.0]
  }

  /** The hashes after recording the pairs: each node's own hash under its id. */
  function HashesAfter(hashes: map<string, string>, pairs: seq<(Node, string)>, nodeHash: Node -> string)
    : map<string, string>
  {
    if pairs == [] then hashes
    else
      var last := pairs[|pairs| - 1];
      HashesAfter(hashes, pairs[..|pairs| - 1], nodeHash)[last.0.id := nodeHash(last.0)]
  }

  /** What `_add_nodes_to_index` records, for the embedding results it got. */
  function Recorded(results: seq<NodeWithEmbedding>,
                    vectorAdd: seq<NodeWithEmbedding> -> seq<string>,
                    storesText: bool, storeOverride: bool): seq<(Node, string)>
  {
    var newIds := vectorAdd(results);
    Admitted(results, newIds, Min(|results|, |newIds|), storesText, storeOverride)
  }

  /** `_add_nodes_to_index`: nothing on an empty list; otherwise embed the
      nodes, add them to the vector store, and record the admitted ones in the
      index structure and the document store. A failed lookup raises before
      anything is recorded. */
  method AddNodesToIndex(index: IndexDict, docstore: DocStore, nodes: seq<Node>,
                         storesText: bool, storeOverride: bool,
                         embedContent: Node -> string,
                         embedQueued: seq<(string, string)> -> (seq<string>, seq<Embedding>),
                         vectorAdd: seq<NodeWithEmbedding> -> seq<string>,
                         nodeHash: Node -> string)
    returns (outcome: Result<()>)
    modifies index, docstore
    ensures var m := EmbeddingMap(nodes, embedContent, embedQueued);
            outcome.Success? <==> nodes == [] || AllEmbedded(nodes, m)
    ensures var m := EmbeddingMap(nodes, embedContent, embedQueued);
            if nodes == [] || !AllEmbedded(nodes, m) then
              index.nodesDict == old(index.nodesDict) && docstore.docs == old(docstore.docs)
              && docstore.hashes == old(docstore.hashes)
            else
              var pairs := Recorded(Paired(nodes, m), vectorAdd, storesText, storeOverride);
              index.nodesDict == IndexAfter(old(index.nodesDict), pairs)
              && docstore.docs == DocsAfter(old(docstore.docs), pairs)
              && docstore.hashes == HashesAfter(old(docstore.hashes), pairs, nodeHash)
  {
    if nodes == [] {
      return Success(());
    }
    var embedded := GetNodeEmbeddingResults(nodes, embedContent, embedQueued);
    if embedded.Failure? {
      return Failure(embedded.error);
    }
    ghost var m := EmbeddingMap(nodes, embedContent, embedQueued);
    var results := embedded.value;
    assert results == Paired(nodes, m);
    var newIds := vectorAdd(results);
    RecordAdmitted(index, docstore, results, newIds, storesText, storeOverride, nodeHash);
    return Success(());
  }

  /** The recording loops of `_add_nodes_to_index`, over `zip(results, newIds)`. */
  method RecordAdmitted(index: IndexDict, docstore: DocStore, results: seq<NodeWithEmbedding>,
                        newIds: seq<string>, storesText: bool, storeOverride: bool,
                        nodeHash: Node -> string)
    modifies index, docstore
    ensures var pairs := Admitted(results, newIds, Min(|results|, |newIds|), storesText, storeOverride);
            index.nodesDict == IndexAfter(old(index.nodesDict), pairs)
            && docstore.docs == DocsAfter(old(docstore.docs), pairs)
            && docstore.hashes == HashesAfter(old(docstore.hashes), pairs, nodeHash)
  {
    var zipped := Min(|results|, |newIds|);
    ghost var dict0, docs0, hashes0 := index.nodesDict, docstore.docs, docstore.hashes;
    for j := 0 to zipped
      invariant index.nodesDict == IndexAfter(dict0, Admitted(results, newIds, j, storesText, storeOverride))
      invariant docstore.docs == DocsAfter(docs0, Admitted(results, newIds, j, storesText, storeOverride))
      invariant docstore.hashes == HashesAfter(hashes0, Admitted(results, newIds, j, storesText, storeOverride),
                                               nodeHash)
    {
      ghost var before := Admitted(results, newIds, j, storesText, storeOverride);
      var node := results[j].node;
      if !storesText || storeOverride || node.kind == ImageKind || node.kind == IndexKind {
        assert Admitted(results, newIds, j + 1, storesText, storeOverride) == before + [(node, newIds[j])];
        RecordStep(dict0, docs0, hashes0, nodeHash, before, (node, newIds[j]));
        index.AddNode(node, newIds[j]);
        docstore.AddDocument(node, nodeHash(node));
      } else {
        assert Admitted(results, newIds, j + 1, storesText, storeOverride) == before;
      }
    }
  }

  /** Recording one more pair updates both maps at that pair. */
  lemma RecordStep(nodesDict: map<string, string>, docs: map<string, Node>, hashes: map<string, string>,
                   nodeHash: Node -> string, pairs: seq<(Node, string)>, p: (Node, string))
    ensures IndexAfter(nodesDict, pairs + [p]) == IndexAfter(nodesDict, pairs)[p.1 := p.0.id]
    ensures DocsAfter(docs, pairs + [p]) == DocsAfter(docs, pairs)[p.0.id := p.0]
    ensures HashesAfter(hashes, pairs + [p], nodeHash) == HashesAfter(hashes, pairs, nodeHash)[p.0.id := nodeHash(p.0)]
  {
    assert (pairs + [p])[..|pairs|] == pairs;
  }

  /** `_build_index_from_nodes`: a fresh index structure with the nodes added. */
  method BuildIndexFromNodes(docstore: DocStore, nodes: seq<Node>,
                             storesText: bool, storeOverride: bool,
                             embedContent: Node -> string,
                             embedQueued: seq<(string, string)> -> (seq<string>, seq<Embedding>),
                             vectorAdd: seq<NodeWithEmbedding> -> seq<string>,
                             nodeHash: Node -> string)
    returns (index: IndexDict, outcome: Result<()>)
    modifies docstore
    ensures fresh(index)
    ensures var m := EmbeddingMap(nodes, embedContent, embedQueued);
            outcome.Success? <==> nodes == [] || AllEmbedded(nodes, m)
    ensures var m := EmbeddingMap(nodes, embedContent, embedQueued);
            if nodes == [] || !AllEmbedded(nodes, m) then
              index.nodesDict == map[] && docstore.docs == old(docstore.docs)
              && docstore.hashes == old(docstore.hashes)
            else
              var pairs := Recorded(Paired(nodes, m), vectorAdd, storesText, storeOverride);
              index.nodesDict == IndexAfter(map[], pairs)
              && docstore.docs == DocsAfter(old(docstore.docs), pairs)
              && docstore.hashes == HashesAfter(old(docstore.hashes), pairs, nodeHash)
  {
    index := new IndexDict();
    outcome := AddNodesToIndex(index, docstore, nodes, storesText, storeOverride,
                               embedContent, embedQueued, vectorAdd, nodeHash);
  }

  /** The stored nodes after `add_documents(nodes, allow_update=True)`. */
  function Stored(docs: map<string, Node>, nodes: seq<Node>): map<string, Node> {
    if nodes == [] then docs
    else
      var last := nodes[|nodes| - 1];
      Stored(docs, nodes[..|nodes| - 1])[last.id := last]
  }

  /** The hashes after `add_documents(nodes, allow_update=True)`. */
  function NodeHashes(hashes: map<string, string>, nodes: seq<Node>, nodeHash: Node -> string)
    : map<string, string>
  {
    if nodes == [] then hashes
    else
      var last := nodes[|nodes| - 1];
      NodeHashes(hashes, nodes[..|nodes| - 1], nodeHash)[last.id := nodeHash(last)]
  }

  /** `add_documents(nodes, allow_update=True)`, one node after the other. */
  method StoreNodes(docstore: DocStore, nodes: seq<Node>, nodeHash: Node -> string)
    modifies docstore
    ensures docstore.docs == Stored(old(docstore.docs), nodes)
    ensures docstore.hashes == NodeHashes(old(docstore.hashes), nodes, nodeHash)
  {
    for i := 0 to |nodes|
      invariant docstore.docs == Stored(old(docstore.docs), nodes[..i])
      invariant docstore.hashes == NodeHashes(old(docstore.hashes), nodes[..i], nodeHash)
    {
      assert nodes[..i + 1][..i] == nodes[..i];
      docstore.AddDocument(nodes[i], nodeHash(nodes[i]));
    }
    assert nodes[..|nodes|] == nodes;
  }

  /** The stored nodes once an index is built from `nodes` whose embeddings
      are all found: every node first, then the admitted pairs. */
  function BuiltDocs(docs: map<string, Node>, nodes: seq<Node>, m: map<string, Embedding>,
                     vectorAdd: seq<NodeWithEmbedding> -> seq<string>,
                     storesText: bool, storeOverride: bool): map<string, Node>
    requires AllEmbedded(nodes, m)
  {
    DocsAfter(Stored(docs, nodes), Recorded(Paired(nodes, m), vectorAdd, storesText, storeOverride))
  }

  /** The hashes once an index is built from `nodes` whose embeddings are all found. */
  function BuiltHashes(hashes: map<string, string>, nodes: seq<Node>, m: map<string, Embedding>,
                       vectorAdd: seq<NodeWithEmbedding> -> seq<string>,
                       storesText: bool, storeOverride: bool, nodeHash: Node -> string)
    : map<string, string>
    requires AllEmbedded(nodes, m)
  {
    HashesAfter(NodeHashes(hashes, nodes, nodeHash), Recorded(Paired(nodes, m), vectorAdd, storesText, storeOverride),
                nodeHash)
  }

  /** `cls(nodes=nodes, storage_context=...)`: LlamaIndex's `BaseIndex`
      constructor stores every node in the document store, then builds the
      index structure with `_build_index_from_nodes`. When an embedding is
      not found the lookup raises, and no index is returned. */
  method ConstructIndex(docstore: DocStore, nodes: seq<Node>, storesText: bool, storeOverride: bool,
                        embedContent: Node -> string,
                        embedQueued: seq<(string, string)> -> (seq<string>, seq<Embedding>),
                        vectorAdd: seq<NodeWithEmbedding> -> seq<string>,
                        nodeHash: Node -> string)
    returns (index: IndexDict?)
    modifies docstore
    ensures var m := EmbeddingMap(nodes, embedContent, embedQueued);
            if AllEmbedded(nodes, m) then
              index != null && fresh(index)
              && index.nodesDict == IndexAfter(map[], Recorded(Paired(nodes, m), vectorAdd, storesText, storeOverride))
              && docstore.docs == BuiltDocs(old(docstore.docs), nodes, m, vectorAdd, storesText, storeOverride)
              && docstore.hashes == BuiltHashes(old(docstore.hashes), nodes, m, vectorAdd, storesText, storeOverride,
                                                nodeHash)
            else
              index == null
              && docstore.docs == Stored(old(docstore.docs), nodes)
              && docstore.hashes == NodeHashes(old(docstore.hashes), nodes, nodeHash)
  {
    StoreNodes(docstore, nodes, nodeHash);
    var built, outcome := BuildIndexFromNodes(docstore, nodes, storesText, storeOverride,
                                              embedContent, embedQueued, vectorAdd, nodeHash);
    if outcome.Success? {
      index := built;
    } else {
      index := null;
    }
  }

  /** Without a text-keeping vector store, or with storing forced, every
      zipped (node, text id) pair is recorded, in order. */
  lemma {:induction false} AdmittedAll(results: seq<NodeWithEmbedding>, newIds: seq<string>, n: nat,
                                       storesText: bool, storeOverride: bool)
    requires n <= |results| && n <= |newIds|
    requires !storesText || storeOverride
    ensures var pairs := Admitted(results, newIds, n, storesText, storeOverride);
            |pairs| == n
            && forall j :: 0 <= j < n ==> pairs[j] == (results[j].node, newIds[j])
  {
    if n > 0 {
      AdmittedAll(results, newIds, n - 1, storesText, storeOverride);
    }
  }

  /** With a text-keeping vector store and no override, exactly the image and
      index nodes among the zipped pairs are recorded. */
  lemma {:induction false} AdmittedOnlyImageAndIndex(results: seq<NodeWithEmbedding>, newIds: seq<string>,
                                                     n: nat, storesText: bool, storeOverride: bool,
                                                     node: Node, textId: string)
    requires n <= |results| && n <= |newIds|
    requires storesText && !storeOverride
    ensures (node, textId) in Admitted(results, newIds, n, storesText, storeOverride) <==>
            (node.kind == ImageKind || node.kind == IndexKind)
            && exists j :: 0 <= j < n && results[j].node == node && newIds[j] == textId
  {
    if n > 0 {
      AdmittedOnlyImageAndIndex(results, newIds, n - 1, storesText, storeOverride, node, textId);
    }
  }

  /** Every text id in the index structure refers to a stored node. */
  predicate Consistent(nodesDict: map<string, string>, docs: map<string, Node>) {
    forall t :: t in nodesDict ==> nodesDict[t] in docs
  }

  /** Recording pairs keeps the index structure and the store consistent. */
  lemma {:induction false} RecordingKeepsConsistent(nodesDict: map<string, string>,
                                                    docs: map<string, Node>,
                                                    pairs: seq<(Node, string)>)
    requires Consistent(nodesDict, docs)
    ensures Consistent(IndexAfter(nodesDict, pairs), DocsAfter(docs, pairs))
  {
    if pairs != [] {
      RecordingKeepsConsistent(nodesDict, docs, pairs[..|pairs| - 1]);
      var d := DocsAfter(docs, pairs[..|pairs| - 1]);
      var m := IndexAfter(nodesDict, pairs[..|pairs| - 1]);
      var last := pairs[|pairs| - 1];
      assert Consistent(m, d);
      assert Consistent(m, d[last.0.id := last.0]);
    }
  }

  // ---------------------------------------------------------------------
  // Building the nodes from the reader's documents
  // ---------------------------------------------------------------------

  /** A call the build makes into a service, in the order it makes them. */
  datatype ServiceCall =
    | SetHash(docId: string, hash: string)
    | ParseCall(docId: string)
    | SummarizeCall(query: string, docId: string)

  /** `document.metadata["header"] == -1`: the whole-file document. A
      section's header, a line or `None`, is never `-1`. */
  predicate IsRoot(doc: Document)
    ensures IsRoot(doc) ==> !doc.metadata.header.HeaderLine? && doc.metadata.header != NoHeader
  {
    doc.metadata.header == RootHeader
  }

  /** The embed-text node for a chunk of the whole-file document: it embeds
      its own text and keeps the chunk's metadata and relationships. */
  function ChunkNode(chunk: Node, id: string): Node {
    Node(id, TextKind, chunk.text, chunk.text, chunk.embedding, chunk.metadata,
         chunk.excludedEmbedKeys, chunk.excludedLlmKeys, chunk.relationships)
  }

  /** The embed-text node for a section: its text is the document's, its
      embedded text the summary, and its only relationship the source document. */
  function SummaryNode(doc: Document, summary: string, id: string): Node {
    Node(id, TextKind, doc.text, summary, doc.embedding, doc.metadata,
         doc.excludedEmbedKeys, doc.excludedLlmKeys, map[Source := doc.id])
  }

  /** The nodes for the chunks, the k-th created node taking the k-th fresh id. */
  function ChunkNodes(chunks: seq<Node>, start: nat, mintId: nat -> string): seq<Node> {
    if chunks == [] then []
    else
      ChunkNodes(chunks[..|chunks| - 1], start, mintId)
      + [ChunkNode(chunks[|chunks| - 1], mintId(start + |chunks| - 1))]
  }

  /** The nodes a document yields, or `None` when its summary fails. */
  function NodesFor(doc: Document, start: nat, parse: Document -> seq<Node>,
                    summarize: (string, Document) -> Option<string>, query: string,
                    mintId: nat -> string): (r: Option<seq<Node>>)
    ensures r.None? <==> !IsRoot(doc) && summarize(query, doc).None?
    ensures r.Some? && !IsRoot(doc) ==> |r.value| == 1
  {
    if IsRoot(doc) then Some(ChunkNodes(parse(doc), start, mintId))
    else
      match summarize(query, doc)
      case None => None
      case Some(summary) => Some([SummaryNode(doc, summary, mintId(start))])
  }

  /** The nodes the documents yield, in document order, or `None` once a
      summary fails. */
  function BuildNodes(docs: seq<Document>, parse: Document -> seq<Node>,
                      summarize: (string, Document) -> Option<string>, query: string,
                      mintId: nat -> string): Option<seq<Node>>
  {
    if docs == [] then Some([])
    else
      match BuildNodes(docs[..|docs| - 1], parse, summarize, query, mintId)
      case None => None
      case Some(before) =>
        match NodesFor(docs[|docs| - 1], |before|, parse, summarize, query, mintId)
        case None => None
        case Some(more) => Some(before + more)
  }

  /** The service call made for one document. */
  function CallFor(doc: Document, query: string): ServiceCall {
    if IsRoot(doc) then ParseCall(doc.id) else SummarizeCall(query, doc.id)
  }

  /** The parser and synthesizer calls the build makes, up to the failing one. */
  function BuildCalls(docs: seq<Document>, parse: Document -> seq<Node>,
                      summarize: (string, Document) -> Option<string>, query: string,
                      mintId: nat -> string): seq<ServiceCall>
  {
    if docs == [] then []
    else
      var init := docs[..|docs| - 1];
      if BuildNodes(init, parse, summarize, query, mintId).None? then
        BuildCalls(init, parse, summarize, query, mintId)
      else
        BuildCalls(init, parse, summarize, query, mintId) + [CallFor(docs[|docs| - 1], query)]
  }

  /** The hash-recording calls, one per document in order. */
  function HashCalls(docs: seq<Document>, hashOf: Document -> string): seq<ServiceCall> {
    if docs == [] then []
    else
      var last := docs[|docs| - 1];
      HashCalls(docs[..|docs| - 1], hashOf) + [SetHash(last.id, hashOf(last))]
  }

  /** The document hashes after recording the documents'. */
  function Hashes(hashes: map<string, string>, docs: seq<Document>, hashOf: Document -> string)
    : map<string, string>
  {
    if docs == [] then hashes
    else
      var last := docs[|docs| - 1];
      Hashes(hashes, docs[..|docs| - 1], hashOf)[last.id := hashOf(last)]
  }

  /** The first loop of `from_documents`: record every document's hash. */
  method RecordHashes(documents: seq<Document>, docstore: DocStore, hashOf: Document -> string)
    returns (trace: seq<ServiceCall>)
    modifies docstore
    ensures docstore.hashes == Hashes(old(docstore.hashes), documents, hashOf)
    ensures docstore.docs == old(docstore.docs)
    ensures trace == HashCalls(documents, hashOf)
  {
    trace := [];
    for i := 0 to |documents|
      invariant docstore.hashes == Hashes(old(docstore.hashes), documents[..i], hashOf)
      invariant docstore.docs == old(docstore.docs)
      invariant trace == HashCalls(documents[..i], hashOf)
    {
      assert documents[..i + 1][..i] == documents[..i];
      docstore.SetDocumentHash(documents[i].id, hashOf(documents[i]));
      trace := trace + [SetHash(documents[i].id, hashOf(documents[i]))];
    }
    assert documents[..|documents|] == documents;
  }

  /** The loop over a chunk list: one node per chunk, each with a fresh id. */
  method AppendChunkNodes(nodes: seq<Node>, chunks: seq<Node>, mintId: nat -> string)
    returns (out: seq<Node>)
    ensures out == nodes + ChunkNodes(chunks, |nodes|, mintId)
  {
    out := nodes;
    for c := 0 to |chunks|
      invariant out == nodes + ChunkNodes(chunks[..c], |nodes|, mintId)
    {
      assert chunks[..c + 1][..c] == chunks[..c];
      ChunkNodesLength(chunks[..c], |nodes|, mintId);
      out := out + [ChunkNode(chunks[c], mintId(|out|))];
    }
    assert chunks[..|chunks|] == chunks;
  }

  lemma {:induction false} ChunkNodesLength(chunks: seq<Node>, start: nat, mintId: nat -> string)
    ensures |ChunkNodes(chunks, start, mintId)| == |chunks|
  {
    if chunks != [] {
      ChunkNodesLength(chunks[..|chunks| - 1], start, mintId);
    }
  }

  /** One more document extends the build by that document's nodes and call. */
  lemma BuildStep(docs: seq<Document>, i: nat, nodes: seq<Node>, parse: Document -> seq<Node>,
                  summarize: (string, Document) -> Option<string>, query: string,
                  mintId: nat -> string)
    requires i < |docs|
    requires BuildNodes(docs[..i], parse, summarize, query, mintId) == Some(nodes)
    ensures var more := NodesFor(docs[i], |nodes|, parse, summarize, query, mintId);
            BuildNodes(docs[..i + 1], parse, summarize, query, mintId)
            == (if more.None? then None else Some(nodes + more.value))
    ensures BuildCalls(docs[..i + 1], parse, summarize, query, mintId)
            == BuildCalls(docs[..i], parse, summarize, query, mintId) + [CallFor(docs[i], query)]
  {
    assert docs[..i + 1][..i] == docs[..i];
  }

  /** One pass of the loop in `from_documents`: the whole-file document is
      parsed into chunk nodes, any other document is summarized into one
      summary node; `None` when the summary fails. */
  method AddNodesFor(document: Document, nodes: seq<Node>, parse: Document -> seq<Node>,
                     summarize: (string, Document) -> Option<string>, query: string,
                     mintId: nat -> string)
    returns (next: Option<seq<Node>>, call: ServiceCall)
    ensures var more := NodesFor(document, |nodes|, parse, summarize, query, mintId);
            next == (if more.None? then None else Some(nodes + more.value))
    ensures call == CallFor(document, query)
  {
    if document.metadata.header == RootHeader {
      var chunks := parse(document);
      call := ParseCall(document.id);
      var out := AppendChunkNodes(nodes, chunks, mintId);
      next := Some(out);
    } else {
      var summary := summarize(query, document);
      call := SummarizeCall(query, document.id);
      if summary.None? {
        return None, call;
      }
      next := Some(nodes + [SummaryNode(document, summary.value, mintId(|nodes|))]);
    }
  }

  /** The body of `from_documents` up to the index construction: record every
      document's hash, then turn the whole-file document into chunk nodes and
      every other document into one summary node. A failing summary raises;
      the hashes stay recorded. `trace` lists the service calls in the order
      they are made. */
  method BuildNodesFromDocuments(documents: seq<Document>, docstore: DocStore,
                       hashOf: Document -> string, parse: Document -> seq<Node>,
                       summarize: (string, Document) -> Option<string>, query: string,
                       mintId: nat -> string)
    returns (result: Option<seq<Node>>, trace: seq<ServiceCall>)
    modifies docstore
    ensures docstore.hashes == Hashes(old(docstore.hashes), documents, hashOf)
    ensures docstore.docs == old(docstore.docs)
    ensures result == BuildNodes(documents, parse, summarize, query, mintId)
    ensures trace == HashCalls(documents, hashOf)
                     + BuildCalls(documents, parse, summarize, query, mintId)
  {
    trace := RecordHashes(documents, docstore, hashOf);
    var nodes: seq<Node> := [];
    ghost var hashTrace := trace;
    for i := 0 to |documents|
      invariant docstore.hashes == Hashes(old(docstore.hashes), documents, hashOf)
      invariant docstore.docs == old(docstore.docs)
      invariant BuildNodes(documents[..i], parse, summarize, query, mintId) == Some(nodes)
      invariant trace == hashTrace + BuildCalls(documents[..i], parse, summarize, query, mintId)
    {
      BuildStep(documents, i, nodes, parse, summarize, query, mintId);
      var next, call := AddNodesFor(documents[i], nodes, parse, summarize, query, mintId);
      trace := trace + [call];
      if next.None? {
        FailureSticks(documents, i + 1, parse, summarize, query, mintId);
        return None, trace;
      }
      nodes := next.value;
    }
    assert documents[..|documents|] == documents;
    result := Some(nodes);
  }

  /** Once a summary has failed, the build stays failed and makes no more calls. */
  lemma {:induction false} FailureSticks(docs: seq<Document>, i: nat, parse: Document -> seq<Node>,
                                         summarize: (string, Document) -> Option<string>,
                                         query: string, mintId: nat -> string)
    requires i <= |docs|
    requires BuildNodes(docs[..i], parse, summarize, query, mintId).None?
    ensures BuildNodes(docs, parse, summarize, query, mintId).None?
    ensures BuildCalls(docs, parse, summarize, query, mintId)
            == BuildCalls(docs[..i], parse, summarize, query, mintId)
    decreases |docs| - i
  {
    if i < |docs| {
      assert docs[..i + 1][..i] == docs[..i];
      FailureSticks(docs, i + 1, parse, summarize, query, mintId);
    } else {
      assert docs[..i] == docs;
    }
  }

  /** `from_documents`: build the nodes, then construct the index from them
      over the same document store. No index results when a summary fails or
      an embedding is not found. */
  method FromDocuments(documents: seq<Document>, docstore: DocStore,
                       hashOf: Document -> string, parse: Document -> seq<Node>,
                       summarize: (string, Document) -> Option<string>, query: string,
                       mintId: nat -> string, storesText: bool, storeOverride: bool,
                       embedContent: Node -> string,
                       embedQueued: seq<(string, string)> -> (seq<string>, seq<Embedding>),
                       vectorAdd: seq<NodeWithEmbedding> -> seq<string>,
                       nodeHash: Node -> string)
    returns (index: IndexDict?, trace: seq<ServiceCall>)
    modifies docstore
    ensures trace == HashCalls(documents, hashOf)
                     + BuildCalls(documents, parse, summarize, query, mintId)
    ensures var built := BuildNodes(documents, parse, summarize, query, mintId);
            var hashes := Hashes(old(docstore.hashes), documents, hashOf);
            if built.None? then
              index == null && docstore.docs == old(docstore.docs) && docstore.hashes == hashes
            else
              var nodes := built.value;
              var m := EmbeddingMap(nodes, embedContent, embedQueued);
              if AllEmbedded(nodes, m) then
                index != null && fresh(index)
                && index.nodesDict == IndexAfter(map[], Recorded(Paired(nodes, m), vectorAdd, storesText, storeOverride))
                && docstore.docs == BuiltDocs(old(docstore.docs), nodes, m, vectorAdd, storesText, storeOverride)
                && docstore.hashes == BuiltHashes(hashes, nodes, m, vectorAdd, storesText, storeOverride, nodeHash)
              else
                index == null
                && docstore.docs == Stored(old(docstore.docs), nodes)
                && docstore.hashes == NodeHashes(hashes, nodes, nodeHash)
  {
    var built;
    built, trace := BuildNodesFromDocuments(documents, docstore, hashOf, parse, summarize, query, mintId);
    if built.None? {
      return null, trace;
    }
    index := ConstructIndex(docstore, built.value, storesText, storeOverride,
                            embedContent, embedQueued, vectorAdd, nodeHash);
  }

  // ---------------------------------------------------------------------
  // Properties of the build
  // ---------------------------------------------------------------------

  /** The total number of chunks of the whole-file documents. */
  function ChunkTotal(docs: seq<Document>, parse: Document -> seq<Node>): nat {
    if docs == [] then 0
    else
      var last := docs[|docs| - 1];
      ChunkTotal(docs[..|docs| - 1], parse) + (if IsRoot(last) then |parse(last)| else 0)
  }

  /** The number of documents that are not the whole-file document. */
  function SectionCount(docs: seq<Document>): nat {
    if docs == [] then 0
    else SectionCount(docs[..|docs| - 1]) + (if IsRoot(docs[|docs| - 1]) then 0 else 1)
  }

  /** The build fails exactly when some section's summary fails. */
  lemma {:induction false} BuildSucceedsIff(docs: seq<Document>, parse: Document -> seq<Node>,
                                            summarize: (string, Document) -> Option<string>,
                                            query: string, mintId: nat -> string)
    ensures BuildNodes(docs, parse, summarize, query, mintId).Some? <==>
            forall k :: 0 <= k < |docs| && !IsRoot(docs[k]) ==> summarize(query, docs[k]).Some?
  {
    if docs != [] {
      var init := docs[..|docs| - 1];
      BuildSucceedsIff(init, parse, summarize, query, mintId);
      assert forall k :: 0 <= k < |init| ==> init[k] == docs[k];
    }
  }

  /** The build yields one node per chunk of the whole-file document and one
      per other document. */
  lemma {:induction false} NodeCount(docs: seq<Document>, parse: Document -> seq<Node>,
                                     summarize: (string, Document) -> Option<string>,
                                     query: string, mintId: nat -> string)
    requires BuildNodes(docs, parse, summarize, query, mintId).Some?
    ensures |BuildNodes(docs, parse, summarize, query, mintId).value|
            == ChunkTotal(docs, parse) + SectionCount(docs)
  {
    if docs != [] {
      var init := docs[..|docs| - 1];
      NodeCount(init, parse, summarize, query, mintId);
      var before := BuildNodes(init, parse, summarize, query, mintId).value;
      ChunkNodesLength(parse(docs[|docs| - 1]), |before|, mintId);
    }
  }

  /** On success the build asks the parser about the whole-file document and
      the synthesizer about every other document, once each, in document order. */
  lemma {:induction false} OneCallPerDocument(docs: seq<Document>, parse: Document -> seq<Node>,
                                              summarize: (string, Document) -> Option<string>,
                                              query: string, mintId: nat -> string)
    requires BuildNodes(docs, parse, summarize, query, mintId).Some?
    ensures var calls := BuildCalls(docs, parse, summarize, query, mintId);
            |calls| == |docs|
            && forall k :: 0 <= k < |docs| ==> calls[k] == CallFor(docs[k], query)
  {
    if docs != [] {
      var init := docs[..|docs| - 1];
      OneCallPerDocument(init, parse, summarize, query, mintId);
      assert forall k :: 0 <= k < |init| ==> init[k] == docs[k];
    }
  }

  lemma {:induction false} HashCallsSpec(docs: seq<Document>, hashOf: Document -> string)
    ensures var calls := HashCalls(docs, hashOf);
            |calls| == |docs|
            && forall k :: 0 <= k < |docs| ==> calls[k] == SetHash(docs[k].id, hashOf(docs[k]))
  {
    if docs != [] {
      var init := docs[..|docs| - 1];
      HashCallsSpec(init, hashOf);
      assert forall k :: 0 <= k < |init| ==> init[k] == docs[k];
    }
  }

  /** No call in the list records a hash. */
  predicate NoHashCalls(calls: seq<ServiceCall>) {
    forall k :: 0 <= k < |calls| ==> !calls[k].SetHash?
  }

  lemma {:induction false} BuildCallsBuild(docs: seq<Document>, parse: Document -> seq<Node>,
                                           summarize: (string, Document) -> Option<string>,
                                           query: string, mintId: nat -> string)
    ensures NoHashCalls(BuildCalls(docs, parse, summarize, query, mintId))
  {
    if docs != [] {
      var init := docs[..|docs| - 1];
      BuildCallsBuild(init, parse, summarize, query, mintId);
      var c0 := BuildCalls(init, parse, summarize, query, mintId);
      var last := CallFor(docs[|docs| - 1], query);
      assert !last.SetHash?;
      assert NoHashCalls(c0 + [last]);
    }
  }

  /** Every document's hash is recorded, in document order, before the parser
      or the synthesizer is called. */
  lemma HashesBeforeNodes(docs: seq<Document>, hashOf: Document -> string,
                          parse: Document -> seq<Node>,
                          summarize: (string, Document) -> Option<string>,
                          query: string, mintId: nat -> string)
    ensures |HashCalls(docs, hashOf)| == |docs|
    ensures var trace := HashCalls(docs, hashOf) + BuildCalls(docs, parse, summarize, query, mintId);
            (forall k :: 0 <= k < |docs| ==> trace[k] == SetHash(docs[k].id, hashOf(docs[k])))
            && (forall a, b :: 0 <= a < |trace| && 0 <= b < |trace| && !trace[a].SetHash? && trace[b].SetHash?
                  ==> b < a)
  {
    HashCallsSpec(docs, hashOf);
    BuildCallsBuild(docs, parse, summarize, query, mintId);
  }

  /** Every document's id ends up with a hash; the last document with that id
      gives it. */
  lemma {:induction false} HashRecorded(hashes: map<string, string>, docs: seq<Document>,
                                        hashOf: Document -> string, k: nat)
    requires k < |docs|
    requires forall a :: k < a < |docs| ==> docs[a].id != docs[k].id
    ensures docs[k].id in Hashes(hashes, docs, hashOf)
    ensures Hashes(hashes, docs, hashOf)[docs[k].id] == hashOf(docs[k])
  {
    var init := docs[..|docs| - 1];
    if k < |init| {
      assert forall a :: k < a < |init| ==> init[a] == docs[a];
      HashRecorded(hashes, init, hashOf, k);
    }
  }

  lemma {:induction false} ChunkNodesSpec(chunks: seq<Node>, start: nat, mintId: nat -> string)
    ensures var ns := ChunkNodes(chunks, start, mintId);
            |ns| == |chunks|
            && forall i :: 0 <= i < |chunks| ==> ns[i] == ChunkNode(chunks[i], mintId(start + i))
  {
    if chunks != [] {
      var init := chunks[..|chunks| - 1];
      ChunkNodesSpec(init, start, mintId);
      assert forall i :: 0 <= i < |init| ==> init[i] == chunks[i];
    }
  }

  /** The whole-file document yields one node per chunk, in chunk order; each
      embeds its own text and keeps the chunk's metadata, exclusions and
      relationships. */
  lemma RootChunks(doc: Document, start: nat, parse: Document -> seq<Node>,
                   summarize: (string, Document) -> Option<string>, query: string,
                   mintId: nat -> string)
    requires IsRoot(doc)
    ensures var r := NodesFor(doc, start, parse, summarize, query, mintId);
            var chunks := parse(doc);
            r.Some? && |r.value| == |chunks|
            && forall i :: 0 <= i < |chunks| ==>
                 var n := r.value[i];
                 n.text == chunks[i].text && n.embedText == chunks[i].text
                 && n.embedding == chunks[i].embedding && n.metadata == chunks[i].metadata
                 && n.excludedEmbedKeys == chunks[i].excludedEmbedKeys
                 && n.excludedLlmKeys == chunks[i].excludedLlmKeys
                 && n.relationships == chunks[i].relationships && n.kind == TextKind
  {
    ChunkNodesSpec(parse(doc), start, mintId);
  }

  /** Any other document, with or without a header, yields exactly one node:
      the document's text, embedded through its summary, with the document's
      metadata and exclusions and a source link to the document. */
  lemma SectionNode(doc: Document, start: nat, parse: Document -> seq<Node>,
                    summarize: (string, Document) -> Option<string>, query: string,
                    mintId: nat -> string)
    requires !IsRoot(doc) && summarize(query, doc).Some?
    ensures var r := NodesFor(doc, start, parse, summarize, query, mintId);
            r.Some? && |r.value| == 1
            && var n := r.value[0];
               n.text == doc.text && n.embedText == summarize(query, doc).value
               && n.embedding == doc.embedding && n.metadata == doc.metadata
               && n.excludedEmbedKeys == doc.excludedEmbedKeys
               && n.excludedLlmKeys == doc.excludedLlmKeys
               && n.relationships == map[Source := doc.id] && n.kind == TextKind
  {
  }

  /** The nodes of each document come after those of every earlier document. */
  lemma {:induction false} DocumentOrder(docs: seq<Document>, i: nat, parse: Document -> seq<Node>,
                                         summarize: (string, Document) -> Option<string>,
                                         query: string, mintId: nat -> string)
    requires i < |docs|
    requires BuildNodes(docs, parse, summarize, query, mintId).Some?
    ensures BuildNodes(docs[..i], parse, summarize, query, mintId).Some?
    ensures var before := BuildNodes(docs[..i], parse, summarize, query, mintId).value;
            var more := NodesFor(docs[i], |before|, parse, summarize, query, mintId);
            var all := BuildNodes(docs, parse, summarize, query, mintId).value;
            more.Some? && |before| + |more.value| <= |all|
            && all[..|before| + |more.value|] == before + more.value
    decreases |docs| - i
  {
    var init := docs[..|docs| - 1];
    assert docs[..i + 1][..i] == docs[..i];
    if i == |docs| - 1 {
      assert all: BuildNodes(docs, parse, summarize, query, mintId).value == BuildNodes(docs[..i], parse, summarize, query, mintId).value + NodesFor(docs[i], |BuildNodes(docs[..i], parse, summarize, query, mintId).value|, parse, summarize, query, mintId).value;
    } else {
      assert init[..i] == docs[..i];
      DocumentOrder(init, i, parse, summarize, query, mintId);
    }
  }

  lemma NodesForIds(doc: Document, start: nat, parse: Document -> seq<Node>,
                    summarize: (string, Document) -> Option<string>, query: string,
                    mintId: nat -> string)
    requires NodesFor(doc, start, parse, summarize, query, mintId).Some?
    ensures var more := NodesFor(doc, start, parse, summarize, query, mintId).value;
            forall i :: 0 <= i < |more| ==> more[i].id == mintId(start + i)
  {
    if IsRoot(doc) {
      ChunkNodesSpec(parse(doc), start, mintId);
    }
  }

  /** The k-th node built takes the k-th fresh id. */
  lemma {:induction false} FreshIds(docs: seq<Document>, parse: Document -> seq<Node>,
                                    summarize: (string, Document) -> Option<string>,
                                    query: string, mintId: nat -> string)
    requires BuildNodes(docs, parse, summarize, query, mintId).Some?
    ensures var ns := BuildNodes(docs, parse, summarize, query, mintId).value;
            forall k :: 0 <= k < |ns| ==> ns[k].id == mintId(k)
  {
    if docs != [] {
      var init := docs[..|docs| - 1];
      FreshIds(init, parse, summarize, query, mintId);
      var before := BuildNodes(init, parse, summarize, query, mintId).value;
      NodesForIds(docs[|docs| - 1], |before|, parse, summarize, query, mintId);
      var more := NodesFor(docs[|docs| - 1], |before|, parse, summarize, query, mintId).value;
      var ns := BuildNodes(docs, parse, summarize, query, mintId).value;
      assert ns == before + more;
      forall k | 0 <= k < |ns| ensures ns[k].id == mintId(k) {
        if k < |before| {
          assert ns[k] == before[k];
        } else {
          assert ns[k] == more[k - |before|];
        }
      }
    }
  }

  /** Every node the build makes is an embed-text node. */
  lemma {:induction false} BuiltNodesAreText(docs: seq<Document>, parse: Document -> seq<Node>,
                                             summarize: (string, Document) -> Option<string>,
                                             query: string, mintId: nat -> string)
    requires BuildNodes(docs, parse, summarize, query, mintId).Some?
    ensures var ns := BuildNodes(docs, parse, summarize, query, mintId).value;
            forall k :: 0 <= k < |ns| ==> ns[k].kind == TextKind
  {
    if docs != [] {
      var init := docs[..|docs| - 1];
      BuiltNodesAreText(init, parse, summarize, query, mintId);
      var before := BuildNodes(init, parse, summarize, query, mintId).value;
      ChunkNodesSpec(parse(docs[|docs| - 1]), |before|, mintId);
    }
  }

  /** With a text-keeping vector store and no override, text nodes are never
      recorded, so the nodes the build makes stay out of the index structure
      (the index constructor has already put them in the document store). */
  lemma {:induction false} TextNodesNotRecorded(results: seq<NodeWithEmbedding>, newIds: seq<string>,
                                                n: nat, storesText: bool, storeOverride: bool)
    requires n <= |results| && n <= |newIds|
    requires storesText && !storeOverride
    requires forall k :: 0 <= k < |results| ==> results[k].node.kind == TextKind
    ensures Admitted(results, newIds, n, storesText, storeOverride) == []
  {
    if n > 0 {
      TextNodesNotRecorded(results, newIds, n - 1, storesText, storeOverride);
    }
  }

  // ---------------------------------------------------------------------
  // The document store after the index is constructed
  // ---------------------------------------------------------------------

  lemma {:induction false} NodeHashesOther(hashes: map<string, string>, nodes: seq<Node>,
                                           nodeHash: Node -> string, key: string)
    requires forall q :: 0 <= q < |nodes| ==> nodes[q].id != key
    ensures key in NodeHashes(hashes, nodes, nodeHash) <==> key in hashes
    ensures key in hashes ==> NodeHashes(hashes, nodes, nodeHash)[key] == hashes[key]
  {
    if nodes != [] {
      var init := nodes[..|nodes| - 1];
      assert forall q :: 0 <= q < |init| ==> init[q] == nodes[q];
      NodeHashesOther(hashes, init, nodeHash, key);
    }
  }

  lemma {:induction false} HashesAfterOther(hashes: map<string, string>, pairs: seq<(Node, string)>,
                                            nodeHash: Node -> string, key: string)
    requires forall q :: 0 <= q < |pairs| ==> pairs[q].0.id != key
    ensures key in HashesAfter(hashes, pairs, nodeHash) <==> key in hashes
    ensures key in hashes ==> HashesAfter(hashes, pairs, nodeHash)[key] == hashes[key]
  {
    if pairs != [] {
      var init := pairs[..|pairs| - 1];
      assert forall q :: 0 <= q < |init| ==> init[q] == pairs[q];
      HashesAfterOther(hashes, init, nodeHash, key);
    }
  }

  /** A property every zipped result's node has, every recorded pair's node has. */
  lemma {:induction false} AdmittedKeeps(results: seq<NodeWithEmbedding>, newIds: seq<string>, n: nat,
                                         storesText: bool, storeOverride: bool, P: Node -> bool)
    requires n <= |results| && n <= |newIds|
    requires forall k :: 0 <= k < n ==> P(results[k].node)
    ensures forall q :: 0 <= q < |Admitted(results, newIds, n, storesText, storeOverride)| ==>
              P(Admitted(results, newIds, n, storesText, storeOverride)[q].0)
  {
    if n > 0 {
      AdmittedKeeps(results, newIds, n - 1, storesText, storeOverride, P);
    }
  }

  /** A property every node has, every recorded pair's node has. */
  lemma RecordedKeeps(nodes: seq<Node>, m: map<string, Embedding>,
                      vectorAdd: seq<NodeWithEmbedding> -> seq<string>,
                      storesText: bool, storeOverride: bool, P: Node -> bool)
    requires AllEmbedded(nodes, m)
    requires forall k :: 0 <= k < |nodes| ==> P(nodes[k])
    ensures forall q :: 0 <= q < |Recorded(Paired(nodes, m), vectorAdd, storesText, storeOverride)| ==>
              P(Recorded(Paired(nodes, m), vectorAdd, storesText, storeOverride)[q].0)
  {
    var results := Paired(nodes, m);
    var newIds := vectorAdd(results);
    AdmittedKeeps(results, newIds, Min(|results|, |newIds|), storesText, storeOverride, P);
  }

  /** A document's hash survives the index construction when no node carries
      its id: the last document with that id gives it. */
  lemma DocumentHashKept(hashes: map<string, string>, docs: seq<Document>, hashOf: Document -> string,
                         nodes: seq<Node>, m: map<string, Embedding>,
                         vectorAdd: seq<NodeWithEmbedding> -> seq<string>,
                         storesText: bool, storeOverride: bool, nodeHash: Node -> string, k: nat)
    requires AllEmbedded(nodes, m) && k < |docs|
    requires forall a :: k < a < |docs| ==> docs[a].id != docs[k].id
    requires forall q :: 0 <= q < |nodes| ==> nodes[q].id != docs[k].id
    ensures var h := BuiltHashes(Hashes(hashes, docs, hashOf), nodes, m, vectorAdd, storesText, storeOverride,
                                 nodeHash);
            docs[k].id in h && h[docs[k].id] == hashOf(docs[k])
  {
    var key := docs[k].id;
    var h0 := Hashes(hashes, docs, hashOf);
    HashRecorded(hashes, docs, hashOf, k);
    NodeHashesOther(h0, nodes, nodeHash, key);
    var pairs := Recorded(Paired(nodes, m), vectorAdd, storesText, storeOverride);
    RecordedKeeps(nodes, m, vectorAdd, storesText, storeOverride, (n: Node) => n.id != key);
    HashesAfterOther(NodeHashes(h0, nodes, nodeHash), pairs, nodeHash, key);
  }

  /** When the id generator never yields a document's id, `from_documents`
      leaves every document's hash in place: the hash of the last document
      with that id. */
  lemma DocumentHashesSurvive(hashes: map<string, string>, docs: seq<Document>, hashOf: Document -> string,
                              parse: Document -> seq<Node>,
                              summarize: (string, Document) -> Option<string>, query: string,
                              mintId: nat -> string, m: map<string, Embedding>,
                              vectorAdd: seq<NodeWithEmbedding> -> seq<string>,
                              storesText: bool, storeOverride: bool, nodeHash: Node -> string, k: nat)
    requires BuildNodes(docs, parse, summarize, query, mintId).Some?
    requires AllEmbedded(BuildNodes(docs, parse, summarize, query, mintId).value, m)
    requires k < |docs| && forall a :: k < a < |docs| ==> docs[a].id != docs[k].id
    requires forall j: nat :: mintId(j) != docs[k].id
    ensures var nodes := BuildNodes(docs, parse, summarize, query, mintId).value;
            var h := BuiltHashes(Hashes(hashes, docs, hashOf), nodes, m, vectorAdd, storesText, storeOverride,
                                 nodeHash);
            docs[k].id in h && h[docs[k].id] == hashOf(docs[k])
  {
    var nodes := BuildNodes(docs, parse, summarize, query, mintId).value;
    FreshIds(docs, parse, summarize, query, mintId);
    forall q | 0 <= q < |nodes| ensures nodes[q].id != docs[k].id {
      assert nodes[q].id == mintId(q);
    }
    DocumentHashKept(hashes, docs, hashOf, nodes, m, vectorAdd, storesText, storeOverride, nodeHash, k);
  }

  /** Storing the nodes keeps, under each id, the last node with that id and its hash. */
  lemma {:induction false} StoredHolds(docs: map<string, Node>, hashes: map<string, string>,
                                       nodes: seq<Node>, nodeHash: Node -> string, k: nat)
    requires k < |nodes| && forall a :: k < a < |nodes| ==> nodes[a].id != nodes[k].id
    ensures nodes[k].id in Stored(docs, nodes) && Stored(docs, nodes)[nodes[k].id] == nodes[k]
    ensures nodes[k].id in NodeHashes(hashes, nodes, nodeHash)
            && NodeHashes(hashes, nodes, nodeHash)[nodes[k].id] == nodeHash(nodes[k])
  {
    var init := nodes[..|nodes| - 1];
    if k < |init| {
      assert forall a :: k < a < |init| ==> init[a] == nodes[a];
      StoredHolds(docs, hashes, init, nodeHash, k);
    }
  }

  /** Re-recording the node already stored under its id changes nothing there. */
  lemma {:induction false} DocsAfterSame(docs: map<string, Node>, pairs: seq<(Node, string)>,
                                         hashes: map<string, string>, nodeHash: Node -> string, node: Node)
    requires node.id in docs && docs[node.id] == node
    requires node.id in hashes && hashes[node.id] == nodeHash(node)
    requires forall q :: 0 <= q < |pairs| && pairs[q].0.id == node.id ==> pairs[q].0 == node
    ensures node.id in DocsAfter(docs, pairs) && DocsAfter(docs, pairs)[node.id] == node
    ensures node.id in HashesAfter(hashes, pairs, nodeHash)
            && HashesAfter(hashes, pairs, nodeHash)[node.id] == nodeHash(node)
  {
    if pairs != [] {
      var init := pairs[..|pairs| - 1];
      assert forall q :: 0 <= q < |init| ==> init[q] == pairs[q];
      DocsAfterSame(docs, init, hashes, nodeHash, node);
    }
  }

  /** With distinct node ids, every node the index is built from ends up in the
      document store, with its own hash. */
  lemma BuiltNodesStored(docs: map<string, Node>, hashes: map<string, string>, nodes: seq<Node>,
                         m: map<string, Embedding>, vectorAdd: seq<NodeWithEmbedding> -> seq<string>,
                         storesText: bool, storeOverride: bool, nodeHash: Node -> string, k: nat)
    requires AllEmbedded(nodes, m) && DistinctIds(nodes) && k < |nodes|
    ensures var d := BuiltDocs(docs, nodes, m, vectorAdd, storesText, storeOverride);
            nodes[k].id in d && d[nodes[k].id] == nodes[k]
    ensures var h := BuiltHashes(hashes, nodes, m, vectorAdd, storesText, storeOverride, nodeHash);
            nodes[k].id in h && h[nodes[k].id] == nodeHash(nodes[k])
  {
    StoredHolds(docs, hashes, nodes, nodeHash, k);
    var pairs := Recorded(Paired(nodes, m), vectorAdd, storesText, storeOverride);
    var node := nodes[k];
    forall j | 0 <= j < |nodes| ensures nodes[j].id == node.id ==> nodes[j] == node {
      if j != k {
        assert nodes[j].id != nodes[k].id;
      }
    }
    RecordedKeeps(nodes, m, vectorAdd, storesText, storeOverride, (n: Node) => n.id == node.id ==> n == node);
    DocsAfterSame(Stored(docs, nodes), pairs, NodeHashes(hashes, nodes, nodeHash), nodeHash, nodes[k]);
  }
}
