# Markdown reader and Markdown index

This project models two parts of a document-indexing toolbox built on LlamaIndex.

**The Markdown reader** (`MarkdownReader`) turns one Markdown file into documents.
1. It can strip inline hyperlinks `[label](target)`, keeping the label, and delete Obsidian-style image embeds `![[name]]`.
2. It splits the content into lines and scans them once, cutting them into (level, header, body) triples at every header line (`#`… then whitespace). Whitespace-only lines are skipped.
3. It makes one section document per triple, with metadata: file name, `doc_idx`, header and header level.
4. It adds one whole-file document whose header and level are `-1`.
5. It merges the sections. Each section's text becomes its own text joined with the texts of the deeper sections that follow it directly. Those are its subtree in the header outline.

**The Markdown index** (`MarkDownIndex`) builds an index from those documents.
- Every document's hash is recorded in the document store.
- The whole-file document is cut into chunks by the node parser. Each chunk becomes an embed-text node that embeds its own text.
- Every section is summarised by the response synthesizer into one node. That node keeps the section's text and embeds the summary.
- Building the index from the nodes then does three things. It merges existing embeddings with those the embedding model computes, adds the results to the vector store, and records the admitted nodes in the index structure and the document store.

The third-party services are parameters of the model, given as functions:
- the node parser;
- the synthesizer, which returns `None` when it fails;
- the embedding model's queue-and-answer;
- the vector store's `add`;
- the document hash;
- the id generator.

The call order is made visible as a trace of service calls.

Files:
- `wrappers.dfy`: `Option` and `Result`.
- `text_util.dfy`: `str.isspace`, `split("\n")` and `"\n".join`, with their round trips.
- `schema.dfy`: documents, nodes, metadata and embeddings.
- `markdown_filters.dfy`: the two regular-expression rewrites, written as scanners.
- `markdown_reader.dfy`: the line scanner and `load_data`.
- `markdown_index.dfy`: the index.

Points of the code that are easy to misread:
- Section texts are joined with `"\n"`. So the merged text of `# A\nalpha` with child `## B\nbeta` is `"# A\nalpha\n\n## B\nbeta\n"`.
- The whole-file document's text joins the own texts of all sections, deeper ones included.
- An empty file gives one section with an empty body.
- A failing summary aborts the whole build. The document hashes recorded before it stay recorded.
- Plain lines before the first header are dropped when the file contains a header.
- The index constructor first stores every built node in the document store, each with its node hash, and then adds the nodes to the index.

## Model

| member | source | states |
|---|---|---|
| TextUtil.Split | toolbox/llama_index/readers/file/markdown_reader.py:42 | `split("\n")` yields at least one piece, and no piece holds a newline |
| TextUtil.JoinSplit | toolbox/llama_index/readers/file/markdown_reader.py:42 | joining the lines of a text with `"\n"` gives the text back |
| TextUtil.SplitJoin | toolbox/llama_index/readers/file/markdown_reader.py:123 | splitting the `"\n"`-join of newline-free pieces gives exactly those pieces |
| TextUtil.JoinContains | toolbox/llama_index/readers/file/markdown_reader.py:154 | every element of a list occurs as a contiguous piece of its join |
| MarkdownFilters.LinkAtIsLeftmostLazy | toolbox/llama_index/readers/file/markdown_reader.py:71 | the scanner's link match at a position is a single-line `[..](..)` whose label ends at the first possible `](` and whose target ends at the first `)` after it; when it finds none, no link starts there |
| MarkdownFilters.RemoveHyperlinks | toolbox/llama_index/readers/file/markdown_reader.py:70-73 | replaces every inline link by its label, scanning from the start and resuming after each link's `)`; the link matched at each position is the one `LinkAtIsLeftmostLazy` characterises; the result is never longer than the content |
| MarkdownFilters.RemoveHyperlinksKeepsNewlines | toolbox/llama_index/readers/file/markdown_reader.py:70-73 | removing hyperlinks never adds or removes a line break |
| MarkdownFilters.RemoveHyperlinksNoBracket | toolbox/llama_index/readers/file/markdown_reader.py:70-73 | text without `[` passes unchanged |
| MarkdownFilters.OneLinkMatch | toolbox/llama_index/readers/file/markdown_reader.py:71 | in `pre[caption](target)post` the pattern matches exactly that link, given a caption without `](` and a target without `)`, all on one line |
| MarkdownFilters.RemoveHyperlinksOneLink | toolbox/llama_index/readers/file/markdown_reader.py:70-73 | such a link between `[`-free texts is replaced by its caption and nothing else changes |
| MarkdownFilters.LastCloseSpec | toolbox/llama_index/readers/file/markdown_reader.py:66 | the greedy `(.*)\]\]` ends at the last `]]` of the line, and finds none only when the line has none |
| MarkdownFilters.ImageAtIsGreedy | toolbox/llama_index/readers/file/markdown_reader.py:66 | the scanner's embed match at a position is a single-line `![[..]]`, and no longer such match exists there |
| MarkdownFilters.RemoveImages | toolbox/llama_index/readers/file/markdown_reader.py:65-68 | deletes every `![[..]]` embed, scanning from the start and resuming after each embed's last `]]` on the line; the embed matched at each position is the one `ImageAtIsGreedy` characterises; the result is never longer than the content |
| MarkdownFilters.RemoveImagesKeepsNewlines | toolbox/llama_index/readers/file/markdown_reader.py:65-68 | removing embeds never adds or removes a line break |
| MarkdownFilters.RemoveImagesNoBang | toolbox/llama_index/readers/file/markdown_reader.py:65-68 | text without `!` passes unchanged |
| MarkdownFilters.RemoveImagesOneEmbed | toolbox/llama_index/readers/file/markdown_reader.py:65-68 | `pre![[name]]post` loses exactly the embed, for a `!`-free prefix and a suffix without `]` or `!` |
| MarkdownFilters.Preprocess | toolbox/llama_index/readers/file/markdown_reader.py:83-86 | removes hyperlinks first when that flag is set, then images when that flag is set; the result is never longer than the content |
| MarkdownFilters.PreprocessKeepsLines | toolbox/llama_index/readers/file/markdown_reader.py:83-86 | with both flags off the content is untouched; with any flags the number of lines is kept |
| MarkdownFilters.StandardImageBecomesBangLabel | toolbox/llama_index/readers/file/markdown_reader.py:83-86 | with the default flags a standard image `![alt](url)` is not deleted: the hyperlink pass runs first and leaves `!alt` |
| MarkdownReader.LeadingHashes | toolbox/llama_index/readers/file/markdown_reader.py:56-57 | the header level is the number of `#` the line starts with: all of them are `#` and the next character is not |
| MarkdownReader.IsHeader | toolbox/llama_index/readers/file/markdown_reader.py:51 | a line is a header when its leading run of `#` is non-empty and followed by a whitespace character; such a line starts with `#` and has at least two characters |
| MarkdownReader.HeaderMatch | toolbox/llama_index/readers/file/markdown_reader.py:51 | a line matches `^#+\s` exactly when some non-empty run of leading `#` is followed by whitespace, which happens exactly when the whole leading run is; a header is never whitespace-only |
| MarkdownReader.PendingBlank | toolbox/llama_index/readers/file/markdown_reader.py:49-50 | skipping a whitespace-only line leaves the pending result unchanged |
| MarkdownReader.PendingPlain | toolbox/llama_index/readers/file/markdown_reader.py:60-61 | appending `line + "\n"` to the current body keeps the pending result unchanged |
| MarkdownReader.PendingHeader | toolbox/llama_index/readers/file/markdown_reader.py:53-59 | a header line flushes the current triple when there is a header, and opens a new one with its level |
| MarkdownReader.MarkdownToTups | toolbox/llama_index/readers/file/markdown_reader.py:40-63 | the scanning loop returns `Tups` of the lines of the text |
| MarkdownReader.TupsWithoutHeaders | toolbox/llama_index/readers/file/markdown_reader.py:62 | there is no header line if and only if the result is the single headerless triple whose body is every non-blank line with its newline |
| MarkdownReader.TupsHeaders | toolbox/llama_index/readers/file/markdown_reader.py:51-59 | with header lines, there is one triple per header line in order; each carries that line and its count of leading `#` (at least 1) |
| MarkdownReader.TupsBodies | toolbox/llama_index/readers/file/markdown_reader.py:49-61 | every body is a run of plain, non-blank lines, each followed by `"\n"` |
| MarkdownReader.TupsRender | toolbox/llama_index/readers/file/markdown_reader.py:53-62 | rendering the triples back (`header\nbody`) gives exactly the kept lines; with headers present, the kept lines are the non-blank lines from the first header on |
| MarkdownReader.BlankLineIgnored | toolbox/llama_index/readers/file/markdown_reader.py:49-50 | inserting a whitespace-only line anywhere changes no triple |
| MarkdownReader.TupsHeaded | toolbox/llama_index/readers/file/markdown_reader.py:53-62 | with two or more triples, every triple has a level and a header |
| MarkdownReader.EmptyFile | toolbox/llama_index/readers/file/markdown_reader.py:62 | an empty file gives one triple with no level, no header and an empty body |
| MarkdownReader.PreHeaderTextDropped | toolbox/llama_index/readers/file/markdown_reader.py:53-54 | a plain line before the first header is lost: `["intro","# A"," ","alpha"]` gives the single triple `(1, "# A", "alpha\n")` |
| MarkdownReader.SectionDocuments | toolbox/llama_index/readers/file/markdown_reader.py:97-118 | one document per triple in order; the k-th has `doc_idx` k, the triple's header and level (or `None`), text `header\nbody` or the body alone, the extra metadata without the reader's own keys, and the three excluded keys |
| MarkdownReader.RunEndSpec | toolbox/llama_index/readers/file/markdown_reader.py:145-149 | the children the merge collects are the sections directly after it that are strictly deeper; the first section that is not deeper ends the run |
| MarkdownReader.InSubtreeIff | toolbox/llama_index/readers/file/markdown_reader.py:145-151 | a later section belongs to a section's merged text if and only if every section in between, and the section itself, is deeper than it |
| MarkdownReader.SubtreesNest | toolbox/llama_index/readers/file/markdown_reader.py:145-151 | the subtree of a section inside another's subtree ends no later than the outer one |
| MarkdownReader.ChildrenInOrder | toolbox/llama_index/readers/file/markdown_reader.py:153 | sorting the collected children by `doc_idx` leaves them in scan order |
| MarkdownReader.SortByDocIdxSpec | toolbox/llama_index/readers/file/markdown_reader.py:153 | the sort returns a permutation of its input, ordered by `doc_idx` |
| MarkdownReader.SortSortedIsIdentity | toolbox/llama_index/readers/file/markdown_reader.py:153 | sorting a list already ordered by `doc_idx` changes nothing |
| MarkdownReader.SubtreeTexts | toolbox/llama_index/readers/file/markdown_reader.py:154 | the texts the merge joins are the own texts of the section and its run of children, in order |
| MarkdownReader.MergeSections | toolbox/llama_index/readers/file/markdown_reader.py:140-155 | the merge keeps every section document, replacing only its text with the `"\n"`-join of its subtree's own texts |
| MarkdownReader.OwnTextInAncestors | toolbox/llama_index/readers/file/markdown_reader.py:154 | a section's own text occurs in the merged text of every section whose subtree holds it |
| MarkdownReader.LeafKeepsOwnText | toolbox/llama_index/readers/file/markdown_reader.py:148-155 | a section not followed by a deeper one keeps its own text |
| MarkdownReader.NestedExample | toolbox/llama_index/readers/file/markdown_reader.py:140-155 | for levels 1, 2, 1, the first section's text is `"# A\nalpha\n\n## B\nbeta\n"`; the other two keep their own texts |
| MarkdownReader.WholeFileLines | toolbox/llama_index/readers/file/markdown_reader.py:123 | the lines of the whole-file text are the lines of every section's own text, in order |
| MarkdownReader.WholeFileHoldsEverySection | toolbox/llama_index/readers/file/markdown_reader.py:120-137 | every section's own text, deeper sections included, occurs in the whole-file document's text |
| MarkdownReader.TupsIdempotent | toolbox/llama_index/readers/file/markdown_reader.py:40-63 | for newline-free lines, scanning the lines of the `"\n"`-join of the triples' own texts gives exactly the same triples |
| MarkdownReader.RescanWholeFile | toolbox/llama_index/readers/file/markdown_reader.py:120-123 | for any text, scanning the whole-file document's text gives back the triples of the text |
| MarkdownReader.NoHeaderWholeFileIsSection | toolbox/llama_index/readers/file/markdown_reader.py:120-155 | a file without a header line has exactly one section, and its merged text equals the whole-file document's text |
| MarkdownReader.LoadData | toolbox/llama_index/readers/file/markdown_reader.py:90-158 | the whole-file document comes first (`doc_idx` -1, header and level -1, the `"\n"`-join of all own texts); then one document per triple, in scan order, each with its aggregated subtree text |
| MarkDownIndex.GetNodeEmbeddingResults | toolbox/llama_index/indices/markdown_index/base.py:71-99 | fails (`KeyError`) if and only if some node's id has no embedding once the model's answer is merged over the existing ones; on success it pairs every node, in order, with the embedding for its id |
| MarkDownIndex.QueuedExactly | toolbox/llama_index/indices/markdown_index/base.py:78-84 | a pair is queued if and only if it is the id and embed content of a node without an embedding |
| MarkDownIndex.NothingQueued | toolbox/llama_index/indices/markdown_index/base.py:78-84 | when every node has an embedding, nothing is queued |
| MarkDownIndex.EmbeddedNotQueued | toolbox/llama_index/indices/markdown_index/base.py:78-84 | with distinct ids, the id of a node that has an embedding is never queued |
| MarkDownIndex.ExistingEmbeddingKept | toolbox/llama_index/indices/markdown_index/base.py:78-98 | with distinct ids, and a model that answers only queued ids, a node's existing embedding is the one it is paired with |
| MarkDownIndex.EveryQueuedAnswered | toolbox/llama_index/indices/markdown_index/base.py:87-98 | when the model answers every queued id, the lookup succeeds for every node |
| MarkDownIndex.UnansweredFails | toolbox/llama_index/indices/markdown_index/base.py:94-98 | a node left unanswered, with no same-id node carrying an embedding, makes the lookup raise |
| MarkDownIndex.Paired | toolbox/llama_index/indices/markdown_index/base.py:94-98 | one result per node, in order, carrying the node and the embedding for its id |
| MarkDownIndex.IndexDict.constructor | toolbox/llama_index/indices/markdown_index/base.py:128 | a new index structure is empty |
| MarkDownIndex.IndexDict.AddNode | toolbox/llama_index/indices/markdown_index/base.py:117 | records the node's id under the text id, changing no other entry |
| MarkDownIndex.DocStore.constructor | toolbox/llama_index/indices/markdown_index/base.py:146-148 | a new document store holds no node and no hash |
| MarkDownIndex.DocStore.SetDocumentHash | toolbox/llama_index/indices/markdown_index/base.py:152 | sets one document's hash and leaves the stored nodes alone |
| MarkDownIndex.DocStore.AddDocument | toolbox/llama_index/indices/markdown_index/base.py:118 | `add_documents([node], allow_update=True)`: stores or replaces the node under its id and records the node's hash under that id, in the same map `set_document_hash` writes |
| MarkDownIndex.RecordAdmitted | toolbox/llama_index/indices/markdown_index/base.py:113-125 | walks `zip(results, new_ids)` and records exactly the admitted pairs, in order, in the index structure and the document store, and records each admitted node's hash under its id |
| MarkDownIndex.AddNodesToIndex | toolbox/llama_index/indices/markdown_index/base.py:101-125 | an empty list, or a failed lookup, changes nothing; otherwise the index map, the stored nodes and the hashes become the old ones updated with the admitted pairs of the zipped results and vector-store ids. It succeeds if and only if the list is empty or every node is embedded |
| MarkDownIndex.BuildIndexFromNodes | toolbox/llama_index/indices/markdown_index/base.py:127-132 | a fresh index structure ends up holding exactly the admitted pairs, with the same outcome and document-store effect as adding the nodes |
| MarkDownIndex.AdmittedAll | toolbox/llama_index/indices/markdown_index/base.py:113-118 | when the vector store does not keep text, or storing is forced, every zipped pair is recorded |
| MarkDownIndex.AdmittedOnlyImageAndIndex | toolbox/llama_index/indices/markdown_index/base.py:119-125 | otherwise a pair is recorded if and only if its node is an image or index node |
| MarkDownIndex.TextNodesNotRecorded | toolbox/llama_index/indices/markdown_index/base.py:119-125 | with a text-keeping store and no override, text nodes (all the nodes this index builds) are never recorded |
| MarkDownIndex.RecordingKeepsConsistent | toolbox/llama_index/indices/markdown_index/base.py:113-125 | if every index entry names a node held by the document store, that stays true after recording |
| MarkDownIndex.RecordHashes | toolbox/llama_index/indices/markdown_index/base.py:151-152 | records every document's hash, one call each in document order, and stores no node |
| MarkDownIndex.AppendChunkNodes | toolbox/llama_index/indices/markdown_index/base.py:160-172 | appends one embed-text node per chunk, in order, the k-th new node taking the next fresh id |
| MarkDownIndex.IsRoot | toolbox/llama_index/indices/markdown_index/base.py:156 | the whole-file document is the one whose header is `-1`; a section's header, a line or `None`, never is |
| MarkDownIndex.NodesFor | toolbox/llama_index/indices/markdown_index/base.py:156-191 | the nodes one document contributes: the chunk nodes of the whole-file document, or the one summary node of a section; `None` exactly when a section's summary fails |
| MarkDownIndex.AddNodesFor | toolbox/llama_index/indices/markdown_index/base.py:156-191 | one pass of the loop appends exactly the nodes `NodesFor` gives for the document, or fails with it, and makes that document's one service call |
| MarkDownIndex.BuildNodesFromDocuments | toolbox/llama_index/indices/markdown_index/base.py:150-191 | leaves the hashes of all documents recorded, stores no node, returns the specified build (or `None` once a summary fails), and makes the hash calls before the parser and synthesizer calls |
| MarkDownIndex.StoreNodes | toolbox/llama_index/indices/markdown_index/base.py:193-199 | the index constructor's `add_documents(nodes, allow_update=True)`: every node is stored under its id with its hash, later nodes replacing earlier ones with the same id |
| MarkDownIndex.ConstructIndex | toolbox/llama_index/indices/markdown_index/base.py:193-199 | `cls(nodes=nodes, ...)`: stores every node, then builds a fresh index structure holding exactly the admitted pairs; when some node has no embedding, no index results and only the stored nodes remain |
| MarkDownIndex.FromDocuments | toolbox/llama_index/indices/markdown_index/base.py:135-199 | makes the hash calls and then one parser or synthesizer call per document, up to a failing summary; no index results from a failing summary (hashes recorded, nothing stored) or a missing embedding (hashes recorded, nodes stored); otherwise the index holds exactly the admitted pairs of the built nodes and the document store holds every built node with its hash, the admitted ones written a second time |
| MarkDownIndex.FailureSticks | toolbox/llama_index/indices/markdown_index/base.py:173-177 | once a summary fails, every longer list of documents fails too |
| MarkDownIndex.BuildSucceedsIff | toolbox/llama_index/indices/markdown_index/base.py:154-191 | the build succeeds if and only if every non-root document's summary succeeds |
| MarkDownIndex.NodeCount | toolbox/llama_index/indices/markdown_index/base.py:154-191 | a successful build yields one node per chunk of each whole-file document plus one node per other document |
| MarkDownIndex.OneCallPerDocument | toolbox/llama_index/indices/markdown_index/base.py:154-191 | a successful build makes one service call per document, in order: the parser for the whole-file document, the synthesizer with the query for the others |
| MarkDownIndex.HashCallsSpec | toolbox/llama_index/indices/markdown_index/base.py:151-152 | the hash calls are one per document, in order, each with that document's id and hash |
| MarkDownIndex.HashesBeforeNodes | toolbox/llama_index/indices/markdown_index/base.py:151-158 | in the trace every document's hash call comes before each parser or synthesizer call |
| MarkDownIndex.HashRecorded | toolbox/llama_index/indices/markdown_index/base.py:151-152 | every document's id ends up with a hash, the hash of the last document with that id |
| MarkDownIndex.RootChunks | toolbox/llama_index/indices/markdown_index/base.py:156-172 | the whole-file document yields one text node per chunk, in order; each embeds its own text and keeps the chunk's metadata, excluded keys and relationships |
| MarkDownIndex.SectionNode | toolbox/llama_index/indices/markdown_index/base.py:173-191 | any other document yields a single text node: it keeps the document's text and metadata, embeds the summary, and has the document as its only relationship (source) |
| MarkDownIndex.DocumentOrder | toolbox/llama_index/indices/markdown_index/base.py:154-191 | the nodes of the first i documents form a prefix of the build's output |
| MarkDownIndex.StoredHolds | toolbox/llama_index/indices/markdown_index/base.py:193-199 | after storing a node list, the last node with a given id is the one stored under it, with its own hash |
| MarkDownIndex.BuiltNodesStored | toolbox/llama_index/indices/markdown_index/base.py:193-199 | with distinct node ids, every built node ends up in the document store under its id, with its hash, whether or not it is admitted |
| MarkDownIndex.DocumentHashKept | toolbox/llama_index/indices/markdown_index/base.py:150-199 | a document's recorded hash (the last document with its id) survives the index construction when no node has that id |
| MarkDownIndex.DocumentHashesSurvive | toolbox/llama_index/indices/markdown_index/base.py:150-199 | when the id generator never yields a document's id, that document's hash is still recorded after `from_documents` succeeds |
| MarkDownIndex.FreshIds | toolbox/llama_index/indices/markdown_index/base.py:161-190 | the k-th node built takes the k-th fresh id, so the ids are distinct when the generator's are |
| MarkDownIndex.BuiltNodesAreText | toolbox/llama_index/indices/markdown_index/base.py:161-190 | every node the build makes is an embed-text node |

## Left out

- Reading the file from disk (`parse_tups` open/read, the `Path` argument) and the demo script: the model starts from the file's content and its name.
- Mutating or aliasing the caller's `extra_info` dict: the model treats metadata as a value. It removes the reader's own keys from a copy.
- A missing `"header"` key in a document's metadata (`KeyError` in `from_documents`): every modelled document has a header field, so this case cannot occur.
- Document and node ids (`uuid`s in the library) come from an id-generator parameter, `mintId`. Document hashes come from a hash parameter.
- The node parser, the response synthesizer, the embedding model and the vector store are parameters. Their internals are not modelled: chunking, LLM calls, the model's own request queue holding earlier requests, and the stored vectors.
- A summarizer exception is modelled as a `None` answer that stops the build.
- The library's `IndexDict.add_node` and document store are modelled as map updates: `add_node` puts the id under the text id, and `add_documents(allow_update=True)` stores or replaces by id.
- The `BaseIndex` constructor and the library's `KVDocumentStore` are not part of this model. Their behaviour is modelled as LlamaIndex defines it: the constructor stores all nodes with `add_documents(nodes, allow_update=True)` and then calls `_build_index_from_nodes`, and `add_documents` records each node's hash under its id in the map `set_document_hash` writes. The node hash is the `nodeHash` parameter.
- The constructor's registration of the index structure in the index store (`add_index_struct`), its service-context and storage-context wiring, and the `ref_doc_info` entries `add_documents` writes are not modelled.
- `metadata_seperator` and `text_template` only affect how node text is rendered for embedding, so they are not modelled. The rendering is the `embedContent` parameter.
- `as_retriever`, `ref_doc_info`, `_delete_node` and `_insert` belong to the index class but not to the building path, so they are not modelled.
- With no synthesizer passed in, `from_documents` would fail when calling it. The model always takes a synthesizer.
- The callback-manager trace, the progress bar and `show_progress` are not modelled.
- MarkdownFilters.RemoveHyperlinksOneLink: states the rewrite for one link with `[`-free surroundings only. The general behaviour is given by `RemoveHyperlinksFrom` together with `LinkAtIsLeftmostLazy`.
- MarkdownFilters.RemoveImagesOneEmbed: states the rewrite for one embed only. The general behaviour is given by `RemoveImagesFrom` together with `ImageAtIsGreedy`.
- MarkDownIndex.ExistingEmbeddingKept: assumes distinct node ids and a model that answers only queued ids. With duplicate ids, or a model answering other ids, later entries of `id_to_embed_map` overwrite earlier ones, as the source does. These lemmas do not characterise that case.
