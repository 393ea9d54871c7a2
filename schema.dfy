/** The values the reader produces and the index consumes: document
    metadata, documents and index nodes, as far as the Markdown reader and
    the Markdown index read or write them. */
module Schema {
  import opened Wrappers

  /** The `header` metadata value: no header (`None`), the header line, or
      the `-1` of the whole-file document. */
  datatype HeaderValue = NoHeader | HeaderLine(line: string) | RootHeader

  /** The `header_level` metadata value: `None`, a level, or `-1`. */
  datatype LevelValue = NoLevel | Level(n: nat) | RootLevel

  /** A document's metadata: the four keys the reader sets, over whatever
      other keys the caller's `extra_info` held. */
  datatype Metadata = Metadata(
    filename: string,
    docIdx: int,
    header: HeaderValue,
    headerLevel: LevelValue,
    extra: map<string, string>)

  /** An embedding vector, kept opaque. */
  datatype Embedding = Embedding(values: seq<real>)

  /** A document as the reader builds it. */
  datatype Document = Document(
    id: string,
    text: string,
    metadata: Metadata,
    embedding: Option<Embedding>,
    excludedEmbedKeys: seq<string>,
    excludedLlmKeys: seq<string>)

  /** Node classes the index distinguishes: text nodes (the embed-text nodes
      it builds), image nodes and index nodes. */
  datatype NodeKind = TextKind | ImageKind | IndexKind

  /** Relationship slots of a node. */
  datatype Relation = Source | Previous | Next | Parent | Child

  /** An index node. For the embed-text nodes the index builds, `embedText`
      is the text that is embedded in place of `text`. */
  datatype Node = Node(
    id: string,
    kind: NodeKind,
    text: string,
    embedText: string,
    embedding: Option<Embedding>,
    metadata: Metadata,
    excludedEmbedKeys: seq<string>,
    excludedLlmKeys: seq<string>,
    relationships: map<Relation, string>)

  /** The keys the reader hides from both the embedding and the language model. */
  const ExcludedKeys: seq<string> := ["filename", "doc_idx", "header_level"]

  /** The keys the reader writes into every document's metadata. */
  const ReaderKeys: set<string> := {"filename", "doc_idx", "header", "header_level"}
}
