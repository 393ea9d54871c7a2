/** `MarkdownReader`: the one-pass line scanner that cuts a Markdown file into
    `(header_level, header, text)` triples, and `load_data`, which turns the
    triples into section documents, adds a whole-file document and replaces
    each section's text by the text of its whole subtree. */
module MarkdownReader {
  import opened Wrappers
  import opened TextUtil
  import opened MarkdownFilters
  import opened Schema

  // ---------------------------------------------------------------------
  // Header lines
  // ---------------------------------------------------------------------

  /** Number of `#` the line starts with. */
  function LeadingHashes(line: string): (n: nat)
    ensures n <= |line|
    ensures forall k :: 0 <= k < n ==> line[k] == '#'
    ensures n < |line| ==> line[n] != '#'
  {
    if line == [] || line[0] != '#' then 0 else 1 + LeadingHashes(line[1..])
  }

  /** `re.match(r"^#+\s", line)` succeeds: one or more `#`, then whitespace. */
  predicate IsHeader(line: string)
    ensures IsHeader(line) ==> 2 <= |line| && line[0] == '#'
  {
    var n := LeadingHashes(line);
    1 <= n < |line| && IsSpace(line[n])
  }

  /** `IsHeader` is the regular expression, backtracking included: some
      non-empty run of `#` at the start is followed by whitespace exactly when
      the whole run of leading `#` is, and the level `len(match.rstrip())` is
      the length of that whole run. */
  lemma HeaderMatch(line: string)
    ensures IsHeader(line) <==>
            exists n: nat :: 1 <= n < |line| && IsSpace(line[n]) && forall k :: 0 <= k < n ==> line[k] == '#'
    ensures IsHeader(line) ==> LeadingHashes(line) >= 1 && !IsBlank(line)
  {
    var h := LeadingHashes(line);
    if IsHeader(line) {
      assert !IsSpace(line[0]);
    }
    forall n: nat | 1 <= n < |line| && IsSpace(line[n]) && forall k :: 0 <= k < n ==> line[k] == '#'
      ensures n == h
    {
    }
  }

  // ---------------------------------------------------------------------
  // The triples, as a decomposition of the lines
  // ---------------------------------------------------------------------

  /** One triple of `markdown_to_tups`: the header level and header line
      (`None` for the headerless section) and the accumulated body. */
  datatype Tup = Tup(level: Option<nat>, header: Option<string>, body: string)

  /** The lines that are not skipped as whitespace-only. */
  function NonBlank(lines: seq<string>): seq<string> {
    if lines == [] then []
    else (if IsBlank(lines[0]) then [] else [lines[0]]) + NonBlank(lines[1..])
  }

  /** The header lines, in order. */
  function HeaderLines(lines: seq<string>): seq<string> {
    if lines == [] then []
    else (if IsHeader(lines[0]) then [lines[0]] else []) + HeaderLines(lines[1..])
  }

  /** How a body accumulates lines: `line + "\n"` for each. */
  function Body(lines: seq<string>): string {
    if lines == [] then "" else lines[0] + "\n" + Body(lines[1..])
  }

  /** Number of leading lines that are not headers. */
  function PlainRun(lines: seq<string>): (p: nat)
    ensures p <= |lines|
    ensures p < |lines| ==> IsHeader(lines[p])
  {
    if lines == [] || IsHeader(lines[0]) then 0 else 1 + PlainRun(lines[1..])
  }

  /** The triples of non-blank lines that start with a header: each header
      takes the plain lines up to the next header as its body. */
  function Sections(lines: seq<string>): seq<Tup>
    requires lines == [] || IsHeader(lines[0])
    decreases |lines|
  {
    if lines == [] then []
    else
      var rest := lines[1..];
      var p := PlainRun(rest);
      [Tup(Some(LeadingHashes(lines[0])), Some(lines[0]), Body(rest[..p]))] + Sections(rest[p..])
  }

  /** What `markdown_to_tups` returns for the lines `text.split("\n")`. Without
      any header all non-blank lines form one headerless triple; otherwise
      the plain lines before the first header are dropped and every header
      starts a triple. */
  function Tups(lines: seq<string>): seq<Tup> {
    var nb := NonBlank(lines);
    var p := PlainRun(nb);
    if p == |nb| then [Tup(None, None, Body(nb))] else Sections(nb[p..])
  }

  /** The lines a scan keeps: all non-blank lines, from the first header on
      when there is one. */
  function Kept(lines: seq<string>): seq<string> {
    var nb := NonBlank(lines);
    var p := PlainRun(nb);
    if p == |nb| then nb else nb[p..]
  }

  // ---------------------------------------------------------------------
  // The scanner
  // ---------------------------------------------------------------------

  /** The triples a scan still holds, or will produce, when it is in the
      given state with the lines `rest` left to read. */
  function Pending(tups: seq<Tup>, level: Option<nat>, header: Option<string>, text: string,
                   rest: seq<string>): seq<Tup>
  {
    var nb := NonBlank(rest);
    var p := PlainRun(nb);
    var current := Tup(level, header, text + Body(nb[..p]));
    if p == |nb| then tups + [current]
    else (if header.Some? then tups + [current] else tups) + Sections(nb[p..])
  }

  /** Skipping a whitespace-only line leaves what is pending unchanged. */
  lemma PendingBlank(tups: seq<Tup>, level: Option<nat>, header: Option<string>, text: string,
                     rest: seq<string>)
    requires rest != [] && IsBlank(rest[0])
    ensures Pending(tups, level, header, text, rest) == Pending(tups, level, header, text, rest[1..])
  {
    assert NonBlank(rest) == NonBlank(rest[1..]);
  }

  /** Reading a plain line extends the run of plain lines by one. */
  lemma PlainCons(line: string, rest: seq<string>)
    requires !IsBlank(line) && !IsHeader(line)
    ensures var nb', nb := NonBlank(rest), NonBlank([line] + rest);
            PlainRun(nb) == 1 + PlainRun(nb')
            && Body(nb[..PlainRun(nb)]) == line + "\n" + Body(nb'[..PlainRun(nb')])
            && nb[PlainRun(nb)..] == nb'[PlainRun(nb')..]
            && |nb| == 1 + |nb'|
  {
    var nb', nb := NonBlank(rest), NonBlank([line] + rest);
    assert ([line] + rest)[1..] == rest;
    assert nb == [line] + nb';
    assert nb[1..] == nb';
    var p' := PlainRun(nb');
    assert nb[..1 + p'][1..] == nb'[..p'];
    assert nb[1 + p'..] == nb'[p'..];
  }

  /** Appending a plain line to the body leaves what is pending unchanged. */
  lemma PendingPlain(tups: seq<Tup>, level: Option<nat>, header: Option<string>, text: string,
                     rest: seq<string>)
    requires rest != [] && !IsBlank(rest[0]) && !IsHeader(rest[0])
    ensures Pending(tups, level, header, text, rest)
            == Pending(tups, level, header, text + rest[0] + "\n", rest[1..])
  {
    var line := rest[0];
    PlainCons(line, rest[1..]);
    var nb' := NonBlank(rest[1..]);
    var b' := Body(nb'[..PlainRun(nb')]);
    assert text + (line + "\n" + b') == text + line + "\n" + b';
  }

  /** Reading a header line leaves no plain run in front of it. */
  lemma HeaderCons(line: string, rest: seq<string>)
    requires IsHeader(line)
    ensures var nb', nb := NonBlank(rest), NonBlank([line] + rest);
            nb == [line] + nb' && PlainRun(nb) == 0 && nb[..0] == [] && nb[0..] == nb
  {
    HeaderMatch(line);
    assert ([line] + rest)[1..] == rest;
  }

  /** The triples a header line opens, when the lines after it are `rest`. */
  lemma SectionsCons(line: string, rest: seq<string>)
    requires IsHeader(line)
    ensures var nb' := NonBlank(rest);
            var p' := PlainRun(nb');
            Sections([line] + nb')
            == [Tup(Some(LeadingHashes(line)), Some(line), Body(nb'[..p']))]
               + (if p' == |nb'| then [] else Sections(nb'[p'..]))
  {
    var nb' := NonBlank(rest);
    assert ([line] + nb')[1..] == nb';
    if PlainRun(nb') == |nb'| {
      assert nb'[|nb'|..] == [];
    }
  }

  /** A header line closes the current triple, when there is one, and opens
      a new one; what is pending stays the same. */
  lemma PendingHeader(tups: seq<Tup>, level: Option<nat>, header: Option<string>, text: string,
                      rest: seq<string>)
    requires rest != [] && IsHeader(rest[0])
    ensures var closed := if header.Some? then tups + [Tup(level, header, text)] else tups;
            Pending(tups, level, header, text, rest)
            == Pending(closed, Some(LeadingHashes(rest[0])), Some(rest[0]), "", rest[1..])
  {
    var line := rest[0];
    assert rest == [rest[0]] + rest[1..];
    HeaderCons(line, rest[1..]);
    SectionsCons(line, rest[1..]);
    var nb' := NonBlank(rest[1..]);
    var p' := PlainRun(nb');
    var closed := if header.Some? then tups + [Tup(level, header, text)] else tups;
    var cur := Tup(Some(LeadingHashes(line)), Some(line), Body(nb'[..p']));
    assert text + Body([]) == text;
    assert "" + Body(nb'[..p']) == Body(nb'[..p']);
    assert Pending(tups, level, header, text, rest) == closed + Sections([line] + nb');
    if p' == |nb'| {
      assert [cur] + [] == [cur];
    } else {
      assert closed + ([cur] + Sections(nb'[p'..])) == closed + [cur] + Sections(nb'[p'..]);
    }
  }

  /** The scan starts with nothing pending but the whole answer. */
  lemma PendingStart(lines: seq<string>)
    ensures Pending([], None, None, "", lines) == Tups(lines)
  {
    var nb := NonBlank(lines);
    var p := PlainRun(nb);
    assert "" + Body(nb[..p]) == Body(nb[..p]);
    if p == |nb| {
      assert nb[..p] == nb;
    }
  }

  /** `MarkdownReader.markdown_to_tups`. */
  method MarkdownToTups(markdownText: string) returns (tups: seq<Tup>)
    ensures tups == Tups(Split(markdownText))
  {
    var lines := Split(markdownText);
    tups := [];
    var level: Option<nat> := None;
    var header: Option<string> := None;
    var text := "";
    PendingStart(lines);
    for i := 0 to |lines|
      invariant Pending(tups, level, header, text, lines[i..]) == Tups(lines)
    {
      var line := lines[i];
      assert lines[i..][0] == line && lines[i..][1..] == lines[i + 1..];
      if IsBlank(line) {
        PendingBlank(tups, level, header, text, lines[i..]);
        continue;
      }
      if IsHeader(line) {
        PendingHeader(tups, level, header, text, lines[i..]);
        if header.Some? {
          tups := tups + [Tup(level, header, text)];
        }
        level := Some(LeadingHashes(line));
        header := Some(line);
        text := "";
      } else {
        PendingPlain(tups, level, header, text, lines[i..]);
        text := text + line + "\n";
      }
    }
    assert lines[|lines|..] == [];
    assert text + Body([]) == text;
    tups := tups + [Tup(level, header, text)];
  }

  // ---------------------------------------------------------------------
  // Properties of the triples
  // ---------------------------------------------------------------------

  /** Header lines are never whitespace-only, so skipping blank lines keeps them all. */
  lemma {:induction false} HeaderLinesNonBlank(lines: seq<string>)
    ensures HeaderLines(NonBlank(lines)) == HeaderLines(lines)
  {
    if lines != [] {
      HeaderMatch(lines[0]);
      HeaderLinesNonBlank(lines[1..]);
      HeaderLinesAppend(if IsBlank(lines[0]) then [] else [lines[0]], NonBlank(lines[1..]));
    }
  }

  lemma {:induction false} HeaderLinesAppend(a: seq<string>, b: seq<string>)
    ensures HeaderLines(a + b) == HeaderLines(a) + HeaderLines(b)
  {
    if a != [] {
      assert (a + b)[1..] == a[1..] + b;
      HeaderLinesAppend(a[1..], b);
    } else {
      assert a + b == b;
    }
  }

  /** A run of plain lines holds no header. */
  lemma {:induction false} PlainRunNoHeaders(lines: seq<string>)
    ensures HeaderLines(lines[..PlainRun(lines)]) == []
    ensures HeaderLines(lines) == HeaderLines(lines[PlainRun(lines)..])
  {
    var p := PlainRun(lines);
    if lines != [] && !IsHeader(lines[0]) {
      PlainRunNoHeaders(lines[1..]);
      assert lines[..p] == [lines[0]] + lines[1..][..p - 1];
      assert lines[p..] == lines[1..][p - 1..];
      HeaderLinesAppend([lines[0]], lines[1..][..p - 1]);
      HeaderLinesAppend([lines[0]], lines[1..]);
    } else {
      assert lines[..p] == [] && lines[p..] == lines;
    }
  }

  /** No line is whitespace-only. */
  predicate AllNonBlank(lines: seq<string>) {
    forall k :: 0 <= k < |lines| ==> !IsBlank(lines[k])
  }

  /** No line is a header. */
  predicate AllPlain(lines: seq<string>) {
    forall k :: 0 <= k < |lines| ==> !IsHeader(lines[k])
  }

  /** A body made of plain, non-blank lines, each with its newline. */
  ghost predicate PlainBody(body: string) {
    exists ls: seq<string> :: body == Body(ls) && AllPlain(ls) && AllNonBlank(ls)
  }

  /** The lines of a run of plain lines are plain. */
  lemma {:induction false} PlainRunPlain(lines: seq<string>)
    ensures AllPlain(lines[..PlainRun(lines)])
  {
    if lines != [] && !IsHeader(lines[0]) {
      PlainRunPlain(lines[1..]);
      var p := PlainRun(lines);
      assert forall k :: 1 <= k < p ==> lines[..p][k] == lines[1..][..p - 1][k - 1];
    }
  }

  /** A slice of non-blank lines is non-blank. */
  lemma NonBlankSlice(lines: seq<string>, a: nat, b: nat)
    requires a <= b <= |lines| && AllNonBlank(lines)
    ensures AllNonBlank(lines[a..b])
  {
    assert forall k :: 0 <= k < b - a ==> lines[a..b][k] == lines[a + k];
  }

  /** A body splits where its lines do. */
  lemma BodySplit(lines: seq<string>, p: nat)
    requires p <= |lines|
    ensures Body(lines) == Body(lines[..p]) + Body(lines[p..])
  {
    assert lines[..p] + lines[p..] == lines;
    BodyAppend(lines[..p], lines[p..]);
  }

  /** The text a triple stands for: `f"{header}\n{text}"`, or the body alone. */
  function OwnText(t: Tup): string {
    if t.header.Some? then t.header.value + "\n" + t.body else t.body
  }

  /** Concatenation of the triples' texts. */
  function Rendered(tups: seq<Tup>): string {
    if tups == [] then "" else OwnText(tups[0]) + Rendered(tups[1..])
  }

  lemma {:induction false} BodyAppend(a: seq<string>, b: seq<string>)
    ensures Body(a + b) == Body(a) + Body(b)
  {
    if a != [] {
      assert (a + b)[1..] == a[1..] + b;
      BodyAppend(a[1..], b);
    } else {
      assert a + b == b;
    }
  }

  /** The header lines of a header line and its plain lines after it. */
  lemma SectionsHeadHeaders(lines: seq<string>)
    requires lines != [] && IsHeader(lines[0])
    ensures HeaderLines(lines) == [lines[0]] + HeaderLines(lines[1..][PlainRun(lines[1..])..])
  {
    PlainRunNoHeaders(lines[1..]);
  }

  /** The lines of a header line and its plain lines after it. */
  lemma SectionsHeadBody(lines: seq<string>)
    requires lines != []
    ensures var rest := lines[1..];
            Body(lines) == lines[0] + "\n" + Body(rest[..PlainRun(rest)]) + Body(rest[PlainRun(rest)..])
  {
    var rest := lines[1..];
    var p := PlainRun(rest);
    BodySplit(rest, p);
    assert lines[0] + "\n" + (Body(rest[..p]) + Body(rest[p..])) == lines[0] + "\n" + Body(rest[..p]) + Body(rest[p..]);
  }

  /** Triples of lines that start with a header: one per header line, with
      that line and its level. */
  lemma {:induction false} SectionsHeaders(lines: seq<string>)
    requires lines == [] || IsHeader(lines[0])
    ensures var r, h := Sections(lines), HeaderLines(lines);
            |r| == |h| && forall k :: 0 <= k < |r| ==> r[k].header == Some(h[k]) && r[k].level == Some(LeadingHashes(h[k]))
    decreases |lines|
  {
    if lines != [] {
      SectionsHeadHeaders(lines);
      var rest := lines[1..];
      SectionsHeaders(rest[PlainRun(rest)..]);
    }
  }

  /** Every body of such triples is made of plain, non-blank lines. */
  lemma {:induction false} SectionsBodies(lines: seq<string>)
    requires lines == [] || IsHeader(lines[0])
    requires AllNonBlank(lines)
    ensures forall k :: 0 <= k < |Sections(lines)| ==> PlainBody(Sections(lines)[k].body)
    decreases |lines|
  {
    if lines != [] {
      var rest := lines[1..];
      var p := PlainRun(rest);
      NonBlankSlice(lines, 1, |lines|);
      NonBlankSlice(rest, 0, p);
      NonBlankSlice(rest, p, |rest|);
      PlainRunPlain(rest);
      assert rest[0..p] == rest[..p] && rest[p..|rest|] == rest[p..];
      SectionsBodies(rest[p..]);
      assert PlainBody(Body(rest[..p]));
    }
  }

  /** Such triples render back exactly their lines. */
  lemma {:induction false} SectionsRender(lines: seq<string>)
    requires lines == [] || IsHeader(lines[0])
    ensures Rendered(Sections(lines)) == Body(lines)
    decreases |lines|
  {
    if lines != [] {
      SectionsHeadBody(lines);
      var rest := lines[1..];
      var p := PlainRun(rest);
      SectionsRender(rest[p..]);
      var t := Sections(lines)[0];
      assert Sections(lines)[1..] == Sections(rest[p..]);
      assert OwnText(t) == lines[0] + "\n" + Body(rest[..p]);
    }
  }

  lemma {:induction false} NonBlankNonBlank(lines: seq<string>)
    ensures AllNonBlank(NonBlank(lines))
  {
    if lines != [] {
      NonBlankNonBlank(lines[1..]);
    }
  }

  lemma {:induction false} PlainRunAll(lines: seq<string>)
    ensures PlainRun(lines) == |lines| <==> HeaderLines(lines) == []
  {
    if lines != [] {
      PlainRunAll(lines[1..]);
    }
  }

  /** With no header line `markdown_to_tups` returns one headerless triple
      holding every non-blank line, and only then. */
  lemma TupsWithoutHeaders(lines: seq<string>)
    ensures HeaderLines(lines) == [] <==> Tups(lines) == [Tup(None, None, Body(NonBlank(lines)))]
  {
    var nb := NonBlank(lines);
    HeaderLinesNonBlank(lines);
    PlainRunAll(nb);
    var p := PlainRun(nb);
    if p < |nb| {
      assert Sections(nb[p..])[0].header.Some?;
    }
  }

  /** With header lines, `markdown_to_tups` returns one headed triple per
      header line, in order, each with the full line and its number of `#`,
      at least one. */
  lemma TupsHeaders(lines: seq<string>)
    requires HeaderLines(lines) != []
    ensures var r, h := Tups(lines), HeaderLines(lines);
            |r| == |h|
            && forall k :: 0 <= k < |r| ==>
                 r[k].header == Some(h[k]) && r[k].level == Some(LeadingHashes(h[k])) && r[k].level.value >= 1
  {
    var nb := NonBlank(lines);
    var p := PlainRun(nb);
    HeaderLinesNonBlank(lines);
    PlainRunAll(nb);
    PlainRunNoHeaders(nb);
    SectionsHeaders(nb[p..]);
    var h := HeaderLines(lines);
    forall k | 0 <= k < |h| ensures LeadingHashes(h[k]) >= 1 {
      HeaderLinesAreHeaders(lines, k);
      HeaderMatch(h[k]);
    }
  }

  /** Every body is made of plain, non-blank lines. */
  lemma TupsBodies(lines: seq<string>)
    ensures forall k :: 0 <= k < |Tups(lines)| ==> PlainBody(Tups(lines)[k].body)
  {
    var nb := NonBlank(lines);
    var p := PlainRun(nb);
    NonBlankNonBlank(lines);
    if p < |nb| {
      NonBlankSlice(nb, p, |nb|);
      assert nb[p..|nb|] == nb[p..];
      SectionsBodies(nb[p..]);
    } else {
      PlainRunPlain(nb);
      assert nb[..p] == nb;
      assert PlainBody(Body(nb));
    }
  }

  /** The triples render back the kept lines; the plain lines before the
      first header, when there is one, are dropped. */
  lemma TupsRender(lines: seq<string>)
    ensures Rendered(Tups(lines)) == Body(Kept(lines))
    ensures HeaderLines(lines) != [] ==> Kept(lines) == NonBlank(lines)[PlainRun(NonBlank(lines))..]
  {
    var nb := NonBlank(lines);
    var p := PlainRun(nb);
    HeaderLinesNonBlank(lines);
    PlainRunAll(nb);
    if p < |nb| {
      SectionsRender(nb[p..]);
    } else {
      assert Rendered([Tup(None, None, Body(nb))]) == Body(nb) + Rendered([]);
      assert Body(nb) + "" == Body(nb);
    }
  }

  lemma {:induction false} HeaderLinesAreHeaders(lines: seq<string>, k: nat)
    requires k < |HeaderLines(lines)|
    ensures IsHeader(HeaderLines(lines)[k])
  {
    if !IsHeader(lines[0]) {
      HeaderLinesAreHeaders(lines[1..], k);
    } else if k > 0 {
      HeaderLinesAreHeaders(lines[1..], k - 1);
    }
  }

  /** Whitespace-only lines never contribute: inserting one anywhere changes nothing. */
  lemma BlankLineIgnored(a: seq<string>, b: string, c: seq<string>)
    requires IsBlank(b)
    ensures Tups(a + [b] + c) == Tups(a + c)
  {
    NonBlankAppend(a, [b] + c);
    NonBlankAppend(a, c);
    assert a + [b] + c == a + ([b] + c);
    assert ([b] + c)[1..] == c;
    assert NonBlank([b] + c) == NonBlank(c);
    assert NonBlank(a + [b] + c) == NonBlank(a + c);
  }

  lemma {:induction false} NonBlankAppend(a: seq<string>, b: seq<string>)
    ensures NonBlank(a + b) == NonBlank(a) + NonBlank(b)
  {
    if a != [] {
      assert (a + b)[1..] == a[1..] + b;
      NonBlankAppend(a[1..], b);
    } else {
      assert a + b == b;
    }
  }

  /** With two or more triples every triple is headed. */
  lemma TupsHeaded(lines: seq<string>, k: nat)
    requires |Tups(lines)| >= 2 && k < |Tups(lines)|
    ensures Tups(lines)[k].level.Some? && Tups(lines)[k].header.Some?
  {
    TupsWithoutHeaders(lines);
    TupsHeaders(lines);
  }

  // ---------------------------------------------------------------------
  // load_data: section documents, the whole-file document, aggregation
  // ---------------------------------------------------------------------

  /** The `header` a section's metadata records. */
  function HeaderValueOf(t: Tup): HeaderValue {
    if t.header.Some? then HeaderLine(t.header.value) else NoHeader
  }

  /** The `header_level` a section's metadata records. */
  function LevelValueOf(t: Tup): LevelValue {
    if t.level.Some? then Level(t.level.value) else NoLevel
  }

  /** The sections' own texts, in scan order. */
  function OwnTexts(tups: seq<Tup>): seq<string> {
    seq(|tups|, k requires 0 <= k < |tups| => OwnText(tups[k]))
  }

  /** The sections' levels, in scan order. */
  function Levels(tups: seq<Tup>): seq<LevelValue> {
    seq(|tups|, k requires 0 <= k < |tups| => LevelValueOf(tups[k]))
  }

  /** The texts of a list of documents, `[d.text for d in docs]`. */
  function Texts(docs: seq<Document>): seq<string> {
    seq(|docs|, k requires 0 <= k < |docs| => docs[k].text)
  }

  /** Section `k` as `load_data` first builds it, before aggregation. */
  function SectionDocument(filename: string, extra: map<string, string>, mintId: nat -> string,
                           tups: seq<Tup>, k: nat): Document
    requires k < |tups|
  {
    Document(mintId(k), OwnText(tups[k]),
             Metadata(filename, k, HeaderValueOf(tups[k]), LevelValueOf(tups[k]), extra - ReaderKeys),
             None, ExcludedKeys, ExcludedKeys)
  }

  /** The whole-file document: every own text, joined with newlines, under
      metadata whose `doc_idx`, `header` and `header_level` are all `-1`. */
  function WholeFileDocument(filename: string, extra: map<string, string>, mintId: nat -> string,
                             tups: seq<Tup>): Document
  {
    Document(mintId(|tups|), Join("\n", OwnTexts(tups)),
             Metadata(filename, -1, RootHeader, RootLevel, extra - ReaderKeys),
             None, ExcludedKeys, ExcludedKeys)
  }

  /** Level `a` is strictly deeper than level `b`; the merge stops at the
      first following section for which this fails. */
  predicate Deeper(a: LevelValue, b: LevelValue) {
    a.Level? && b.Level? && a.n > b.n
  }

  function RunEndFrom(levels: seq<LevelValue>, i: nat, j: nat): (e: nat)
    requires i < j <= |levels|
    ensures j <= e <= |levels|
    decreases |levels| - j
  {
    if j == |levels| || !Deeper(levels[j], levels[i]) then j else RunEndFrom(levels, i, j + 1)
  }

  /** End (exclusive) of the run of sections that follow section `i` and are
      all strictly deeper than it: section `i`'s subtree. */
  function RunEnd(levels: seq<LevelValue>, i: nat): (e: nat)
    requires i < |levels|
    ensures i < e <= |levels|
  {
    RunEndFrom(levels, i, i + 1)
  }

  /** Section `i`'s text after the merge: its own text and those of its
      whole subtree, joined with newlines. */
  function Aggregated(owns: seq<string>, levels: seq<LevelValue>, i: nat): string
    requires |owns| == |levels| && i < |levels|
  {
    Join("\n", owns[i..RunEnd(levels, i)])
  }

  lemma {:induction false} RunEndFromIs(levels: seq<LevelValue>, i: nat, s: nat, j: nat)
    requires i < s <= j <= |levels|
    requires forall q :: s <= q < j ==> Deeper(levels[q], levels[i])
    requires j == |levels| || !Deeper(levels[j], levels[i])
    ensures RunEndFrom(levels, i, s) == j
    decreases j - s
  {
    if s < j {
      RunEndFromIs(levels, i, s + 1, j);
    }
  }

  /** The merge's inner loop stops exactly at `RunEnd`. */
  lemma RunEndIs(levels: seq<LevelValue>, i: nat, j: nat)
    requires i < j <= |levels|
    requires forall q :: i < q < j ==> Deeper(levels[q], levels[i])
    requires j == |levels| || !Deeper(levels[j], levels[i])
    ensures RunEnd(levels, i) == j
  {
    RunEndFromIs(levels, i, i + 1, j);
  }

  /** `docs` are ordered by `doc_idx`. */
  predicate SortedByDocIdx(docs: seq<Document>) {
    forall a, b :: 0 <= a < b < |docs| ==> docs[a].metadata.docIdx <= docs[b].metadata.docIdx
  }

  /** Inserts `d` before the first document whose `doc_idx` is not smaller,
      keeping equal keys in their original order. */
  function InsertByDocIdx(d: Document, docs: seq<Document>): seq<Document> {
    if docs == [] || d.metadata.docIdx <= docs[0].metadata.docIdx then [d] + docs
    else [docs[0]] + InsertByDocIdx(d, docs[1..])
  }

  /** `sorted(docs, key=lambda x: x.metadata["doc_idx"])`, a stable sort. */
  function SortByDocIdx(docs: seq<Document>): seq<Document> {
    if docs == [] then [] else InsertByDocIdx(docs[0], SortByDocIdx(docs[1..]))
  }

  /** The merge: section `i` takes the own texts of its subtree, in order. */
  method MergeSections(documents: seq<Document>, ghost owns: seq<string>, ghost levels: seq<LevelValue>)
    returns (merged: seq<Document>)
    requires |owns| == |documents| && |levels| == |documents|
    requires forall q :: 0 <= q < |documents| ==>
               documents[q].text == owns[q] && documents[q].metadata.headerLevel == levels[q]
               && documents[q].metadata.docIdx == q
    requires |documents| >= 2 ==> forall q :: 0 <= q < |documents| ==> levels[q].Level?
    ensures |merged| == |documents|
    ensures forall q :: 0 <= q < |documents| ==>
              merged[q] == documents[q].(text := Aggregated(owns, levels, q))
  {
    var l := |documents|;
    merged := documents;
    for i := 0 to l
      invariant |merged| == l
      invariant forall q :: 0 <= q < i ==> merged[q] == documents[q].(text := Aggregated(owns, levels, q))
      invariant forall q :: i <= q < l ==> merged[q] == documents[q]
    {
      var d1 := merged[i];
      var level1 := d1.metadata.headerLevel;
      var childDocs: seq<Document> := [];
      var j := i + 1;
      while j < l
        invariant i + 1 <= j <= l
        invariant childDocs == merged[i + 1..j]
        invariant forall q :: i < q < j ==> Deeper(levels[q], levels[i])
        decreases l - j
      {
        var d2 := merged[j];
        var level2 := d2.metadata.headerLevel;
        if level2.n <= level1.n {
          break;
        }
        childDocs := childDocs + [d2];
        j := j + 1;
      }
      RunEndIs(levels, i, j);
      ChildrenInOrder(merged, i, j);
      childDocs := SortByDocIdx(childDocs);
      var text := Join("\n", Texts([d1] + childDocs));
      SubtreeTexts(merged, owns, i, j);
      merged := merged[i := d1.(text := text)];
    }
  }

  /** The children the merge collects are already in `doc_idx` order, so the
      sort leaves them unchanged. */
  lemma ChildrenInOrder(docs: seq<Document>, i: nat, j: nat)
    requires i < j <= |docs|
    requires forall q :: i < q < j ==> docs[q].metadata.docIdx == q
    ensures SortByDocIdx(docs[i + 1..j]) == docs[i + 1..j]
  {
    var c := docs[i + 1..j];
    assert forall a :: 0 <= a < |c| ==> c[a].metadata.docIdx == i + 1 + a;
    SortSortedIsIdentity(c);
  }

  /** The texts the merge joins are the own texts of the subtree. */
  lemma SubtreeTexts(docs: seq<Document>, owns: seq<string>, i: nat, j: nat)
    requires i < j <= |docs| == |owns|
    requires forall q :: i <= q < j ==> docs[q].text == owns[q]
    ensures Texts([docs[i]] + docs[i + 1..j]) == owns[i..j]
  {
    assert [docs[i]] + docs[i + 1..j] == docs[i..j];
  }

  /** Sorting what is already sorted changes nothing. */
  lemma {:induction false} SortSortedIsIdentity(docs: seq<Document>)
    requires SortedByDocIdx(docs)
    ensures SortByDocIdx(docs) == docs
  {
    if docs != [] {
      assert SortedByDocIdx(docs[1..]);
      SortSortedIsIdentity(docs[1..]);
    }
  }

  /** The first loop of `load_data`: one document per triple, numbered by `doc_idx`. */
  method SectionDocuments(tups: seq<Tup>, filename: string, extra: map<string, string>, mintId: nat -> string)
    returns (documents: seq<Document>)
    ensures |documents| == |tups|
    ensures forall q :: 0 <= q < |tups| ==> documents[q] == SectionDocument(filename, extra, mintId, tups, q)
  {
    var docIdx := 0;
    documents := [];
    for k := 0 to |tups|
      invariant docIdx == k && |documents| == k
      invariant forall q :: 0 <= q < k ==> documents[q] == SectionDocument(filename, extra, mintId, tups, q)
    {
      var t := tups[k];
      var metadata := Metadata(filename, docIdx, HeaderValueOf(t), LevelValueOf(t), extra - ReaderKeys);
      var text := t.body;
      if t.header.Some? {
        text := t.header.value + "\n" + t.body;
      }
      documents := documents + [Document(mintId(docIdx), text, metadata, None, ExcludedKeys, ExcludedKeys)];
      docIdx := docIdx + 1;
    }
  }

  /** `MarkdownReader.load_data`, from the file's content (section ids and
      the whole-file document's id are drawn from `mintId`, the section's
      `doc_idx` and `l` respectively). It returns the whole-file document,
      then the sections in scan order, each with its aggregated text. */
  method LoadData(content: string, filename: string, extra: map<string, string>, config: ReaderConfig,
                  mintId: nat -> string)
    returns (result: seq<Document>)
    ensures var tups := Tups(Split(Preprocess(config, content)));
            |result| == |tups| + 1
            && result[0] == WholeFileDocument(filename, extra, mintId, tups)
            && forall k :: 0 <= k < |tups| ==>
                 result[k + 1] == SectionDocument(filename, extra, mintId, tups, k)
                                    .(text := Aggregated(OwnTexts(tups), Levels(tups), k))
  {
    var tups := MarkdownToTups(Preprocess(config, content));
    var documents := SectionDocuments(tups, filename, extra, mintId);
    ghost var owns, levels := OwnTexts(tups), Levels(tups);
    SectionDocumentsFit(documents, filename, extra, mintId, tups);
    var l := |documents|;
    var text := Join("\n", Texts(documents));
    var document := Document(mintId(l), text, Metadata(filename, -1, RootHeader, RootLevel, extra - ReaderKeys),
                             None, ExcludedKeys, ExcludedKeys);
    assert document == WholeFileDocument(filename, extra, mintId, tups);
    if l >= 2 {
      AllLeveled(Split(Preprocess(config, content)));
    }
    var merged := MergeSections(documents, owns, levels);
    result := [document] + merged;
    forall k | 0 <= k < |tups|
      ensures result[k + 1] == SectionDocument(filename, extra, mintId, tups, k)
                                 .(text := Aggregated(owns, levels, k))
    {
      assert result[k + 1] == merged[k];
    }
  }

  /** The section documents carry what the merge reads: their own texts,
      their levels, and `doc_idx` equal to their position. */
  lemma SectionDocumentsFit(documents: seq<Document>, filename: string, extra: map<string, string>,
                            mintId: nat -> string, tups: seq<Tup>)
    requires |documents| == |tups|
    requires forall q :: 0 <= q < |tups| ==> documents[q] == SectionDocument(filename, extra, mintId, tups, q)
    ensures Texts(documents) == OwnTexts(tups)
    ensures forall q :: 0 <= q < |documents| ==>
              documents[q].text == OwnTexts(tups)[q]
              && documents[q].metadata.headerLevel == Levels(tups)[q]
              && documents[q].metadata.docIdx == q
  {
  }

  /** With two sections or more, every section has a level. */
  lemma AllLeveled(lines: seq<string>)
    requires |Tups(lines)| >= 2
    ensures forall q :: 0 <= q < |Tups(lines)| ==> Levels(Tups(lines))[q].Level?
  {
    forall q | 0 <= q < |Tups(lines)| ensures Levels(Tups(lines))[q].Level? {
      TupsHeaded(lines, q);
    }
  }

  // ---------------------------------------------------------------------
  // Properties of the aggregation
  // ---------------------------------------------------------------------

  lemma {:induction false} RunEndFromSpec(levels: seq<LevelValue>, i: nat, j: nat)
    requires i < j <= |levels|
    requires forall q :: i < q < j ==> Deeper(levels[q], levels[i])
    ensures var e := RunEndFrom(levels, i, j);
            (forall q :: i < q < e ==> Deeper(levels[q], levels[i]))
            && (e < |levels| ==> !Deeper(levels[e], levels[i]))
    decreases |levels| - j
  {
    if j < |levels| && Deeper(levels[j], levels[i]) {
      RunEndFromSpec(levels, i, j + 1);
    }
  }

  /** Section `i`'s subtree: every section up to `RunEnd` is strictly deeper
      than `i`, and the section at `RunEnd`, if any, is not. */
  lemma RunEndSpec(levels: seq<LevelValue>, i: nat)
    requires i < |levels|
    ensures forall q :: i < q < RunEnd(levels, i) ==> Deeper(levels[q], levels[i])
    ensures RunEnd(levels, i) < |levels| ==> !Deeper(levels[RunEnd(levels, i)], levels[i])
  {
    RunEndFromSpec(levels, i, i + 1);
  }

  /** A later section belongs to section `i`'s subtree exactly when it and
      every section between them are strictly deeper than `i`. */
  lemma InSubtreeIff(levels: seq<LevelValue>, i: nat, j: nat)
    requires i < j < |levels|
    ensures j < RunEnd(levels, i) <==> forall q :: i < q <= j ==> Deeper(levels[q], levels[i])
  {
    RunEndSpec(levels, i);
    var e := RunEnd(levels, i);
    if j >= e {
      assert !Deeper(levels[e], levels[i]);
    }
  }

  /** Subtrees nest: the subtree of a section in `i`'s subtree lies inside `i`'s. */
  lemma SubtreesNest(levels: seq<LevelValue>, i: nat, j: nat)
    requires i < |levels| && i < j < RunEnd(levels, i)
    ensures RunEnd(levels, j) <= RunEnd(levels, i)
  {
    RunEndSpec(levels, i);
    RunEndSpec(levels, j);
  }

  /** A section's own text appears in its own aggregated text and in that of
      every section whose subtree holds it. */
  lemma OwnTextInAncestors(owns: seq<string>, levels: seq<LevelValue>, a: nat, j: nat)
    requires |owns| == |levels| && a <= j < |levels|
    requires j < RunEnd(levels, a)
    ensures IsInfix(owns[j], Aggregated(owns, levels, a))
  {
    var xs := owns[a..RunEnd(levels, a)];
    assert xs[j - a] == owns[j];
    JoinContains("\n", xs, j - a);
  }

  /** A section without deeper sections right after it keeps its own text. */
  lemma LeafKeepsOwnText(owns: seq<string>, levels: seq<LevelValue>, i: nat)
    requires |owns| == |levels| && i < |levels|
    requires i + 1 == |levels| || !Deeper(levels[i + 1], levels[i])
    ensures Aggregated(owns, levels, i) == owns[i]
  {
    RunEndIs(levels, i, i + 1);
    assert owns[i..i + 1] == [owns[i]];
  }

  /** The sections' lines, in order. */
  function AllLines(texts: seq<string>): seq<string> {
    if texts == [] then [] else Split(texts[0]) + AllLines(texts[1..])
  }

  /** The whole-file text holds every section's own text exactly once, in
      order: its lines are the sections' lines, one section after the other. */
  lemma {:induction false} WholeFileLines(owns: seq<string>)
    requires owns != []
    ensures Split(Join("\n", owns)) == AllLines(owns)
  {
    if |owns| == 1 {
      assert AllLines(owns[1..]) == [];
      assert Split(owns[0]) + [] == Split(owns[0]);
    } else {
      WholeFileLines(owns[1..]);
      SplitAround(owns[0], Join("\n", owns[1..]));
    }
  }

  /** Every own text, nested or not, appears in the whole-file text. */
  lemma WholeFileHoldsEverySection(tups: seq<Tup>, k: nat)
    requires k < |tups|
    ensures IsInfix(OwnText(tups[k]), Join("\n", OwnTexts(tups)))
  {
    JoinContains("\n", OwnTexts(tups), k);
  }

  // ---------------------------------------------------------------------
  // Scanning the whole-file text again
  // ---------------------------------------------------------------------

  /** No line holds a newline, as is the case for the pieces of `split("\n")`. */
  predicate NewlineFree(lines: seq<string>) {
    forall k :: 0 <= k < |lines| ==> NoNewline(lines[k])
  }

  lemma NewlineFreeSlice(lines: seq<string>, a: nat, b: nat)
    requires a <= b <= |lines| && NewlineFree(lines)
    ensures NewlineFree(lines[a..b])
  {
    assert forall k :: 0 <= k < b - a ==> lines[a..b][k] == lines[a + k];
  }

  /** A body is its lines joined with newlines, with one more newline at the end. */
  lemma {:induction false} BodyAsJoin(lines: seq<string>)
    ensures Body(lines) == Join("\n", lines + [""])
  {
    if lines != [] {
      BodyAsJoin(lines[1..]);
      assert (lines + [""])[1..] == lines[1..] + [""];
    }
  }

  /** Splitting a body gives its lines and then the empty piece after the last newline. */
  lemma SplitBody(lines: seq<string>)
    requires NewlineFree(lines)
    ensures Split(Body(lines)) == lines + [""]
  {
    BodyAsJoin(lines);
    SplitJoin(lines + [""]);
  }

  lemma {:induction false} NonBlankKeepsAll(lines: seq<string>)
    requires AllNonBlank(lines)
    ensures NonBlank(lines) == lines
  {
    if lines != [] {
      NonBlankKeepsAll(lines[1..]);
    }
  }

  lemma {:induction false} NonBlankNewlineFree(lines: seq<string>)
    requires NewlineFree(lines)
    ensures NewlineFree(NonBlank(lines))
  {
    if lines != [] {
      NonBlankNewlineFree(lines[1..]);
    }
  }

  /** The empty piece that ends a body's lines is skipped as blank. */
  lemma NonBlankBody(lines: seq<string>)
    requires NewlineFree(lines) && AllNonBlank(lines)
    ensures NonBlank(Split(Body(lines))) == lines
  {
    SplitBody(lines);
    NonBlankAppend(lines, [""]);
    NonBlankKeepsAll(lines);
    assert NonBlank([""]) == [];
  }

  lemma OwnTextsCons(t: Tup, ts: seq<Tup>)
    ensures OwnTexts([t] + ts) == [OwnText(t)] + OwnTexts(ts)
  {
  }

  lemma BodyCons(x: string, ys: seq<string>)
    ensures Body([x] + ys) == x + "\n" + Body(ys)
  {
    assert ([x] + ys)[1..] == ys;
  }

  /** The first triple's text is the body of its header line and plain lines. */
  lemma SectionsHeadText(lines: seq<string>)
    requires lines != [] && IsHeader(lines[0])
    ensures var p := PlainRun(lines[1..]);
            OwnTexts(Sections(lines)) == [Body(lines[..p + 1])] + OwnTexts(Sections(lines[p + 1..]))
  {
    var rest := lines[1..];
    var p := PlainRun(rest);
    var t := Tup(Some(LeadingHashes(lines[0])), Some(lines[0]), Body(rest[..p]));
    calc {
      OwnTexts(Sections(lines));
      OwnTexts([t] + Sections(rest[p..]));
      == { OwnTextsCons(t, Sections(rest[p..])); }
      [OwnText(t)] + OwnTexts(Sections(rest[p..]));
      == { BodyCons(lines[0], rest[..p]);
           assert lines[..p + 1] == [lines[0]] + rest[..p];
           assert rest[p..] == lines[p + 1..]; }
      [Body(lines[..p + 1])] + OwnTexts(Sections(lines[p + 1..]));
    }
  }

  lemma AllLinesCons(o: string, os: seq<string>)
    ensures AllLines([o] + os) == Split(o) + AllLines(os)
  {
    assert ([o] + os)[1..] == os;
  }

  /** The first triple's lines and the lines after them keep the
      properties of the whole list. */
  lemma SectionsParts(lines: seq<string>)
    requires lines != [] && NewlineFree(lines) && AllNonBlank(lines)
    ensures var p := PlainRun(lines[1..]);
            var head, after := lines[..p + 1], lines[p + 1..];
            NewlineFree(head) && AllNonBlank(head) && NewlineFree(after) && AllNonBlank(after)
            && (after == [] || IsHeader(after[0])) && head + after == lines
  {
    var p := PlainRun(lines[1..]);
    assert lines[1..][p..] == lines[p + 1..];
    NonBlankSlice(lines, p + 1, |lines|);
    NewlineFreeSlice(lines, p + 1, |lines|);
    assert lines[p + 1..|lines|] == lines[p + 1..];
    NonBlankSlice(lines, 0, p + 1);
    NewlineFreeSlice(lines, 0, p + 1);
    assert lines[0..p + 1] == lines[..p + 1];
  }

  /** Re-scanning the texts of the triples of header-led, non-blank lines
      gives back those lines, once the blank pieces are skipped. */
  lemma {:induction false} SectionsLines(lines: seq<string>)
    requires lines == [] || IsHeader(lines[0])
    requires NewlineFree(lines) && AllNonBlank(lines)
    ensures NonBlank(AllLines(OwnTexts(Sections(lines)))) == lines
    decreases |lines|
  {
    if lines != [] {
      var p := PlainRun(lines[1..]);
      var head, after := lines[..p + 1], lines[p + 1..];
      SectionsParts(lines);
      SectionsLines(after);
      var rest := AllLines(OwnTexts(Sections(after)));
      SectionsHeadText(lines);
      AllLinesCons(Body(head), OwnTexts(Sections(after)));
      NonBlankBody(head);
      NonBlankAppend(Split(Body(head)), rest);
    }
  }

  /** The scan depends only on the lines it keeps. */
  lemma TupsOfKept(lines: seq<string>, other: seq<string>)
    requires NonBlank(other) == Kept(lines)
    ensures Tups(other) == Tups(lines)
  {
    var nb := NonBlank(lines);
    var p := PlainRun(nb);
    if p < |nb| {
      assert PlainRun(nb[p..]) == 0;
      assert nb[p..][0..] == nb[p..];
    }
  }

  /** Scanning is idempotent: the lines of the whole-file text, the own texts
      of the triples joined with newlines, scan into the same triples. The
      lines must hold no newline; the pieces of `split("\n")` never do. */
  lemma TupsIdempotent(lines: seq<string>)
    requires forall k :: 0 <= k < |lines| ==> NoNewline(lines[k])
    ensures Tups(Split(Join("\n", OwnTexts(Tups(lines))))) == Tups(lines)
  {
    var nb := NonBlank(lines);
    var p := PlainRun(nb);
    var owns := OwnTexts(Tups(lines));
    NonBlankNewlineFree(lines);
    NonBlankNonBlank(lines);
    if p == |nb| {
      assert owns == [Body(nb)];
      assert AllLines(owns) == Split(Body(nb)) + AllLines([]);
      NonBlankBody(nb);
      assert Split(Body(nb)) + [] == Split(Body(nb));
    } else {
      var k := nb[p..];
      NonBlankSlice(nb, p, |nb|);
      assert nb[p..|nb|] == k;
      SectionsLines(k);
    }
    WholeFileLines(owns);
    TupsOfKept(lines, Split(Join("\n", owns)));
  }

  /** For any Markdown text, scanning the whole-file document's text gives
      the triples of the text itself. */
  lemma RescanWholeFile(text: string)
    ensures var tups := Tups(Split(text));
            Tups(Split(Join("\n", OwnTexts(tups)))) == tups
  {
    TupsIdempotent(Split(text));
  }

  /** In a file without a header line the single section's merged text is
      the whole-file document's text. */
  lemma NoHeaderWholeFileIsSection(lines: seq<string>)
    requires HeaderLines(lines) == []
    ensures |Tups(lines)| == 1
    ensures Join("\n", OwnTexts(Tups(lines))) == Aggregated(OwnTexts(Tups(lines)), Levels(Tups(lines)), 0)
  {
    TupsWithoutHeaders(lines);
  }

  // ---------------------------------------------------------------------
  // Properties of the sort
  // ---------------------------------------------------------------------

  /** No document of `docs` has a `doc_idx` below `x`. */
  predicate AtLeast(x: int, docs: seq<Document>) {
    forall k :: 0 <= k < |docs| ==> x <= docs[k].metadata.docIdx
  }

  lemma {:induction false} InsertKeepsBound(x: int, d: Document, docs: seq<Document>)
    requires AtLeast(x, docs) && x <= d.metadata.docIdx
    ensures AtLeast(x, InsertByDocIdx(d, docs))
  {
    if docs != [] && d.metadata.docIdx > docs[0].metadata.docIdx {
      InsertKeepsBound(x, d, docs[1..]);
    }
  }

  lemma {:induction false} InsertByDocIdxSorted(d: Document, docs: seq<Document>)
    requires SortedByDocIdx(docs)
    ensures SortedByDocIdx(InsertByDocIdx(d, docs))
  {
    if docs == [] || d.metadata.docIdx <= docs[0].metadata.docIdx {
      assert SortedByDocIdx([d] + docs);
    } else {
      InsertByDocIdxSorted(d, docs[1..]);
      InsertKeepsBound(docs[0].metadata.docIdx, d, docs[1..]);
      assert SortedByDocIdx([docs[0]] + InsertByDocIdx(d, docs[1..]));
    }
  }

  lemma {:induction false} InsertByDocIdxPermutes(d: Document, docs: seq<Document>)
    ensures multiset(InsertByDocIdx(d, docs)) == multiset([d] + docs)
  {
    if docs != [] && d.metadata.docIdx > docs[0].metadata.docIdx {
      InsertByDocIdxPermutes(d, docs[1..]);
      assert docs == [docs[0]] + docs[1..];
    }
  }

  /** The sort orders by `doc_idx` and only permutes. */
  lemma {:induction false} SortByDocIdxSpec(docs: seq<Document>)
    ensures SortedByDocIdx(SortByDocIdx(docs))
    ensures multiset(SortByDocIdx(docs)) == multiset(docs)
  {
    if docs != [] {
      SortByDocIdxSpec(docs[1..]);
      InsertByDocIdxSorted(docs[0], SortByDocIdx(docs[1..]));
      InsertByDocIdxPermutes(docs[0], SortByDocIdx(docs[1..]));
      assert docs == [docs[0]] + docs[1..];
    }
  }

  // ---------------------------------------------------------------------
  // Worked examples
  // ---------------------------------------------------------------------

  /** An empty file has one headerless, empty section. */
  lemma EmptyFile()
    ensures Tups(Split("")) == [Tup(None, None, "")]
  {
    assert Split("") == [""];
    assert IsBlank("");
    assert NonBlank([""]) == [];
  }

  /** A child's own text is appended to its parent's after a newline, and a
      sibling at the parent's level ends the subtree. */
  lemma NestedExample()
    ensures var owns := ["# A\nalpha\n", "## B\nbeta\n", "# C\n"];
            var levels := [Level(1), Level(2), Level(1)];
            Aggregated(owns, levels, 0) == "# A\nalpha\n\n## B\nbeta\n"
            && Aggregated(owns, levels, 1) == "## B\nbeta\n"
            && Aggregated(owns, levels, 2) == "# C\n"
  {
    var owns := ["# A\nalpha\n", "## B\nbeta\n", "# C\n"];
    var levels := [Level(1), Level(2), Level(1)];
    RunEndIs(levels, 0, 2);
    RunEndIs(levels, 1, 2);
    RunEndIs(levels, 2, 3);
    assert owns[0..2] == ["# A\nalpha\n", "## B\nbeta\n"];
    assert owns[1..2] == ["## B\nbeta\n"];
    assert owns[2..3] == ["# C\n"];
  }

  lemma ExampleLineKinds()
    ensures IsHeader("# A") && LeadingHashes("# A") == 1
    ensures !IsHeader("intro") && !IsHeader("alpha")
    ensures !IsBlank("intro") && IsBlank(" ") && !IsBlank("# A") && !IsBlank("alpha")
  {
    assert LeadingHashes("intro") == 0;
    assert LeadingHashes("alpha") == 0;
    assert "# A"[0] == '#' && "# A"[1] == ' ';
    assert LeadingHashes("# A"[1..]) == 0;
  }

  lemma ExampleNonBlank()
    ensures NonBlank(["intro", "# A", " ", "alpha"]) == ["intro", "# A", "alpha"]
  {
    var lines := ["intro", "# A", " ", "alpha"];
    ExampleLineKinds();
    assert NonBlank(lines[3..]) == ["alpha"];
    assert NonBlank(lines[2..]) == ["alpha"];
    assert NonBlank(lines[1..]) == ["# A", "alpha"];
  }

  lemma ExampleSections()
    ensures Sections(["# A", "alpha"]) == [Tup(Some(1), Some("# A"), "alpha\n")]
  {
    var hs := ["# A", "alpha"];
    ExampleLineKinds();
    var rest := hs[1..];
    assert rest == ["alpha"];
    assert PlainRun(rest[1..]) == 0;
    assert PlainRun(rest) == 1;
    assert rest[..1] == ["alpha"];
    assert rest[1..] == [];
    assert Body(["alpha"]) == "alpha" + "\n" + Body([]);
    assert "alpha" + "\n" + "" == "alpha\n";
    assert Sections(hs) == [Tup(Some(LeadingHashes(hs[0])), Some(hs[0]), Body(rest[..1]))]
      + Sections(rest[1..]);
  }

  /** Text before the first header is dropped, and a whitespace-only line
      contributes nothing. */
  lemma PreHeaderTextDropped()
    ensures Tups(["intro", "# A", " ", "alpha"]) == [Tup(Some(1), Some("# A"), "alpha\n")]
  {
    var nb := ["intro", "# A", "alpha"];
    ExampleLineKinds();
    ExampleNonBlank();
    ExampleSections();
    assert PlainRun(nb) == 1;
    assert nb[1..] == ["# A", "alpha"];
  }
}
