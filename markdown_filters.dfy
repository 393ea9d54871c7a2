/** The two fixed regular-expression rewrites the Markdown reader applies to a
    file's content before scanning it, written out as explicit scanners with
    the leftmost-first semantics of Python's `re.sub`. In both patterns `.`
    matches any character except a newline, so no match crosses a line. */
module MarkdownFilters {
  import opened Wrappers
  import opened TextUtil

  /** Reader configuration: the two constructor flags, both on by default. */
  datatype ReaderConfig = ReaderConfig(removeHyperlinks: bool, removeImages: bool)

  const DefaultConfig := ReaderConfig(true, true)

  /** No newline at any index in `[a, b)` of `s`. */
  predicate OnOneLine(s: string, a: nat, b: nat)
    requires a <= b <= |s|
  {
    forall k :: a <= k < b ==> s[k] != '\n'
  }

  /** A stretch of one line, taken as a slice, holds no newline. */
  lemma OnOneLineSlice(s: string, a: nat, b: nat)
    requires a <= b <= |s| && OnOneLine(s, a, b)
    ensures NoNewline(s[a..b])
  {
    assert forall k :: 0 <= k < b - a ==> s[a..b][k] == s[a + k];
  }

  // ---------------------------------------------------------------------
  // remove_hyperlinks: pattern `\[(.*?)\]\((.*?)\)`, replacement `\1`
  // ---------------------------------------------------------------------

  /** `](` starts at index `j`. */
  predicate LabelCloseAt(s: string, j: nat) {
    j + 1 < |s| && s[j] == ']' && s[j + 1] == '('
  }

  /** `)` stands at index `m`. */
  predicate ParenCloseAt(s: string, m: nat) {
    m < |s| && s[m] == ')'
  }

  /** `[label](target)` matches at `i`, the label ending at `j` (the `]`) and
      the target at `m` (the `)`), neither part holding a newline. */
  ghost predicate IsLink(s: string, i: nat, j: nat, m: nat) {
    i < j && j + 1 < m < |s|
    && s[i] == '[' && LabelCloseAt(s, j) && s[m] == ')'
    && OnOneLine(s, i + 1, j) && OnOneLine(s, j + 2, m)
  }

  /** First `](` at or after `k`, searching no further than the end of the line. */
  function LabelEnd(s: string, k: nat): (r: Option<nat>)
    requires k <= |s|
    ensures r.Some? ==> k <= r.value && r.value + 1 < |s|
    decreases |s| - k
  {
    if k + 1 >= |s| then None
    else if s[k] == '\n' then None
    else if LabelCloseAt(s, k) then Some(k)
    else LabelEnd(s, k + 1)
  }

  /** What `LabelEnd` finds is the first `](` of the line. */
  lemma {:induction false} LabelEndSome(s: string, k: nat)
    requires k <= |s| && LabelEnd(s, k).Some?
    ensures var j := LabelEnd(s, k).value;
            LabelCloseAt(s, j) && OnOneLine(s, k, j)
            && forall v: nat :: k <= v < j ==> !LabelCloseAt(s, v)
    decreases |s| - k
  {
    if !LabelCloseAt(s, k) {
      LabelEndSome(s, k + 1);
    }
  }

  /** When `LabelEnd` finds nothing, no `](` follows on the same line. */
  lemma {:induction false} LabelEndNone(s: string, k: nat)
    requires k <= |s| && LabelEnd(s, k).None?
    ensures forall j: nat :: k <= j && LabelCloseAt(s, j) ==> !OnOneLine(s, k, j)
    decreases |s| - k
  {
    if k + 1 < |s| && s[k] != '\n' {
      LabelEndNone(s, k + 1);
    }
  }

  /** `LabelEnd` finds the first `](` of the line. */
  lemma {:induction false} LabelEndFinds(s: string, k: nat, j: nat)
    requires k <= j && LabelCloseAt(s, j) && OnOneLine(s, k, j)
    requires forall v: nat :: k <= v < j ==> !LabelCloseAt(s, v)
    ensures LabelEnd(s, k) == Some(j)
    decreases j - k
  {
    if k < j {
      LabelEndFinds(s, k + 1, j);
    }
  }

  /** First `)` at or after `k`, searching no further than the end of the line. */
  function CloseParen(s: string, k: nat): (r: Option<nat>)
    requires k <= |s|
    ensures r.Some? ==> k <= r.value < |s|
    decreases |s| - k
  {
    if k >= |s| then None
    else if s[k] == '\n' then None
    else if s[k] == ')' then Some(k)
    else CloseParen(s, k + 1)
  }

  /** What `CloseParen` finds is the first `)` of the line. */
  lemma {:induction false} CloseParenSome(s: string, k: nat)
    requires k <= |s| && CloseParen(s, k).Some?
    ensures var m := CloseParen(s, k).value;
            ParenCloseAt(s, m) && OnOneLine(s, k, m)
            && forall v :: k <= v < m ==> s[v] != ')'
    decreases |s| - k
  {
    if s[k] != ')' {
      CloseParenSome(s, k + 1);
    }
  }

  /** When `CloseParen` finds nothing, no `)` follows on the same line. */
  lemma {:induction false} CloseParenNone(s: string, k: nat)
    requires k <= |s| && CloseParen(s, k).None?
    ensures forall m: nat :: k <= m && ParenCloseAt(s, m) ==> !OnOneLine(s, k, m)
    decreases |s| - k
  {
    if k < |s| && s[k] != '\n' {
      CloseParenNone(s, k + 1);
    }
  }

  /** `CloseParen` finds the first `)` of the line. */
  lemma {:induction false} CloseParenFinds(s: string, k: nat, m: nat)
    requires k <= m && ParenCloseAt(s, m) && OnOneLine(s, k, m)
    requires forall v :: k <= v < m ==> s[v] != ')'
    ensures CloseParen(s, k) == Some(m)
    decreases m - k
  {
    if k < m {
      CloseParenFinds(s, k + 1, m);
    }
  }

  /** A link match: the `]` that ends the label and the `)` that ends the target. */
  datatype LinkMatch = NoLink | Link(labelEnd: nat, close: nat)

  /** The match the lazy pattern takes at `i`. */
  function LinkAt(s: string, i: nat): (r: LinkMatch)
    requires i < |s|
    ensures r.Link? ==> i < r.labelEnd && r.labelEnd + 1 < r.close < |s|
  {
    if s[i] != '[' then NoLink
    else match LabelEnd(s, i + 1)
      case None => NoLink
      case Some(j) =>
        match CloseParen(s, j + 2)
        case None => NoLink
        case Some(m) => Link(j, m)
  }

  /** `LinkAt` is exactly the match of the lazy pattern: among all
      single-line links starting at `i` it picks the shortest label and,
      for that label, the shortest target; and when it finds none there is none. */
  lemma LinkAtIsLeftmostLazy(s: string, i: nat)
    requires i < |s|
    ensures LinkAt(s, i).Link? ==>
              var r := LinkAt(s, i);
              IsLink(s, i, r.labelEnd, r.close)
              && forall j: nat, m: nat :: IsLink(s, i, j, m) ==>
                   r.labelEnd < j || (r.labelEnd == j && r.close <= m)
    ensures LinkAt(s, i).NoLink? ==> forall j: nat, m: nat :: !IsLink(s, i, j, m)
  {
    if s[i] == '[' {
      var le := LabelEnd(s, i + 1);
      if le.Some? {
        var j := le.value;
        LabelEndSome(s, i + 1);
        var cp := CloseParen(s, j + 2);
        if cp.None? {
          CloseParenNone(s, j + 2);
        } else {
          CloseParenSome(s, j + 2);
        }
        forall j': nat, m': nat | IsLink(s, i, j', m') ensures cp.Some? && (j < j' || (j == j' && cp.value <= m')) {
          assert j <= j';
          // a later label still covers the first `](`, so its target's `)`
          // is on the same line as that `](`
          assert j < j' ==> OnOneLine(s, j + 2, m');
        }
      } else {
        LabelEndNone(s, i + 1);
        forall j: nat, m: nat | IsLink(s, i, j, m) ensures false {
        }
      }
    }
  }

  /** `re.sub(r"\[(.*?)\]\((.*?)\)", r"\1", s[i..])`, scanning from `i`. */
  function RemoveHyperlinksFrom(s: string, i: nat): (r: string)
    requires i <= |s|
    ensures |r| <= |s| - i
    decreases |s| - i
  {
    if i == |s| then ""
    else match LinkAt(s, i)
      case Link(j, m) => s[i + 1..j] + RemoveHyperlinksFrom(s, m + 1)
      case NoLink => [s[i]] + RemoveHyperlinksFrom(s, i + 1)
  }

  /** `MarkdownReader.remove_hyperlinks`: every link is replaced by its label. */
  function RemoveHyperlinks(content: string): (r: string)
    ensures |r| <= |content|
  {
    RemoveHyperlinksFrom(content, 0)
  }

  /** Where no link starts, the character is copied. */
  lemma CopyStep(s: string, k: nat)
    requires k < |s| && LinkAt(s, k).NoLink?
    ensures RemoveHyperlinksFrom(s, k) == [s[k]] + RemoveHyperlinksFrom(s, k + 1)
  {
  }

  /** Where a link starts, its label is kept and the scan resumes after it. */
  lemma LinkStep(s: string, k: nat, j: nat, m: nat)
    requires k < |s| && LinkAt(s, k) == Link(j, m)
    ensures RemoveHyperlinksFrom(s, k) == s[k + 1..j] + RemoveHyperlinksFrom(s, m + 1)
  {
    var rest := RemoveHyperlinksFrom(s, m + 1);
    assert RemoveHyperlinksFrom(s, k) == s[k + 1..j] + rest;
  }

  // ---------------------------------------------------------------------
  // remove_images: pattern `!{1}\[\[(.*)\]\]`, replacement ""
  // ---------------------------------------------------------------------

  /** `]]` starts at index `q`. */
  predicate EmbedCloseAt(s: string, q: nat) {
    q + 1 < |s| && s[q] == ']' && s[q + 1] == ']'
  }

  /** `![[...]]` matches at `i` with the closing `]]` at `k`, on one line. */
  ghost predicate IsImage(s: string, i: nat, k: nat) {
    i + 3 <= k && k + 1 < |s|
    && s[i] == '!' && s[i + 1] == '[' && s[i + 2] == '['
    && EmbedCloseAt(s, k) && OnOneLine(s, i + 3, k)
  }

  /** Last `]]` at or after `k` that lies on the same line as `k`. */
  function LastClose(s: string, k: nat): (r: Option<nat>)
    requires k <= |s|
    ensures r.Some? ==> k <= r.value && r.value + 1 < |s|
    decreases |s| - k
  {
    if k >= |s| || s[k] == '\n' then None
    else
      var later := LastClose(s, k + 1);
      if later.Some? then later
      else if EmbedCloseAt(s, k) then Some(k)
      else None
  }

  /** `LastClose` finds the last `]]` of the line, and none only when there is none. */
  lemma {:induction false} LastCloseSpec(s: string, k: nat)
    requires k <= |s|
    ensures var r := LastClose(s, k);
            r.Some? ==> EmbedCloseAt(s, r.value) && OnOneLine(s, k, r.value)
    ensures var r := LastClose(s, k);
            forall q: nat :: k <= q && EmbedCloseAt(s, q) && OnOneLine(s, k, q) ==> r.Some? && q <= r.value
    decreases |s| - k
  {
    if k < |s| && s[k] != '\n' {
      LastCloseSpec(s, k + 1);
    }
  }

  /** Where the greedy pattern's match at `i` ends: the longest single-line
      `![[...]]` starting at `i` (its last `]]` on the line), and none when
      there is none. */
  function ImageAt(s: string, i: nat): (r: Option<nat>)
    requires i < |s|
    ensures r.Some? ==> i + 3 <= r.value && r.value + 1 < |s|
  {
    if i + 3 <= |s| && s[i] == '!' && s[i + 1] == '[' && s[i + 2] == '[' then LastClose(s, i + 3)
    else None
  }

  /** `ImageAt` is exactly the match of the greedy pattern: the longest
      single-line embed starting at `i`, and none when there is none. */
  lemma ImageAtIsGreedy(s: string, i: nat)
    requires i < |s|
    ensures ImageAt(s, i).Some? ==> IsImage(s, i, ImageAt(s, i).value)
    ensures forall k: nat :: IsImage(s, i, k) ==> ImageAt(s, i).Some? && k <= ImageAt(s, i).value
  {
    if i + 3 <= |s| {
      LastCloseSpec(s, i + 3);
    }
  }

  /** `re.sub(r"!{1}\[\[(.*)\]\]", "", s[i..])`, scanning from `i`. */
  function RemoveImagesFrom(s: string, i: nat): (r: string)
    requires i <= |s|
    ensures |r| <= |s| - i
    decreases |s| - i
  {
    if i == |s| then ""
    else match ImageAt(s, i)
      case Some(k) => RemoveImagesFrom(s, k + 2)
      case None => [s[i]] + RemoveImagesFrom(s, i + 1)
  }

  /** `MarkdownReader.remove_images`: every wiki-style `![[...]]` embed is deleted. */
  function RemoveImages(content: string): (r: string)
    ensures |r| <= |content|
  {
    RemoveImagesFrom(content, 0)
  }

  /** Where no embed starts, the character is kept. */
  lemma KeepStep(s: string, q: nat)
    requires q < |s| && ImageAt(s, q).None?
    ensures RemoveImagesFrom(s, q) == [s[q]] + RemoveImagesFrom(s, q + 1)
  {
  }

  // ---------------------------------------------------------------------
  // parse_tups, content part: the flags, hyperlinks first
  // ---------------------------------------------------------------------

  /** The content `parse_tups` hands to `markdown_to_tups`. */
  function Preprocess(config: ReaderConfig, content: string): (r: string)
    ensures |r| <= |content|
  {
    var c := if config.removeHyperlinks then RemoveHyperlinks(content) else content;
    if config.removeImages then RemoveImages(c) else c
  }

  // ---------------------------------------------------------------------
  // Properties of the rewrites
  // ---------------------------------------------------------------------

  /** A slice that starts with one-line text has as many newlines as its tail. */
  lemma NewlineCountSkip(s: string, a: nat, b: nat)
    requires a <= b <= |s| && OnOneLine(s, a, b)
    ensures NewlineCount(s[a..]) == NewlineCount(s[b..])
  {
    assert s[a..] == s[a..b] + s[b..];
    NewlineCountAppend(s[a..b], s[b..]);
    OnOneLineSlice(s, a, b);
    NoNewlineCount(s[a..b]);
  }

  /** Counting newlines from `i` counts the one at `i`, then the rest. */
  lemma NewlineCountHead(s: string, i: nat)
    requires i < |s|
    ensures NewlineCount(s[i..]) == (if s[i] == '\n' then 1 else 0) + NewlineCount(s[i + 1..])
  {
    assert s[i..][1..] == s[i + 1..];
  }

  /** A link spans no newline, and neither does the label it leaves behind. */
  lemma LinkKeepsNewlines(s: string, i: nat, j: nat, m: nat)
    requires i < |s| && LinkAt(s, i) == Link(j, m)
    ensures NewlineCount(RemoveHyperlinksFrom(s, i)) == NewlineCount(RemoveHyperlinksFrom(s, m + 1))
    ensures NewlineCount(s[i..]) == NewlineCount(s[m + 1..])
  {
    LinkAtIsLeftmostLazy(s, i);
    LinkOnOneLine(s, i, j, m);
    NewlineCountSkip(s, i, m + 1);
    LabelKeepsNewlines(s, i, j, m);
  }

  lemma LinkOnOneLine(s: string, i: nat, j: nat, m: nat)
    requires IsLink(s, i, j, m)
    ensures OnOneLine(s, i, m + 1)
  {
    forall k | i <= k < m + 1 ensures s[k] != '\n' {
      if i < k < j {
        assert OnOneLine(s, i + 1, j);
      } else if j + 1 < k < m {
        assert OnOneLine(s, j + 2, m);
      }
    }
  }

  lemma LabelKeepsNewlines(s: string, i: nat, j: nat, m: nat)
    requires i < |s| && LinkAt(s, i) == Link(j, m) && IsLink(s, i, j, m)
    ensures NewlineCount(RemoveHyperlinksFrom(s, i)) == NewlineCount(RemoveHyperlinksFrom(s, m + 1))
  {
    OnOneLineSlice(s, i + 1, j);
    NoNewlineCount(s[i + 1..j]);
    NewlineCountAppend(s[i + 1..j], RemoveHyperlinksFrom(s, m + 1));
    LinkStep(s, i, j, m);
  }

  /** A copied character is counted on both sides alike. */
  lemma CopyKeepsNewlines(s: string, i: nat)
    requires i < |s| && LinkAt(s, i).NoLink?
    ensures NewlineCount(RemoveHyperlinksFrom(s, i))
            == (if s[i] == '\n' then 1 else 0) + NewlineCount(RemoveHyperlinksFrom(s, i + 1))
  {
    CopyStep(s, i);
    NewlineCountAppend([s[i]], RemoveHyperlinksFrom(s, i + 1));
  }

  /** One scan step keeps the newline balance: it either drops a one-line link
      or copies one character. */
  lemma HyperlinkNewlineStep(s: string, i: nat)
    requires i < |s|
    ensures var r := LinkAt(s, i);
            var next := if r.Link? then r.close + 1 else i + 1;
            NewlineCount(RemoveHyperlinksFrom(s, next)) == NewlineCount(s[next..]) ==>
            NewlineCount(RemoveHyperlinksFrom(s, i)) == NewlineCount(s[i..])
  {
    if LinkAt(s, i).Link? {
      LinkKeepsNewlines(s, i, LinkAt(s, i).labelEnd, LinkAt(s, i).close);
    } else {
      CopyKeepsNewlines(s, i);
      NewlineCountHead(s, i);
    }
  }

  /** Removing hyperlinks never adds or removes a newline, so the line
      structure the scanner sees is unchanged (no match spans a line). */
  lemma {:induction false} RemoveHyperlinksKeepsNewlines(s: string, i: nat)
    requires i <= |s|
    ensures NewlineCount(RemoveHyperlinksFrom(s, i)) == NewlineCount(s[i..])
    decreases |s| - i
  {
    if i < |s| {
      var r := LinkAt(s, i);
      var next := if r.Link? then r.close + 1 else i + 1;
      RemoveHyperlinksKeepsNewlines(s, next);
      HyperlinkNewlineStep(s, i);
    }
  }

  /** A deleted embed spans no newline. */
  lemma EmbedKeepsNewlines(s: string, i: nat)
    requires i < |s| && ImageAt(s, i).Some?
    ensures RemoveImagesFrom(s, i) == RemoveImagesFrom(s, ImageAt(s, i).value + 2)
    ensures NewlineCount(s[i..]) == NewlineCount(s[ImageAt(s, i).value + 2..])
  {
    var k := ImageAt(s, i).value;
    ImageAtIsGreedy(s, i);
    assert OnOneLine(s, i, k + 2);
    NewlineCountSkip(s, i, k + 2);
  }

  /** A kept character is counted on both sides alike. */
  lemma KeptKeepsNewlines(s: string, i: nat)
    requires i < |s| && ImageAt(s, i).None?
    ensures NewlineCount(RemoveImagesFrom(s, i))
            == (if s[i] == '\n' then 1 else 0) + NewlineCount(RemoveImagesFrom(s, i + 1))
  {
    KeepStep(s, i);
    NewlineCountAppend([s[i]], RemoveImagesFrom(s, i + 1));
  }

  /** Removing image embeds never adds or removes a newline. */
  lemma {:induction false} RemoveImagesKeepsNewlines(s: string, i: nat)
    requires i <= |s|
    ensures NewlineCount(RemoveImagesFrom(s, i)) == NewlineCount(s[i..])
    decreases |s| - i
  {
    if i < |s| {
      if ImageAt(s, i).Some? {
        EmbedKeepsNewlines(s, i);
        RemoveImagesKeepsNewlines(s, ImageAt(s, i).value + 2);
      } else {
        KeptKeepsNewlines(s, i);
        NewlineCountHead(s, i);
        RemoveImagesKeepsNewlines(s, i + 1);
      }
    }
  }

  /** Text in which no `[` occurs from `k` to `n` is copied up to `n`. */
  lemma {:induction false} PrefixCopied(s: string, n: nat, k: nat)
    requires k <= n <= |s|
    requires forall q :: k <= q < n ==> s[q] != '['
    ensures RemoveHyperlinksFrom(s, k) == s[k..n] + RemoveHyperlinksFrom(s, n)
    decreases n - k
  {
    if k < n {
      calc {
        RemoveHyperlinksFrom(s, k);
        == { assert LinkAt(s, k).NoLink?; CopyStep(s, k); }
        [s[k]] + RemoveHyperlinksFrom(s, k + 1);
        == { PrefixCopied(s, n, k + 1); }
        [s[k]] + (s[k + 1..n] + RemoveHyperlinksFrom(s, n));
        ==
        ([s[k]] + s[k + 1..n]) + RemoveHyperlinksFrom(s, n);
        == { assert s[k..n] == [s[k]] + s[k + 1..n]; }
        s[k..n] + RemoveHyperlinksFrom(s, n);
      }
    } else {
      assert s[k..n] == [];
    }
  }

  /** Text in which no `!` occurs from `q` to `n` is kept up to `n`. */
  lemma {:induction false} PrefixKept(s: string, n: nat, q: nat)
    requires q <= n <= |s|
    requires forall k :: q <= k < n ==> s[k] != '!'
    ensures RemoveImagesFrom(s, q) == s[q..n] + RemoveImagesFrom(s, n)
    decreases n - q
  {
    if q < n {
      calc {
        RemoveImagesFrom(s, q);
        == { assert ImageAt(s, q).None?; KeepStep(s, q); }
        [s[q]] + RemoveImagesFrom(s, q + 1);
        == { PrefixKept(s, n, q + 1); }
        [s[q]] + (s[q + 1..n] + RemoveImagesFrom(s, n));
        ==
        ([s[q]] + s[q + 1..n]) + RemoveImagesFrom(s, n);
        == { assert s[q..n] == [s[q]] + s[q + 1..n]; }
        s[q..n] + RemoveImagesFrom(s, n);
      }
    } else {
      assert s[q..n] == [];
    }
  }

  /** Text without `[` is left as it is by the hyperlink pass. */
  lemma RemoveHyperlinksNoBracket(s: string)
    requires forall k :: 0 <= k < |s| ==> s[k] != '['
    ensures RemoveHyperlinks(s) == s
  {
    PrefixCopied(s, |s|, 0);
    assert s[0..|s|] == s;
  }

  /** Text without `!` is left as it is by the image pass. */
  lemma RemoveImagesNoBang(s: string)
    requires forall k :: 0 <= k < |s| ==> s[k] != '!'
    ensures RemoveImages(s) == s
  {
    PrefixKept(s, |s|, 0);
    assert s[0..|s|] == s;
  }

  /** `caption` holds no `](` (the lazy label stops at the first one). */
  predicate NoLabelEnd(caption: string) {
    forall q: nat :: q < |caption| ==> !LabelCloseAt(caption, q)
  }

  /** In a text `pre[caption](target)post` the lazy pattern matches exactly the link. */
  lemma OneLinkMatch(pre: string, caption: string, target: string, post: string)
    requires NoNewline(caption) && NoLabelEnd(caption)
    requires NoNewline(target) && forall k :: 0 <= k < |target| ==> target[k] != ')'
    ensures var s := pre + "[" + caption + "](" + target + ")" + post;
            LinkAt(s, |pre|) == Link(|pre| + 1 + |caption|, |pre| + |caption| + 3 + |target|)
  {
    var s := pre + "[" + caption + "](" + target + ")" + post;
    var i, j, m := |pre|, |pre| + 1 + |caption|, |pre| + |caption| + 3 + |target|;
    assert s[i] == '[' && s[j] == ']' && s[j + 1] == '(' && s[m] == ')';
    assert forall x :: i + 1 <= x < j ==> s[x] == caption[x - i - 1];
    assert OnOneLine(s, i + 1, j) && LabelCloseAt(s, j);
    forall v: nat | i + 1 <= v < j ensures !LabelCloseAt(s, v) {
      if v + 1 < j {
        assert !LabelCloseAt(caption, v - i - 1);
      }
    }
    LabelEndFinds(s, i + 1, j);
    assert forall x :: j + 2 <= x < m ==> s[x] == target[x - j - 2];
    assert OnOneLine(s, j + 2, m) && ParenCloseAt(s, m);
    CloseParenFinds(s, j + 2, m);
  }

  lemma OnlyLinkA(s: string, i: nat, j: nat, m: nat)
    requires i < |s| && LinkAt(s, i) == Link(j, m)
    requires forall k :: 0 <= k < i ==> s[k] != '['
    ensures RemoveHyperlinksFrom(s, 0) == s[..i] + s[i + 1..j] + RemoveHyperlinksFrom(s, m + 1)
  {
    assert s[0..i] == s[..i];
    assert s[..i] + (s[i + 1..j] + RemoveHyperlinksFrom(s, m + 1)) == s[..i] + s[i + 1..j] + RemoveHyperlinksFrom(s, m + 1);
    PrefixCopied(s, i, 0);
    LinkStep(s, i, j, m);
  }

  lemma OnlyLinkB(s: string, m: nat)
    requires m <= |s|
    requires forall k :: m <= k < |s| ==> s[k] != '['
    ensures RemoveHyperlinksFrom(s, m) == s[m..]
  {
    PrefixCopied(s, |s|, m);
    assert s[m..|s|] == s[m..];
  }

  lemma OnlyLink(s: string, i: nat, j: nat, m: nat)
    requires i < |s| && LinkAt(s, i) == Link(j, m)
    requires forall k :: 0 <= k < i ==> s[k] != '['
    requires forall k :: m < k < |s| ==> s[k] != '['
    ensures RemoveHyperlinksFrom(s, 0) == s[..i] + s[i + 1..j] + s[m + 1..]
  {
    OnlyLinkA(s, i, j, m);
    OnlyLinkB(s, m + 1);
  }

  /** A character absent from a slice is absent at each index it covers. */
  lemma AbsentFromSlice(s: string, a: nat, b: nat, c: char)
    requires a <= b <= |s|
    requires forall k :: 0 <= k < b - a ==> s[a..b][k] != c
    ensures forall k :: a <= k < b ==> s[k] != c
  {
    assert forall k :: a <= k < b ==> s[k] == s[a..b][k - a];
  }

  /** A single-line link `[label](target)` between texts without `[` becomes its label. */
  lemma RemoveHyperlinksOneLink(pre: string, caption: string, target: string, post: string)
    requires forall k :: 0 <= k < |pre| ==> pre[k] != '['
    requires NoNewline(caption) && NoLabelEnd(caption)
    requires NoNewline(target) && forall k :: 0 <= k < |target| ==> target[k] != ')'
    requires forall k :: 0 <= k < |post| ==> post[k] != '['
    ensures RemoveHyperlinks(pre + "[" + caption + "](" + target + ")" + post)
            == pre + caption + post
  {
    var s := pre + "[" + caption + "](" + target + ")" + post;
    var link := "[" + caption + "](" + target + ")";
    var i, j, m := |pre|, |pre| + 1 + |caption|, |pre| + |caption| + 3 + |target|;
    OneLinkMatch(pre, caption, target, post);
    assert s == pre + link + post;
    assert (pre + link + post)[..|pre|] == pre;
    assert (pre + link + post)[|pre|..|pre| + |link|] == link;
    assert (pre + link + post)[|pre| + |link|..] == post;
    assert link[1..1 + |caption|] == caption;
    assert s[i + 1..j] == caption by {
      assert s[i..m + 1] == link;
      assert s[i + 1..j] == s[i..m + 1][1..1 + |caption|];
    }
    AbsentFromSlice(s, 0, i, '[');
    assert s[m + 1..] == s[m + 1..|s|];
    AbsentFromSlice(s, m + 1, |s|, '[');
    OnlyLink(s, i, j, m);
  }

  /** A single-line embed `![[name]]` after `!`-free text, followed by text
      with neither `!` nor `]`, is deleted. */
  lemma RemoveImagesOneEmbed(pre: string, name: string, post: string)
    requires forall k :: 0 <= k < |pre| ==> pre[k] != '!'
    requires NoNewline(name)
    requires forall k :: 0 <= k < |post| ==> post[k] != ']' && post[k] != '!'
    ensures RemoveImages(pre + "![[" + name + "]]" + post) == pre + post
  {
    var s := pre + "![[" + name + "]]" + post;
    var i, k := |pre|, |pre| + 3 + |name|;
    assert forall x :: i + 3 <= x < k ==> s[x] == name[x - i - 3];
    assert IsImage(s, i, k);
    assert forall q :: k + 2 <= q < |s| ==> s[q] == post[q - k - 2];
    ImageAtIsGreedy(s, i);
    assert ImageAt(s, i) == Some(k);
    assert RemoveImagesFrom(s, i) == RemoveImagesFrom(s, k + 2);
    PrefixKept(s, i, 0);
    assert s[0..i] == pre;
    PrefixKept(s, |s|, k + 2);
    assert s[k + 2..|s|] == post;
  }

  /** With both passes off the content reaches the scanner unchanged, and
      whatever the flags, the line structure is preserved. */
  lemma PreprocessKeepsLines(config: ReaderConfig, content: string)
    ensures !config.removeHyperlinks && !config.removeImages ==> Preprocess(config, content) == content
    ensures NewlineCount(Preprocess(config, content)) == NewlineCount(content)
  {
    RemoveHyperlinksKeepsNewlines(content, 0);
    var c := if config.removeHyperlinks then RemoveHyperlinks(content) else content;
    RemoveImagesKeepsNewlines(c, 0);
  }

  /** Standard image syntax is not deleted: the hyperlink pass runs first and
      turns `![alt](url)` into `!alt`, which the image pass leaves alone. */
  lemma StandardImageBecomesBangLabel(alt: string, url: string)
    requires NoNewline(alt) && forall k :: 0 <= k < |alt| ==> alt[k] != '!' && alt[k] != '[' && alt[k] != ']'
    requires NoNewline(url) && forall k :: 0 <= k < |url| ==> url[k] != ')'
    ensures Preprocess(DefaultConfig, "![" + alt + "](" + url + ")") == "!" + alt
  {
    assert NoLabelEnd(alt);
    RemoveHyperlinksOneLink("!", alt, url, "");
    assert "!" + "[" + alt + "](" + url + ")" + "" == "![" + alt + "](" + url + ")";
    var t := "!" + alt;
    assert "!" + alt + "" == t;
    assert ImageAt(t, 0).None? by {
      assert |t| >= 3 ==> t[1] == alt[0];
    }
    KeepStep(t, 0);
    PrefixKept(t, |t|, 1);
    assert t[1..|t|] == alt;
  }
}
