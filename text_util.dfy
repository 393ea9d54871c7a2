/** Small text helpers with the semantics of the Python built-ins the Markdown
    reader relies on: `str.isspace` / `strip`, `str.split("\n")` and
    `sep.join(list)`. */
module TextUtil {

  /** A character Python treats as whitespace (`str.isspace`, and `\s` in a
      `str` regular expression): the code points with Unicode bidirectional
      class WS, B or S, or general category Zs. */
  predicate IsSpace(c: char) {
    var n := c as int;
    (9 <= n <= 13) || (28 <= n <= 32) || n == 0x85 || n == 0xA0 || n == 0x1680
    || (0x2000 <= n <= 0x200A) || n == 0x2028 || n == 0x2029 || n == 0x202F
    || n == 0x205F || n == 0x3000
  }

  /** `len(line.strip()) == 0`: the line is empty or holds only whitespace. */
  predicate IsBlank(line: string) {
    forall k :: 0 <= k < |line| ==> IsSpace(line[k])
  }

  /** No newline occurs in `s`. */
  predicate NoNewline(s: string) {
    forall k :: 0 <= k < |s| ==> s[k] != '\n'
  }

  /** Index of the first occurrence of `c` in `s`, or `|s|` when there is none. */
  function IndexOf(s: string, c: char): (i: nat)
    ensures i <= |s|
    ensures i < |s| ==> s[i] == c
    ensures forall k :: 0 <= k < i ==> s[k] != c
  {
    if s == [] then 0
    else if s[0] == c then 0
    else 1 + IndexOf(s[1..], c)
  }

  /** `s.split("\n")`: the pieces between newlines, at least one. */
  function Split(s: string): (r: seq<string>)
    ensures |r| >= 1
    ensures forall k :: 0 <= k < |r| ==> NoNewline(r[k])
    decreases |s|
  {
    var i := IndexOf(s, '\n');
    if i == |s| then [s] else [s[..i]] + Split(s[i + 1..])
  }

  /** `sep.join(xs)`. */
  function Join(sep: string, xs: seq<string>): string {
    if |xs| == 0 then ""
    else if |xs| == 1 then xs[0]
    else xs[0] + sep + Join(sep, xs[1..])
  }

  /** `a` occurs as a contiguous piece of `b`. */
  ghost predicate IsInfix(a: string, b: string) {
    exists i: nat :: OccursAt(a, b, i)
  }

  /** `a` occurs in `b` starting at index `i`. */
  predicate OccursAt(a: string, b: string, i: nat) {
    i + |a| <= |b| && b[i..i + |a|] == a
  }

  /** Number of newlines in `s`. */
  function NewlineCount(s: string): nat {
    if s == [] then 0 else (if s[0] == '\n' then 1 else 0) + NewlineCount(s[1..])
  }

  lemma {:induction false} NewlineCountAppend(a: string, b: string)
    ensures NewlineCount(a + b) == NewlineCount(a) + NewlineCount(b)
  {
    if a != [] {
      assert (a + b)[1..] == a[1..] + b;
      NewlineCountAppend(a[1..], b);
    } else {
      assert a + b == b;
    }
  }

  lemma {:induction false} NoNewlineCount(s: string)
    requires NoNewline(s)
    ensures NewlineCount(s) == 0
  {
    if s != [] {
      NoNewlineCount(s[1..]);
    }
  }

  /** Joining two non-empty lists is joining their joins. */
  lemma {:induction false} JoinAppend(sep: string, xs: seq<string>, ys: seq<string>)
    requires |xs| >= 1 && |ys| >= 1
    ensures Join(sep, xs + ys) == Join(sep, xs) + sep + Join(sep, ys)
  {
    if |xs| == 1 {
      assert (xs + ys)[1..] == ys;
    } else {
      assert (xs + ys)[1..] == xs[1..] + ys;
      JoinAppend(sep, xs[1..], ys);
    }
  }

  /** Every element of a list occurs in its join. */
  lemma {:induction false} JoinContains(sep: string, xs: seq<string>, k: nat)
    requires k < |xs|
    ensures IsInfix(xs[k], Join(sep, xs))
  {
    var j := Join(sep, xs);
    if k == 0 {
      assert j[0..|xs[0]|] == xs[0];
      assert OccursAt(xs[0], j, 0);
    } else {
      JoinContains(sep, xs[1..], k - 1);
      var p: nat :| OccursAt(xs[k], Join(sep, xs[1..]), p);
      OccursAtShift(xs[k], Join(sep, xs[1..]), xs[0] + sep, p);
    }
  }

  /** An occurrence in `b` is an occurrence in `pre + b`, further on. */
  lemma OccursAtShift(a: string, b: string, pre: string, p: nat)
    requires OccursAt(a, b, p)
    ensures OccursAt(a, pre + b, |pre| + p)
  {
    assert (pre + b)[|pre| + p..|pre| + p + |a|] == b[p..p + |a|];
  }

  /** Splitting undoes joining with newlines: `"\n".join(s.split("\n")) == s`. */
  lemma {:induction false} JoinSplit(s: string)
    ensures Join("\n", Split(s)) == s
    decreases |s|
  {
    var i := IndexOf(s, '\n');
    if i < |s| {
      JoinSplit(s[i + 1..]);
      assert Split(s) == [s[..i]] + Split(s[i + 1..]);
      JoinAppend("\n", [s[..i]], Split(s[i + 1..]));
      assert s == s[..i] + "\n" + s[i + 1..];
    }
  }

  /** Joining newline-free pieces with newlines and splitting gives them back. */
  lemma {:induction false} SplitJoin(xs: seq<string>)
    requires |xs| >= 1
    requires forall k :: 0 <= k < |xs| ==> NoNewline(xs[k])
    ensures Split(Join("\n", xs)) == xs
  {
    var s := Join("\n", xs);
    if |xs| == 1 {
      var i := IndexOf(xs[0], '\n');
      assert i == |xs[0]|;
    } else {
      SplitJoin(xs[1..]);
      var i := IndexOf(s, '\n');
      assert s == xs[0] + "\n" + Join("\n", xs[1..]);
      assert s[|xs[0]|] == '\n';
      assert forall k :: 0 <= k < |xs[0]| ==> s[k] == xs[0][k];
      assert i == |xs[0]|;
      assert s[..i] == xs[0];
      assert s[i + 1..] == Join("\n", xs[1..]);
    }
  }

  /** A newline in the text splits the lines exactly there. */
  lemma SplitAround(a: string, b: string)
    ensures Split(a + "\n" + b) == Split(a) + Split(b)
  {
    var xs, ys := Split(a), Split(b);
    JoinSplit(a);
    JoinSplit(b);
    JoinAppend("\n", xs, ys);
    assert Join("\n", xs + ys) == a + "\n" + b;
    AllNoNewlineAppend(xs, ys);
    SplitJoin(xs + ys);
  }

  lemma AllNoNewlineAppend(xs: seq<string>, ys: seq<string>)
    requires forall k :: 0 <= k < |xs| ==> NoNewline(xs[k])
    requires forall k :: 0 <= k < |ys| ==> NoNewline(ys[k])
    ensures forall k :: 0 <= k < |xs + ys| ==> NoNewline((xs + ys)[k])
  {
  }
}
