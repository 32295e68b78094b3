/**
 * sentenceSegmenter.js over an abstract page: the page is a sequence of
 * visible text chunks, each tagged with the paragraph it belongs to (two
 * chunks share a tag exactly when their closest `<p>` ancestor is the same
 * element, "none" included). The scans that find where a sentence ends and
 * where it begins are loops over one chunk with a `「`/`」` nesting depth;
 * they are methods here, proved against the step-by-step scan functions. The
 * continuation into the neighbouring chunks of the same paragraph and the
 * final composition are functions, and the lemmas show that splitting a
 * paragraph into chunks does not change what the scans find.
 */
module SentenceTools {
  import opened Wrappers

  /** The characters that end a sentence. */
  const Ends: string := "。！？.!?"
  const OpenQuote: char := '「'
  const CloseQuote: char := '」'

  /** A visible text node: its text and the paragraph it sits in. */
  datatype Chunk = Chunk(text: string, paragraph: nat)

  /** What one scan over a chunk found: a terminator at `at`, or the end of the chunk with the carried depth. */
  datatype Scan = Found(at: nat) | Exhausted(depth: int)

  /** How a character moves the quote depth of a forward reading. */
  function Delta(c: char): int {
    if c == OpenQuote then 1 else if c == CloseQuote then -1 else 0
  }

  /** The number of `「` minus the number of `」` in `s`. */
  function Balance(s: string): int {
    if s == [] then 0 else Balance(s[..|s| - 1]) + Delta(s[|s| - 1])
  }

  lemma {:induction false} BalanceAppend(a: string, b: string)
    ensures Balance(a + b) == Balance(a) + Balance(b)
    decreases |b|
  {
    if b == [] {
      assert a + b == a;
    } else {
      assert (a + b)[..|a + b| - 1] == a + b[..|b| - 1];
      BalanceAppend(a, b[..|b| - 1]);
    }
  }

  /** Peeling the first character off a slice. */
  lemma {:induction false} BalanceCons(t: string, i: nat, j: nat)
    requires i < j <= |t|
    ensures Balance(t[i..j]) == Delta(t[i]) + Balance(t[i + 1..j])
  {
    assert t[i..j] == [t[i]] + t[i + 1..j];
    BalanceAppend([t[i]], t[i + 1..j]);
    assert [t[i]][..0] == [];
  }

  /** Adding the next character to a slice. */
  lemma {:induction false} BalanceSnoc(t: string, i: nat, j: nat)
    requires i <= j < |t|
    ensures Balance(t[i..j + 1]) == Balance(t[i..j]) + Delta(t[j])
  {
    assert t[i..j + 1][..j - i] == t[i..j];
  }

  // ------------------------------------------------------------ forward

  /**
   * The loop of `getSentenceSuffix` from position `i` with depth `d`: the
   * depth moves before the test, and a terminator counts only at depth 0 or
   * below.
   */
  function ScanForward(t: string, i: nat, d: int): (r: Scan)
    ensures r.Found? ==> i <= r.at < |t| && t[r.at] in Ends
    decreases |t| - i
  {
    if i >= |t| then Exhausted(d)
    else
      var d' := d + Delta(t[i]);
      if d' <= 0 && t[i] in Ends then Found(i) else ScanForward(t, i + 1, d')
  }

  /** Position `j` ends a sentence for a forward scan that started at `o` with depth `d`. */
  predicate EndsForward(t: string, o: nat, d: int, j: nat)
    requires o <= j < |t|
  {
    t[j] in Ends && d + Balance(t[o..j + 1]) <= 0
  }

  /** The forward loop (sentenceSegmenter.js, `getSentenceSuffix`). */
  method ForwardScan(t: string, offset: nat, depth: int) returns (r: Scan)
    ensures r == ScanForward(t, offset, depth)
  {
    var d := depth;
    var i := offset;
    while i < |t|
      invariant offset <= i
      invariant ScanForward(t, i, d) == ScanForward(t, offset, depth)
      decreases |t| - i
    {
      var c := t[i];
      if c == OpenQuote { d := d + 1; }
      if c == CloseQuote { d := d - 1; }
      if d <= 0 && c in Ends {
        return Found(i);
      }
      i := i + 1;
    }
    return Exhausted(d);
  }

  /**
   * The forward scan stops at the FIRST position at or after `o` that holds
   * a terminator with the depth (the starting depth plus the quotes read so
   * far, that character included) at most 0; when there is none it carries
   * the starting depth plus the balance of the rest of the chunk.
   */
  lemma {:induction false} ScanForwardSpec(t: string, o: nat, d: int)
    requires o <= |t|
    ensures match ScanForward(t, o, d)
      case Found(k) =>
        o <= k < |t| && EndsForward(t, o, d, k) &&
        forall j :: o <= j < k ==> !EndsForward(t, o, d, j)
      case Exhausted(e) =>
        e == d + Balance(t[o..]) &&
        forall j :: o <= j < |t| ==> !EndsForward(t, o, d, j)
    decreases |t| - o
  {
    if o < |t| {
      var d' := d + Delta(t[o]);
      EndsForwardFirst(t, o, d);
      if !(d' <= 0 && t[o] in Ends) {
        ScanForwardSpec(t, o + 1, d');
        forall j | o + 1 <= j < |t|
          ensures EndsForward(t, o, d, j) == EndsForward(t, o + 1, d', j)
        {
          BalanceCons(t, o, j + 1);
        }
        BalanceRest(t, o);
      }
    }
  }

  /** Whether the character at `o` ends a forward scan started there. */
  lemma {:induction false} EndsForwardFirst(t: string, o: nat, d: int)
    requires o < |t|
    ensures EndsForward(t, o, d, o) == (d + Delta(t[o]) <= 0 && t[o] in Ends)
  {
    assert t[o..o + 1] == [t[o]];
    assert Balance(t[o..o + 1]) == Delta(t[o]) by {
      assert [t[o]][..0] == [];
    }
  }

  /** The balance of a suffix, its first character peeled off. */
  lemma {:induction false} BalanceRest(t: string, o: nat)
    requires o < |t|
    ensures Balance(t[o..]) == Delta(t[o]) + Balance(t[o + 1..])
  {
    BalanceCons(t, o, |t|);
    assert t[o..|t|] == t[o..] && t[o + 1..|t|] == t[o + 1..];
  }

  /** A terminator read while a `「` is still open never ends the sentence. */
  lemma {:induction false} QuotedTerminatorSkipped(t: string, o: nat, d: int, j: nat)
    requires o <= j < |t| && t[j] in Ends && d + Balance(t[o..j + 1]) > 0
    ensures ScanForward(t, o, d) != Found(j)
  {
    ScanForwardSpec(t, o, d);
  }

  /** Moves a scan result `n` positions to the right. */
  function Shift(r: Scan, n: nat): Scan {
    match r
    case Found(k) => Found(k + n)
    case Exhausted(e) => Exhausted(e)
  }

  lemma {:induction false} ScanForwardRight(a: string, b: string, j: nat, d: int)
    requires j <= |b|
    ensures ScanForward(a + b, |a| + j, d) == Shift(ScanForward(b, j, d), |a|)
    decreases |b| - j
  {
    if j < |b| {
      assert (a + b)[|a| + j] == b[j];
      ScanForwardRight(a, b, j + 1, d + Delta(b[j]));
    }
  }

  /**
   * Scanning two chunks glued together is scanning the first and, when it
   * runs out, the second from its start with the carried depth.
   */
  lemma {:induction false} ScanForwardConcat(a: string, b: string, o: nat, d: int)
    requires o <= |a|
    ensures ScanForward(a + b, o, d) ==
      match ScanForward(a, o, d)
      case Found(k) => Found(k)
      case Exhausted(e) => Shift(ScanForward(b, 0, e), |a|)
    decreases |a| - o
  {
    if o == |a| {
      ScanForwardRight(a, b, 0, d);
    } else {
      assert (a + b)[o] == a[o];
      ScanForwardConcat(a, b, o + 1, d + Delta(a[o]));
    }
  }

  // ------------------------------------------------------------ backward

  /**
   * The loop of `getSentencePrefix`, with `i` characters left to read (the
   * next one is `t[i - 1]`): `「` lowers the depth, `」` raises it.
   */
  function ScanBackward(t: string, i: nat, d: int): (r: Scan)
    requires i <= |t|
    ensures r.Found? ==> r.at < i && t[r.at] in Ends
  {
    if i == 0 then Exhausted(d)
    else
      var d' := d - Delta(t[i - 1]);
      if d' <= 0 && t[i - 1] in Ends then Found(i - 1) else ScanBackward(t, i - 1, d')
  }

  /** Position `j` starts a sentence for a backward scan that started before `o` with depth `d`. */
  predicate EndsBackward(t: string, o: nat, d: int, j: nat)
    requires j < o <= |t|
  {
    t[j] in Ends && d - Balance(t[j..o]) <= 0
  }

  /** The backward loop (sentenceSegmenter.js, `getSentencePrefix`). */
  method BackwardScan(t: string, offset: nat, depth: int) returns (r: Scan)
    requires offset <= |t|
    ensures r == ScanBackward(t, offset, depth)
  {
    var d := depth;
    var i := offset - 1;
    while i >= 0
      invariant -1 <= i < offset
      invariant ScanBackward(t, i + 1, d) == ScanBackward(t, offset, depth)
      decreases i
    {
      var c := t[i];
      if c == OpenQuote { d := d - 1; }
      if c == CloseQuote { d := d + 1; }
      if d <= 0 && c in Ends {
        return Found(i);
      }
      i := i - 1;
    }
    return Exhausted(d);
  }

  /**
   * The backward scan stops at the LAST position before `o` that holds a
   * terminator with the depth at most 0; when there is none it carries the
   * starting depth minus the balance of the chunk before `o`.
   */
  lemma {:induction false} ScanBackwardSpec(t: string, o: nat, d: int)
    requires o <= |t|
    ensures match ScanBackward(t, o, d)
      case Found(k) =>
        k < o && EndsBackward(t, o, d, k) &&
        forall j :: k < j < o ==> !EndsBackward(t, o, d, j)
      case Exhausted(e) =>
        e == d - Balance(t[..o]) &&
        forall j :: 0 <= j < o ==> !EndsBackward(t, o, d, j)
  {
    if o > 0 {
      var d' := d - Delta(t[o - 1]);
      BalanceSnoc(t, o - 1, o - 1);
      assert t[o - 1..o - 1] == [];
      if !(d' <= 0 && t[o - 1] in Ends) {
        ScanBackwardSpec(t, o - 1, d');
        forall j | 0 <= j < o - 1
          ensures EndsBackward(t, o, d, j) == EndsBackward(t, o - 1, d', j)
        {
          BalanceSnoc(t, j, o - 1);
        }
        assert !EndsBackward(t, o, d, o - 1);
        BalanceSnoc(t, 0, o - 1);
        assert t[0..o] == t[..o] && t[0..o - 1] == t[..o - 1];
      }
    }
  }

  /** The backward scan reads nothing at or after `i`. */
  lemma {:induction false} ScanBackwardLeft(a: string, b: string, i: nat, d: int)
    requires i <= |a|
    ensures ScanBackward(a + b, i, d) == ScanBackward(a, i, d)
  {
    if i > 0 {
      assert (a + b)[i - 1] == a[i - 1];
      ScanBackwardLeft(a, b, i - 1, d - Delta(a[i - 1]));
    }
  }

  /**
   * Scanning two chunks glued together backwards is scanning the second and,
   * when it runs out, the whole first one with the carried depth.
   */
  lemma {:induction false} ScanBackwardConcat(a: string, b: string, i: nat, d: int)
    requires i <= |b|
    ensures ScanBackward(a + b, |a| + i, d) ==
      match ScanBackward(b, i, d)
      case Found(k) => Found(|a| + k)
      case Exhausted(e) => ScanBackward(a, |a|, e)
  {
    if i == 0 {
      ScanBackwardLeft(a, b, |a|, d);
    } else {
      assert (a + b)[|a| + i - 1] == b[i - 1];
      ScanBackwardConcat(a, b, i - 1, d - Delta(b[i - 1]));
    }
  }

  // ------------------------------------------------------------ depth

  /** The loop of `getDepth` over `t[..offset]`, read backwards. */
  method DepthBefore(t: string, offset: nat) returns (depth: int)
    requires offset <= |t|
    ensures depth == Balance(t[..offset])
  {
    depth := 0;
    var i := offset - 1;
    while i >= 0
      invariant -1 <= i < offset
      invariant Balance(t[..i + 1]) + depth == Balance(t[..offset])
      decreases i
    {
      var c := t[i];
      assert t[..i + 1][..i] == t[..i];
      if c == OpenQuote { depth := depth + 1; }
      if c == CloseQuote { depth := depth - 1; }
      i := i - 1;
    }
  }

  // ------------------------------------------------------------ chunks

  /** Chunk `n + 1` continues chunk `n`'s paragraph. */
  predicate ContinuesAfter(doc: seq<Chunk>, n: nat)
    requires n < |doc|
  {
    n + 1 < |doc| && doc[n + 1].paragraph == doc[n].paragraph
  }

  /** Chunk `n - 1` is in chunk `n`'s paragraph. */
  predicate ContinuesBefore(doc: seq<Chunk>, n: nat)
    requires n < |doc|
  {
    n > 0 && doc[n - 1].paragraph == doc[n].paragraph
  }

  /** An offset into `t`, or -1 for "the end of `t`". */
  predicate ValidOffset(t: string, offset: int) {
    offset == -1 || 0 <= offset <= |t|
  }

  function Resolve(t: string, offset: int): nat
    requires ValidOffset(t, offset)
  {
    if offset == -1 then |t| else offset
  }

  /**
   * `getSentenceSuffix` with a known depth: the text from `offset` up to and
   * including the first terminator at depth 0, continuing into the next
   * chunk of the same paragraph with the carried depth.
   */
  function Suffix(doc: seq<Chunk>, n: nat, offset: nat, depth: int): string
    requires n < |doc| && offset <= |doc[n].text|
    decreases |doc| - n
  {
    var t := doc[n].text;
    match ScanForward(t, offset, depth)
    case Found(k) => t[offset..k + 1]
    case Exhausted(d) =>
      if ContinuesAfter(doc, n) then t[offset..] + Suffix(doc, n + 1, 0, d)
      else t[offset..]
  }

  /**
   * `getSentencePrefix` with a known depth: the text after the last
   * terminator at depth 0 before `offset`, continuing into the previous
   * chunk of the same paragraph from its end.
   */
  function Prefix(doc: seq<Chunk>, n: nat, offset: int, depth: int): string
    requires n < |doc| && ValidOffset(doc[n].text, offset)
  {
    var t := doc[n].text;
    var o := Resolve(t, offset);
    match ScanBackward(t, o, depth)
    case Found(k) => t[k + 1..o]
    case Exhausted(d) =>
      if ContinuesBefore(doc, n) then Prefix(doc, n - 1, -1, d) + t[..o]
      else t[..o]
  }

  /** `getDepth`: the quote balance before `offset`, plus that of the earlier chunks of the paragraph. */
  function GetDepth(doc: seq<Chunk>, n: nat, offset: int): int
    requires n < |doc| && ValidOffset(doc[n].text, offset)
  {
    var t := doc[n].text;
    var depth := Balance(t[..Resolve(t, offset)]);
    if ContinuesBefore(doc, n) then GetDepth(doc, n - 1, -1) + depth else depth
  }

  /** `getSentenceSuffix(node, offset, depth)`: an absent depth is computed by `getDepth`. */
  function SentenceSuffix(doc: seq<Chunk>, n: nat, offset: nat, depth: Option<int>): string
    requires n < |doc| && offset <= |doc[n].text|
  {
    Suffix(doc, n, offset, if depth.Some? then depth.value else GetDepth(doc, n, offset))
  }

  /** `getSentencePrefix(node, offset, depth)`: an absent depth is computed by `getDepth`. */
  function SentencePrefix(doc: seq<Chunk>, n: nat, offset: int, depth: Option<int>): string
    requires n < |doc| && ValidOffset(doc[n].text, offset)
  {
    Prefix(doc, n, offset, if depth.Some? then depth.value else GetDepth(doc, n, offset))
  }

  // ------------------------------------------------- the paragraph as text

  /** The text of chunk `n` and of the chunks after it in the same paragraph. */
  function ParagraphTail(doc: seq<Chunk>, n: nat): string
    requires n < |doc|
    decreases |doc| - n
  {
    doc[n].text + if ContinuesAfter(doc, n) then ParagraphTail(doc, n + 1) else ""
  }

  /** The text of the chunks before chunk `n` in its paragraph. */
  function ParagraphHead(doc: seq<Chunk>, n: nat): string
    requires n < |doc|
  {
    if ContinuesBefore(doc, n) then ParagraphHead(doc, n - 1) + doc[n - 1].text else ""
  }

  /** The forward scan over one string, as a sentence end. */
  function SuffixOfText(t: string, o: nat, d: int): string
    requires o <= |t|
  {
    match ScanForward(t, o, d)
    case Found(k) => t[o..k + 1]
    case Exhausted(_) => t[o..]
  }

  /** The backward scan over one string, as a sentence start. */
  function PrefixOfText(t: string, o: nat, d: int): string
    requires o <= |t|
  {
    match ScanBackward(t, o, d)
    case Found(k) => t[k + 1..o]
    case Exhausted(_) => t[..o]
  }

  lemma {:induction false} SuffixOfTextSpec(t: string, o: nat, d: int)
    requires o <= |t|
    ensures var s := SuffixOfText(t, o, d);
      s <= t[o..] &&
      forall j :: o <= j < o + |s| - 1 ==> !EndsForward(t, o, d, j)
    ensures var s := SuffixOfText(t, o, d);
      |s| < |t| - o ==> |s| > 0 && EndsForward(t, o, d, o + |s| - 1)
  {
    ScanForwardSpec(t, o, d);
  }

  /**
   * Following a sentence across chunks finds the same end as scanning the
   * paragraph's remaining text in one piece: where chunk boundaries fall
   * does not matter.
   */
  lemma {:induction false} SuffixChunkingInvariant(doc: seq<Chunk>, n: nat, o: nat, d: int)
    requires n < |doc| && o <= |doc[n].text|
    ensures o <= |ParagraphTail(doc, n)|
    ensures Suffix(doc, n, o, d) == SuffixOfText(ParagraphTail(doc, n), o, d)
    decreases |doc| - n
  {
    var t := doc[n].text;
    var rest := if ContinuesAfter(doc, n) then ParagraphTail(doc, n + 1) else "";
    assert ParagraphTail(doc, n) == t + rest;
    ScanForwardConcat(t, rest, o, d);
    var r := ScanForward(t, o, d);
    if r.Found? {
      SuffixOfTextFound(t, rest, o, d);
    } else if ContinuesAfter(doc, n) {
      SuffixChunkingInvariant(doc, n + 1, 0, r.depth);
      assert Suffix(doc, n, o, d) == t[o..] + Suffix(doc, n + 1, 0, r.depth);
      SuffixOfTextExhausted(t, rest, o, d);
    } else {
      assert rest == [] && t + rest == t;
    }
  }

  /** A sentence end found inside the first of two glued strings. */
  lemma {:induction false} SuffixOfTextFound(t: string, rest: string, o: nat, d: int)
    requires o <= |t| && ScanForward(t, o, d).Found?
    ensures SuffixOfText(t + rest, o, d) == SuffixOfText(t, o, d)
  {
    ScanForwardConcat(t, rest, o, d);
    var k := ScanForward(t, o, d).at;
    assert (t + rest)[o..k + 1] == t[o..k + 1];
  }

  /** No sentence end inside the first of two glued strings: the first's rest, then the second's scan. */
  lemma {:induction false} SuffixOfTextExhausted(t: string, rest: string, o: nat, d: int)
    requires o <= |t| && ScanForward(t, o, d).Exhausted?
    ensures SuffixOfText(t + rest, o, d) == t[o..] + SuffixOfText(rest, 0, ScanForward(t, o, d).depth)
  {
    ScanForwardConcat(t, rest, o, d);
    var e := ScanForward(t, o, d).depth;
    var tail := t + rest;
    match ScanForward(rest, 0, e)
    case Found(k) =>
      assert tail[o..|t| + k + 1] == t[o..] + rest[0..k + 1];
    case Exhausted(_) =>
      assert tail[o..] == t[o..] + rest[0..];
  }

  /**
   * Following a sentence back across chunks finds the same start as scanning
   * the paragraph's text up to the offset in one piece.
   */
  lemma {:induction false} PrefixChunkingInvariant(doc: seq<Chunk>, n: nat, offset: int, d: int)
    requires n < |doc| && ValidOffset(doc[n].text, offset)
    ensures var text := HeadText(doc, n, offset);
      Prefix(doc, n, offset, d) == PrefixOfText(text, |text|, d)
  {
    var t := doc[n].text;
    var o := Resolve(t, offset);
    ScanBackwardCut(t, o, d);
    var r := ScanBackward(t[..o], o, d);
    if r.Found? {
      PrefixChunkFound(doc, n, offset, d);
    } else if ContinuesBefore(doc, n) {
      PrefixChunkingInvariant(doc, n - 1, -1, r.depth);
      PrefixChunkContinues(doc, n, offset, d);
    } else {
      PrefixChunkAlone(doc, n, offset, d);
    }
  }

  /** The paragraph's text before the offset in chunk `n`. */
  function HeadText(doc: seq<Chunk>, n: nat, offset: int): string
    requires n < |doc| && ValidOffset(doc[n].text, offset)
  {
    ParagraphHead(doc, n) + doc[n].text[..Resolve(doc[n].text, offset)]
  }

  /** The backward scan from `o` sees only the text before `o`. */
  lemma {:induction false} ScanBackwardCut(t: string, o: nat, d: int)
    requires o <= |t|
    ensures ScanBackward(t, o, d) == ScanBackward(t[..o], o, d)
  {
    ScanBackwardLeft(t[..o], t[o..], o, d);
    assert t[..o] + t[o..] == t;
  }

  /** The sentence start lies in chunk `n` itself. */
  lemma {:induction false} PrefixChunkFound(doc: seq<Chunk>, n: nat, offset: int, d: int)
    requires n < |doc| && ValidOffset(doc[n].text, offset)
    requires var t := doc[n].text; var o := Resolve(t, offset);
      ScanBackward(t[..o], o, d).Found?
    ensures var text := HeadText(doc, n, offset);
      Prefix(doc, n, offset, d) == PrefixOfText(text, |text|, d)
  {
    var t := doc[n].text;
    var o := Resolve(t, offset);
    var b := t[..o];
    ScanBackwardCut(t, o, d);
    PrefixOfTextFound(ParagraphHead(doc, n), b, d);
    var k := ScanBackward(b, |b|, d).at;
    assert t[k + 1..o] == b[k + 1..|b|];
  }

  /** No sentence start in chunk `n`, and the paragraph goes on before it. */
  lemma {:induction false} PrefixChunkContinues(doc: seq<Chunk>, n: nat, offset: int, d: int)
    requires n < |doc| && ValidOffset(doc[n].text, offset) && ContinuesBefore(doc, n)
    requires var t := doc[n].text; var o := Resolve(t, offset);
      var r := ScanBackward(t[..o], o, d);
      && r.Exhausted?
      && var text := HeadText(doc, n - 1, -1);
      Prefix(doc, n - 1, -1, r.depth) == PrefixOfText(text, |text|, r.depth)
    ensures var text := HeadText(doc, n, offset);
      Prefix(doc, n, offset, d) == PrefixOfText(text, |text|, d)
  {
    var t := doc[n].text;
    var o := Resolve(t, offset);
    var b := t[..o];
    var prev := doc[n - 1].text;
    ScanBackwardCut(t, o, d);
    assert HeadText(doc, n - 1, -1) == ParagraphHead(doc, n) by {
      assert prev[..|prev|] == prev;
    }
    assert Prefix(doc, n, offset, d) == Prefix(doc, n - 1, -1, ScanBackward(b, |b|, d).depth) + b;
    PrefixOfTextExhausted(ParagraphHead(doc, n), b, d);
  }

  /** No sentence start in chunk `n`, the first of its paragraph. */
  lemma {:induction false} PrefixChunkAlone(doc: seq<Chunk>, n: nat, offset: int, d: int)
    requires n < |doc| && ValidOffset(doc[n].text, offset) && !ContinuesBefore(doc, n)
    requires var t := doc[n].text; var o := Resolve(t, offset);
      ScanBackward(t[..o], o, d).Exhausted?
    ensures var text := HeadText(doc, n, offset);
      Prefix(doc, n, offset, d) == PrefixOfText(text, |text|, d)
  {
    var t := doc[n].text;
    var o := Resolve(t, offset);
    ScanBackwardCut(t, o, d);
    assert HeadText(doc, n, offset) == t[..o];
    assert t[..o][..o] == t[..o];
  }

  /** A sentence start found inside the second of two glued strings. */
  lemma {:induction false} PrefixOfTextFound(head: string, b: string, d: int)
    requires ScanBackward(b, |b|, d).Found?
    ensures PrefixOfText(head + b, |head + b|, d) == PrefixOfText(b, |b|, d)
  {
    ScanBackwardConcat(head, b, |b|, d);
    var k := ScanBackward(b, |b|, d).at;
    assert (head + b)[|head| + k + 1..|head + b|] == b[k + 1..|b|];
  }

  /** No sentence start inside the second of two glued strings: the first's scan, then the second. */
  lemma {:induction false} PrefixOfTextExhausted(head: string, b: string, d: int)
    requires ScanBackward(b, |b|, d).Exhausted?
    ensures PrefixOfText(head + b, |head + b|, d) ==
      PrefixOfText(head, |head|, ScanBackward(b, |b|, d).depth) + b
  {
    ScanBackwardConcat(head, b, |b|, d);
    var e := ScanBackward(b, |b|, d).depth;
    var text := head + b;
    match ScanBackward(head, |head|, e)
    case Found(k) =>
      assert text[k + 1..|text|] == head[k + 1..|head|] + b;
    case Exhausted(_) =>
      assert text[..|text|] == head[..|head|] + b;
  }

  /** `getDepth` is the quote balance of the paragraph's text before the offset. */
  lemma {:induction false} GetDepthIsBalance(doc: seq<Chunk>, n: nat, offset: int)
    requires n < |doc| && ValidOffset(doc[n].text, offset)
    ensures GetDepth(doc, n, offset) ==
      Balance(ParagraphHead(doc, n) + doc[n].text[..Resolve(doc[n].text, offset)])
  {
    var t := doc[n].text;
    BalanceAppend(ParagraphHead(doc, n), t[..Resolve(t, offset)]);
    if ContinuesBefore(doc, n) {
      var prev := doc[n - 1].text;
      GetDepthIsBalance(doc, n - 1, -1);
      assert prev[..|prev|] == prev;
      BalanceAppend(ParagraphHead(doc, n - 1), prev);
    }
  }

  /**
   * With the depth `getDepth` computes, the backward scan stops at the last
   * terminator before the offset that is not inside an open `「`: the quote
   * balance of the text before it is at most 0.
   */
  lemma {:induction false} SentencePrefixStartsAfterUnquotedTerminator(t: string, o: nat, k: nat)
    requires k < o <= |t|
    ensures EndsBackward(t, o, Balance(t[..o]), k) <==> t[k] in Ends && Balance(t[..k]) <= 0
  {
    assert t[..o] == t[..k] + t[k..o];
    BalanceAppend(t[..k], t[k..o]);
  }

  /**
   * With the depth `getDepth` computes, the forward scan stops at the first
   * terminator at or after the offset that is not inside an open `「`.
   */
  lemma {:induction false} SentenceSuffixEndsAtUnquotedTerminator(t: string, o: nat, k: nat)
    requires o <= k < |t|
    ensures EndsForward(t, o, Balance(t[..o]), k) <==> t[k] in Ends && Balance(t[..k + 1]) <= 0
  {
    assert t[..k + 1] == t[..o] + t[o..k + 1];
    BalanceAppend(t[..o], t[o..k + 1]);
  }

  // ------------------------------------------------------------ selection

  /** A selection: start and end chunk with an offset into each. */
  datatype Range = Range(startChunk: nat, startOffset: nat, endChunk: nat, endOffset: nat)

  predicate ValidRange(doc: seq<Chunk>, r: Range) {
    && r.startChunk <= r.endChunk < |doc|
    && r.startOffset <= |doc[r.startChunk].text|
    && r.endOffset <= |doc[r.endChunk].text|
    && (r.startChunk == r.endChunk ==> r.startOffset <= r.endOffset)
  }

  /** The text of the chunks from `i` up to, not including, `j`. */
  function Between(doc: seq<Chunk>, i: nat, j: nat): string
    requires i <= j <= |doc|
    decreases j - i
  {
    if i == j then "" else doc[i].text + Between(doc, i + 1, j)
  }

  /**
   * `getSelection`: inside one chunk, the text between the two offsets;
   * across chunks, the start chunk from its offset, every chunk strictly
   * between, and the end chunk up to its offset.
   */
  function GetSelection(doc: seq<Chunk>, r: Range): (inside: string)
    requires ValidRange(doc, r)
    ensures r.startChunk == r.endChunk ==>
      inside == doc[r.startChunk].text[r.startOffset..r.endOffset] &&
      |inside| == r.endOffset - r.startOffset
    ensures r.startChunk < r.endChunk ==>
      doc[r.startChunk].text[r.startOffset..] <= inside &&
      |inside| >= |doc[r.startChunk].text| - r.startOffset + r.endOffset &&
      inside[|inside| - r.endOffset..] == doc[r.endChunk].text[..r.endOffset]
  {
    if r.startChunk == r.endChunk then
      doc[r.startChunk].text[r.startOffset..r.endOffset]
    else
      doc[r.startChunk].text[r.startOffset..] + Between(doc, r.startChunk + 1, r.endChunk)
        + doc[r.endChunk].text[..r.endOffset]
  }

  /** The result of `getSentenceAroundSelection`. */
  datatype Around = NoSelection | SentenceAt(sentence: string, index: nat)

  /**
   * `getSentenceAroundSelection` for a selection whose ends lie in text
   * nodes: the sentence start before the selection, the selection, and the
   * sentence end after it, with the index of the selection in the sentence.
   */
  function SentenceAroundSelection(doc: seq<Chunk>, selection: Option<Range>): (a: Around)
    requires selection.Some? ==> ValidRange(doc, selection.value)
    ensures selection.None? <==> a.NoSelection?
  {
    match selection
    case None => NoSelection
    case Some(r) =>
      var inside := GetSelection(doc, r);
      var after := SentenceSuffix(doc, r.endChunk, r.endOffset, None);
      var before := SentencePrefix(doc, r.startChunk, r.startOffset, None);
      SentenceAt(before + inside + after, |before|)
  }

  /**
   * The sentence holds the selection at its index, preceded by the sentence
   * start found from the selection's beginning and followed by the sentence
   * end found from its end; both scans see the paragraph as one text and
   * start at the quote depth of the paragraph before their offset.
   */
  lemma {:induction false} SentenceAroundSelectionSpec(doc: seq<Chunk>, r: Range)
    requires ValidRange(doc, r)
    ensures var a := SentenceAroundSelection(doc, Some(r));
      var inside := GetSelection(doc, r);
      var s := doc[r.startChunk].text;
      var e := doc[r.endChunk].text;
      var headText := ParagraphHead(doc, r.startChunk) + s[..r.startOffset];
      var tailText := ParagraphTail(doc, r.endChunk);
      var endDepth := Balance(ParagraphHead(doc, r.endChunk) + e[..r.endOffset]);
      && a.SentenceAt?
      && a.index + |inside| <= |a.sentence|
      && a.sentence[a.index..a.index + |inside|] == inside
      && a.sentence[..a.index] == PrefixOfText(headText, |headText|, Balance(headText))
      && r.endOffset <= |tailText|
      && a.sentence[a.index + |inside|..] == SuffixOfText(tailText, r.endOffset, endDepth)
  {
    var s := doc[r.startChunk].text;
    var e := doc[r.endChunk].text;
    var inside := GetSelection(doc, r);
    var after := SentenceSuffix(doc, r.endChunk, r.endOffset, None);
    var before := SentencePrefix(doc, r.startChunk, r.startOffset, None);
    var sentence := before + inside + after;
    assert sentence[..|before|] == before;
    assert sentence[|before|..|before| + |inside|] == inside;
    assert sentence[|before| + |inside|..] == after;
    GetDepthIsBalance(doc, r.startChunk, r.startOffset);
    GetDepthIsBalance(doc, r.endChunk, r.endOffset);
    PrefixChunkingInvariant(doc, r.startChunk, r.startOffset, GetDepth(doc, r.startChunk, r.startOffset));
    assert HeadText(doc, r.startChunk, r.startOffset) == ParagraphHead(doc, r.startChunk) + s[..r.startOffset];
    SuffixChunkingInvariant(doc, r.endChunk, r.endOffset, GetDepth(doc, r.endChunk, r.endOffset));
  }
}
