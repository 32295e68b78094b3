/**
 * The string logic of content.js: the selection guard, the simple sentence
 * splitter (with the semantics of `String.prototype.split` on the two
 * regular expressions it uses), the keys under which explanations are
 * cached and the listing of cached words for a sentence, and the recency
 * list update of `cacheJishoResult`, which runs against the storage object
 * of helpers.js.
 */
module Content {
  import opened Wrappers
  import opened StorageKeys
  import opened CacheModel
  import opened Helpers
  import SentenceTools

  // ------------------------------------------------------------ trim

  /** The characters `String.prototype.trim` removes: white space and line terminators. */
  predicate IsSpace(c: char) {
    || c == '\t' || c == '\n' || c == '\U{000B}' || c == '\U{000C}' || c == '\r'
    || c == ' ' || c == '\U{00A0}' || c == '\U{1680}'
    || ('\U{2000}' <= c <= '\U{200A}')
    || c == '\U{2028}' || c == '\U{2029}' || c == '\U{202F}' || c == '\U{205F}'
    || c == '\U{3000}' || c == '\U{FEFF}'
  }

  predicate AllSpace(s: string) {
    forall i :: 0 <= i < |s| ==> IsSpace(s[i])
  }

  function TrimStart(s: string): (r: string)
    ensures |r| <= |s| && r == s[|s| - |r|..]
  {
    if s != [] && IsSpace(s[0]) then TrimStart(s[1..]) else s
  }

  function TrimEnd(s: string): (r: string)
    ensures |r| <= |s| && r == s[..|r|]
  {
    if s != [] && IsSpace(s[|s| - 1]) then TrimEnd(s[..|s| - 1]) else s
  }

  /** `String.prototype.trim`. */
  function TrimText(s: string): string {
    TrimEnd(TrimStart(s))
  }

  lemma {:induction false} TrimStartSpec(s: string)
    ensures var r := TrimStart(s);
      |r| <= |s| && r == s[|s| - |r|..] && AllSpace(s[..|s| - |r|]) &&
      (r == [] || !IsSpace(r[0]))
  {
    if s != [] && IsSpace(s[0]) {
      TrimStartSpec(s[1..]);
      var r := TrimStart(s[1..]);
      assert s[1..][|s| - 1 - |r|..] == s[|s| - |r|..];
      assert forall i :: 1 <= i < |s| - |r| ==> s[i] == s[1..][..|s| - 1 - |r|][i - 1];
    }
  }

  lemma {:induction false} TrimEndSpec(s: string)
    ensures var r := TrimEnd(s);
      |r| <= |s| && r == s[..|r|] && AllSpace(s[|r|..]) &&
      (r == [] || !IsSpace(r[|r| - 1]))
  {
    if s != [] && IsSpace(s[|s| - 1]) {
      TrimEndSpec(s[..|s| - 1]);
      var r := TrimEnd(s[..|s| - 1]);
      assert forall i :: |r| <= i < |s| - 1 ==> s[i] == s[..|s| - 1][|r|..][i - |r|];
    }
  }

  /**
   * The trimmed text is a piece of the original with only white space cut
   * off either side, and it neither starts nor ends with white space.
   */
  lemma {:induction false} TrimSpec(s: string)
    ensures var r := TrimText(s);
      var i := |s| - |TrimStart(s)|;
      && i + |r| <= |s| && r == s[i..i + |r|]
      && AllSpace(s[..i]) && AllSpace(s[i + |r|..])
      && (r == [] || (!IsSpace(r[0]) && !IsSpace(r[|r| - 1])))
  {
    TrimPiece(s);
    TrimSides(s);
    TrimEdges(s);
  }

  lemma {:induction false} TrimPiece(s: string)
    ensures var r := TrimText(s);
      var i := |s| - |TrimStart(s)|;
      i + |r| <= |s| && r == s[i..i + |r|]
  {
    var m := TrimStart(s);
    var r := TrimText(s);
    var i := |s| - |m|;
    assert r == m[..|r|];
  }

  lemma {:induction false} TrimSides(s: string)
    ensures var r := TrimText(s);
      var i := |s| - |TrimStart(s)|;
      i + |r| <= |s| && AllSpace(s[..i]) && AllSpace(s[i + |r|..])
  {
    var m := TrimStart(s);
    TrimStartSpec(s);
    TrimEndSpec(m);
    var r := TrimText(s);
    var i := |s| - |m|;
    assert m[|r|..] == s[i + |r|..];
  }

  lemma {:induction false} TrimEdges(s: string)
    ensures var r := TrimText(s);
      r == [] || (!IsSpace(r[0]) && !IsSpace(r[|r| - 1]))
  {
    var m := TrimStart(s);
    TrimStartHead(s);
    TrimEndLast(m);
    var r := TrimText(s);
    if r != [] {
      assert r[0] == m[0];
    }
  }

  /** What `TrimStart` leaves does not start with white space. */
  lemma {:induction false} TrimStartHead(s: string)
    ensures TrimStart(s) == [] || !IsSpace(TrimStart(s)[0])
  {
    if s != [] && IsSpace(s[0]) {
      TrimStartHead(s[1..]);
    }
  }

  /** What `TrimEnd` leaves does not end with white space. */
  lemma {:induction false} TrimEndLast(s: string)
    ensures var r := TrimEnd(s); r == [] || !IsSpace(r[|r| - 1])
  {
    if s != [] && IsSpace(s[|s| - 1]) {
      TrimEndLast(s[..|s| - 1]);
    }
  }

  lemma {:induction false} TrimEndOfTrimmed(s: string)
    requires s == [] || !IsSpace(s[|s| - 1])
    ensures TrimEnd(s) == s
  {
  }

  lemma {:induction false} TrimStartOfTrimmed(s: string)
    requires s == [] || !IsSpace(s[0])
    ensures TrimStart(s) == s
  {
  }

  /** Trimming twice is trimming once. */
  lemma {:induction false} TrimIdempotent(s: string)
    ensures TrimText(TrimText(s)) == TrimText(s)
  {
    var r := TrimText(s);
    TrimSpec(s);
    TrimStartOfTrimmed(r);
    TrimEndSpec(r);
    if r != [] {
      assert !IsSpace(r[|r| - 1]);
    }
  }

  /** White space around a selection does not change its trimmed text. */
  lemma {:induction false} TrimIgnoresSurroundingSpace(pre: string, s: string, post: string)
    requires AllSpace(pre) && AllSpace(post)
    ensures TrimText(pre + s + post) == TrimText(s)
  {
    assert pre + s + post == pre + (s + post);
    TrimStartAppend(pre, s + post);
    TrimStartSpaceSuffix(s, post);
    if TrimStart(s + post) == TrimStart(s) + post {
      TrimEndAppend(TrimStart(s), post);
    } else {
      assert TrimStart(s) == [] && TrimStart(s + post) == [];
    }
  }

  lemma {:induction false} TrimStartAppend(pre: string, s: string)
    requires AllSpace(pre)
    ensures TrimStart(pre + s) == TrimStart(s)
    decreases |pre|
  {
    if pre != [] {
      assert (pre + s)[1..] == pre[1..] + s;
      TrimStartAppend(pre[1..], s);
    } else {
      assert pre + s == s;
    }
  }

  /** Trailing white space survives `TrimStart` unless everything is white space. */
  lemma {:induction false} TrimStartSpaceSuffix(s: string, post: string)
    requires AllSpace(post)
    ensures TrimStart(s + post) == TrimStart(s) + post || (TrimStart(s) == [] && TrimStart(s + post) == [])
    decreases |s|
  {
    if s == [] {
      assert s + post == post;
      AllSpaceTrims(post);
    } else if IsSpace(s[0]) {
      assert (s + post)[1..] == s[1..] + post;
      TrimStartSpaceSuffix(s[1..], post);
    }
  }

  lemma {:induction false} AllSpaceTrims(s: string)
    requires AllSpace(s)
    ensures TrimStart(s) == [] && TrimEnd(s) == []
    decreases |s|
  {
    if s != [] {
      AllSpaceTrims(s[1..]);
      AllSpaceTrims(s[..|s| - 1]);
    }
  }

  lemma {:induction false} TrimEndAppend(s: string, post: string)
    requires AllSpace(post)
    ensures TrimEnd(s + post) == TrimEnd(s)
    decreases |post|
  {
    if post == [] {
      assert s + post == s;
    } else {
      assert (s + post)[..|s + post| - 1] == s + post[..|post| - 1];
      TrimEndAppend(s, post[..|post| - 1]);
    }
  }

  // ------------------------------------------------------------ the guard

  /** The longest selection the panel looks up. */
  const MaxSelection: nat := 20

  /**
   * `handleTextSelection` and `updateJishoPanel`: the trimmed selection is
   * looked up only when it is non-empty and at most 20 characters long; the
   * dictionary entry is cached under `jisho_cache_` followed by it.
   */
  function LookupKey(selected: string): (key: Option<string>)
    ensures key.Some? <==> 1 <= |TrimText(selected)| <= MaxSelection
    ensures key.Some? ==> IsTracked(key.value) && |key.value| <= |TrackedPrefix| + MaxSelection
  {
    var word := TrimText(selected);
    if word == [] || |word| > MaxSelection then None else Some(JishoKey(word))
  }

  /** `jisho_cache_${word}`. */
  function JishoKey(word: string): (key: string)
    ensures IsTracked(key) && key[|TrackedPrefix|..] == word
  {
    TrackedPrefix + word
  }

  /** Different words get different cache keys. */
  lemma {:induction false} JishoKeyInjective(a: string, b: string)
    requires JishoKey(a) == JishoKey(b)
    ensures a == b
  {
    assert a == JishoKey(a)[|TrackedPrefix|..];
  }

  /** Surrounding white space does not change whether, or under which key, a selection is looked up. */
  lemma {:induction false} LookupIgnoresSurroundingSpace(pre: string, s: string, post: string)
    requires AllSpace(pre) && AllSpace(post)
    ensures LookupKey(pre + s + post) == LookupKey(s)
  {
    TrimIgnoresSurroundingSpace(pre, s, post);
  }

  /** Selecting the word "list" passes the guard and names the reserved list key (see README, Findings). */
  lemma {:induction false} WordListReachesReservedKey()
    ensures LookupKey("list") == Some(ListKey)
  {
    var w := "list";
    assert w[0] == 'l' && w[|w| - 1] == 't';
    TrimStartOfTrimmed(w);
    TrimEndOfTrimmed(w);
    assert TrackedPrefix + w == ListKey;
  }

  // ------------------------------------------------------------ JavaScript split

  /**
   * `s.split(/[seps]/)` for a character class, from position `q` with the
   * current piece starting at `p`: every separator ends a piece and is
   * dropped; the rest after the last separator is the last piece.
   */
  function SplitOn(s: string, seps: string, p: nat, q: nat): (pieces: seq<string>)
    requires p <= q <= |s|
    ensures |pieces| >= 1
    decreases |s| - q
  {
    if q >= |s| then [s[p..]]
    else if s[q] in seps then [s[p..q]] + SplitOn(s, seps, q + 1, q + 1)
    else SplitOn(s, seps, p, q + 1)
  }

  /**
   * `s.split(/(?<=[。！？\.\!\?])/)`: a zero-width cut after every
   * terminator, except at the start and the end of the string and at the
   * position where the current piece starts.
   */
  function SplitAfter(s: string, p: nat, q: nat): (pieces: seq<string>)
    requires p <= q <= |s|
    ensures |pieces| >= 1
    decreases |s| - q, q - p
  {
    if q >= |s| then [s[p..]]
    else if q > p && s[q - 1] in SentenceTools.Ends then [s[p..q]] + SplitAfter(s, q, q)
    else SplitAfter(s, p, q + 1)
  }

  /** `s.slice(0, b)` for `b >= 0`. */
  function SliceTo(s: string, b: nat): string {
    if b <= |s| then s[..b] else s
  }

  /** `s.slice(a)` for `a >= 0`. */
  function SliceFrom(s: string, a: nat): string {
    if a <= |s| then s[a..] else []
  }

  /** `s.slice(0, -1)`. */
  function DropLast(s: string): string {
    if s == [] then [] else s[..|s| - 1]
  }

  function Last(pieces: seq<string>): string
    requires |pieces| >= 1
  {
    pieces[|pieces| - 1]
  }

  // ------------------------------------------------------------ reference scans

  /** One past the last terminator before position `i`, or 0. */
  function SentenceStart(t: string, i: nat): (start: nat)
    requires i <= |t|
    ensures start <= i
  {
    if i == 0 then 0 else if t[i - 1] in SentenceTools.Ends then i else SentenceStart(t, i - 1)
  }

  /** The first terminator at or after position `i`, or the end of `t`. */
  function SentenceEnd(t: string, i: nat): (end: nat)
    requires i <= |t|
    ensures i <= end <= |t|
    decreases |t| - i
  {
    if i == |t| then |t| else if t[i] in SentenceTools.Ends then i else SentenceEnd(t, i + 1)
  }

  predicate NoEnds(s: string) {
    forall i :: 0 <= i < |s| ==> s[i] !in SentenceTools.Ends
  }

  /** No terminator in `t[a..b]`, stated on positions of `t`. */
  predicate NoEndsBetween(t: string, a: nat, b: nat)
    requires a <= b <= |t|
  {
    forall j :: a <= j < b ==> t[j] !in SentenceTools.Ends
  }

  lemma {:induction false} NoEndsSlice(t: string, a: nat, b: nat)
    requires a <= b <= |t| && NoEndsBetween(t, a, b)
    ensures NoEnds(t[a..b])
  {
    assert forall j :: 0 <= j < b - a ==> t[a..b][j] == t[a + j];
  }

  lemma {:induction false} SentenceStartSpec(t: string, i: nat)
    requires i <= |t|
    ensures var st := SentenceStart(t, i);
      (st > 0 ==> t[st - 1] in SentenceTools.Ends) && NoEndsBetween(t, st, i)
  {
    if i > 0 && t[i - 1] !in SentenceTools.Ends {
      SentenceStartSpec(t, i - 1);
    }
  }

  lemma {:induction false} SentenceEndSpec(t: string, i: nat)
    requires i <= |t|
    ensures var e := SentenceEnd(t, i);
      (e < |t| ==> t[e] in SentenceTools.Ends) && NoEndsBetween(t, i, e)
    decreases |t| - i
  {
    if i < |t| && t[i] !in SentenceTools.Ends {
      SentenceEndSpec(t, i + 1);
    }
  }

  /** `SentenceStart` reads nothing at or after `i`. */
  lemma {:induction false} SentenceStartPrefix(t: string, m: nat, i: nat)
    requires i <= m <= |t|
    ensures SentenceStart(t[..m], i) == SentenceStart(t, i)
  {
    if i > 0 {
      SentenceStartPrefix(t, m, i - 1);
    }
  }

  /** `SentenceEnd` over a suffix, counted from the suffix's start. */
  lemma {:induction false} SentenceEndSuffix(t: string, a: nat, i: nat)
    requires a <= i <= |t|
    ensures SentenceEnd(t[a..], i - a) == SentenceEnd(t, i) - a
    decreases |t| - i
  {
    if i < |t| {
      SentenceEndSuffix(t, a, i + 1);
    }
  }

  /** A cut at `c` lies at or before the last one. */
  lemma {:induction false} SentenceStartIsLast(t: string, i: nat, c: nat)
    requires 1 <= c <= i <= |t| && t[c - 1] in SentenceTools.Ends
    ensures c <= SentenceStart(t, i)
  {
    if t[i - 1] !in SentenceTools.Ends {
      SentenceStartIsLast(t, i - 1, c);
    }
  }

  /** The last piece of the lookbehind split starts after the last cut at or after `q`, else at `p`. */
  lemma {:induction false} SplitAfterLast(s: string, p: nat, q: nat)
    requires p <= q <= |s| && |s| >= 1
    ensures Last(SplitAfter(s, p, q)) ==
      s[if SentenceStart(s, |s| - 1) >= q then SentenceStart(s, |s| - 1) else p..]
    decreases |s| - q, q - p
  {
    var c := SentenceStart(s, |s| - 1);
    if q >= |s| {
    } else if q > p && s[q - 1] in SentenceTools.Ends {
      SentenceStartIsLast(s, |s| - 1, q);
      SplitAfterLast(s, q, q);
    } else {
      SplitAfterLast(s, p, q + 1);
      if c == q && q > 0 {
        SentenceStartSpec(s, |s| - 1);
      }
    }
  }

  /** The first piece of the split on terminators ends at the first terminator. */
  lemma {:induction false} SplitOnFirst(s: string, p: nat, q: nat)
    requires p <= q <= |s|
    ensures SplitOn(s, SentenceTools.Ends, p, q)[0] == s[p..SentenceEnd(s, q)]
    decreases |s| - q
  {
    if q < |s| && s[q] !in SentenceTools.Ends {
      SplitOnFirst(s, p, q + 1);
    }
  }

  // ------------------------------------------------------------ simple splitter

  /** What the selection looks like to content.js's `getSentenceAroundSelection`. */
  datatype Selection =
    | NoRange
    | SameTextNode(text: string, index: nat)
    | OtherNodes

  /** `""` without a range, nothing (`undefined`) across nodes, else the sentence and the selection's index in it. */
  datatype SplitResult = EmptyText | NoResult | Sentence(sentence: string, index: nat)

  /** `text.slice(0, index + 1).split(/(?<=[…])/).pop().slice(0, -1) || ""`. */
  function Before(text: string, index: nat): string {
    var head := SliceTo(text, index + 1);
    DropLast(Last(SplitAfter(head, 0, 0)))
  }

  /** `text.slice(index).split(/[…]/)[0] || ""`. */
  function After(text: string, index: nat): string {
    var tail := SliceFrom(text, index);
    SplitOn(tail, SentenceTools.Ends, 0, 0)[0]
  }

  /** content.js `getSentenceAroundSelection`: the simple splitter for a selection inside one text node. */
  function SimpleSentence(selection: Selection): (r: SplitResult)
    ensures selection.NoRange? <==> r.EmptyText?
    ensures selection.OtherNodes? <==> r.NoResult?
  {
    match selection
    case NoRange => EmptyText
    case OtherNodes => NoResult
    case SameTextNode(text, index) =>
      var before := Before(text, index);
      Sentence(before + After(text, index), |before|)
  }

  /**
   * `before` is the text after the last terminator strictly before the
   * index, up to the index; at the very end of the text the final character
   * is dropped as well. It holds no terminator.
   */
  lemma {:induction false} BeforeSpec(text: string, index: nat)
    requires index <= |text|
    ensures index < |text| ==> Before(text, index) == text[SentenceStart(text, index)..index]
    ensures index == |text| && text != [] ==>
      Before(text, index) == text[SentenceStart(text, index - 1)..index - 1]
    ensures text == [] ==> Before(text, index) == []
    ensures NoEnds(Before(text, index))
  {
    var head := SliceTo(text, index + 1);
    if text != [] {
      SplitAfterLast(head, 0, 0);
      var m := |head| - 1;
      SentenceStartPrefix(text, |head|, m);
      SentenceStartSpec(text, m);
      assert head == text[..|head|];
      var st := SentenceStart(text, m);
      assert Last(SplitAfter(head, 0, 0)) == text[st..|head|];
      assert Before(text, index) == text[st..m];
      NoEndsSlice(text, st, m);
    }
  }

  /** `after` runs from the index up to, not including, the first terminator at or after it. */
  lemma {:induction false} AfterSpec(text: string, index: nat)
    requires index <= |text|
    ensures After(text, index) == text[index..SentenceEnd(text, index)]
    ensures NoEnds(After(text, index))
  {
    var tail := text[index..];
    SplitOnFirst(tail, 0, 0);
    SentenceEndSuffix(text, index, index);
    SentenceEndSpec(text, index);
    assert tail[0..SentenceEnd(tail, 0)] == text[index..SentenceEnd(text, index)];
    NoEndsSlice(text, index, SentenceEnd(text, index));
  }

  /**
   * Inside a text, the sentence is the stretch between the terminator before
   * the selection's start (exclusive) and the first one from it on
   * (exclusive), and the index is the selection's position in it.
   */
  lemma {:induction false} SimpleSentenceSpec(text: string, index: nat)
    requires index < |text|
    ensures var r := SimpleSentence(SameTextNode(text, index));
      var start := SentenceStart(text, index);
      && r == Sentence(text[start..SentenceEnd(text, index)], index - start)
      && NoEnds(r.sentence)
      && r.sentence[r.index..] == text[index..SentenceEnd(text, index)]
  {
    BeforeSpec(text, index);
    AfterSpec(text, index);
    var start := SentenceStart(text, index);
    var end := SentenceEnd(text, index);
    var before := Before(text, index);
    var after := After(text, index);
    assert before == text[start..index];
    assert after == text[index..end];
    assert SimpleSentence(SameTextNode(text, index)) == Sentence(before + after, |before|);
    assert before + after == text[start..end];
    SentenceStartSpec(text, index);
    SentenceEndSpec(text, index);
    assert NoEndsBetween(text, start, end);
    NoEndsSlice(text, start, end);
    assert (before + after)[|before|..] == after;
  }

  // ------------------------------------------------------------ explain keys

  const WordKeyTag: string := "explain_word"
  const SentenceKeyTag: string := "explain_sentence"
  const Bar: char := '|'

  predicate NoBar(s: string) {
    Bar !in s
  }

  function DigitChar(d: nat): char
    requires d < 10
  {
    "0123456789"[d]
  }

  /** The decimal digits of `n`, as a template literal prints a number. */
  function NatToString(n: nat): (s: string)
    ensures |s| >= 1 && forall i :: 0 <= i < |s| ==> '0' <= s[i] <= '9'
  {
    if n < 10 then [DigitChar(n)] else NatToString(n / 10) + [DigitChar(n % 10)]
  }

  /** `explain_word|${sentence}|${marked}|${index}`. */
  function WordKey(sentence: string, marked: string, index: nat): string {
    WordKeyTag + [Bar] + sentence + [Bar] + marked + [Bar] + NatToString(index)
  }

  /** `explain_sentence|${sentence}`. */
  function SentenceKey(sentence: string): string {
    SentenceKeyTag + [Bar] + sentence
  }

  /** Explanation keys lack the tracked prefix, so the recency cache never lists or evicts them. */
  lemma {:induction false} ExplainKeysUntracked(sentence: string, marked: string, index: nat)
    ensures !IsTracked(WordKey(sentence, marked, index)) && !IsTracked(SentenceKey(sentence))
    ensures WordKey(sentence, marked, index) != ListKey && SentenceKey(sentence) != ListKey
  {
    assert WordKey(sentence, marked, index)[0] == 'e';
    assert SentenceKey(sentence)[0] == 'e';
    assert TrackedPrefix[0] == 'j' && ListKey[0] == 'j';
  }

  /** The digits at the start of `s`. */
  function LeadingDigits(s: string): (d: string)
    ensures d <= s && forall i :: 0 <= i < |d| ==> '0' <= d[i] <= '9'
  {
    if s != [] && '0' <= s[0] <= '9' then [s[0]] + LeadingDigits(s[1..]) else []
  }

  function DigitsValue(s: string): nat
    requires forall i :: 0 <= i < |s| ==> '0' <= s[i] <= '9'
  {
    if s == [] then 0 else DigitsValue(s[..|s| - 1]) * 10 + (s[|s| - 1] as int - '0' as int)
  }

  predicate IsHexDigit(c: char) {
    '0' <= c <= '9' || 'a' <= c <= 'f' || 'A' <= c <= 'F'
  }

  function HexDigitValue(c: char): nat
    requires IsHexDigit(c)
  {
    if '0' <= c <= '9' then c as int - '0' as int
    else if 'a' <= c <= 'f' then c as int - 'a' as int + 10
    else c as int - 'A' as int + 10
  }

  /** The hexadecimal digits at the start of `s`. */
  function LeadingHexDigits(s: string): (d: string)
    ensures d <= s && forall i :: 0 <= i < |d| ==> IsHexDigit(d[i])
  {
    if s != [] && IsHexDigit(s[0]) then [s[0]] + LeadingHexDigits(s[1..]) else []
  }

  function HexValue(s: string): nat
    requires forall i :: 0 <= i < |s| ==> IsHexDigit(s[i])
  {
    if s == [] then 0 else HexValue(s[..|s| - 1]) * 16 + HexDigitValue(s[|s| - 1])
  }

  /** `s` starts with `0x` or `0X`. */
  predicate HexPrefixed(s: string) {
    |s| >= 2 && s[0] == '0' && (s[1] == 'x' || s[1] == 'X')
  }

  /**
   * `parseInt(s)` with no radix: leading white space skipped, an optional
   * sign, a `0x`/`0X` prefix switching to base 16, then the longest run of
   * digits of the base; `NaN` (here `None`) when that run is empty.
   */
  function ParseInt(s: string): Option<int> {
    var t := TrimStart(s);
    var negative := t != [] && t[0] == '-';
    var u := if t != [] && (t[0] == '-' || t[0] == '+') then t[1..] else t;
    var hex := HexPrefixed(u);
    var d := if hex then LeadingHexDigits(u[2..]) else LeadingDigits(u);
    if d == [] then None
    else
      var v := if hex then HexValue(d) else DigitsValue(d);
      Some(if negative then -v else v)
  }

  /** A field of `k.split("|")` that the destructuring `[, , word, index]` may find missing. */
  datatype Decoded = Decoded(word: Option<string>, index: Option<int>)

  /** `const [, , word, index] = k.split("|")` followed by `parseInt(index)`. */
  function DecodeWordKey(k: string): Decoded {
    var fields := SplitOn(k, [Bar], 0, 0);
    Decoded(
      if |fields| > 2 then Some(fields[2]) else None,
      if |fields| > 3 then ParseInt(fields[3]) else None)
  }

  lemma {:induction false} DigitCharValue(d: nat)
    requires d < 10
    ensures DigitChar(d) as int - '0' as int == d
  {
  }

  lemma {:induction false} LeadingDigitsAll(s: string)
    requires forall i :: 0 <= i < |s| ==> '0' <= s[i] <= '9'
    ensures LeadingDigits(s) == s
  {
    if s != [] {
      LeadingDigitsAll(s[1..]);
    }
  }

  /** Parsing the printed index gives the index back. */
  lemma {:induction false} ParseNatToString(n: nat)
    ensures ParseInt(NatToString(n)) == Some(n)
  {
    var s := NatToString(n);
    assert '0' <= s[0] <= '9';
    assert !HexPrefixed(s) by {
      if |s| >= 2 { assert '0' <= s[1] <= '9'; }
    }
    ParseIntDecimal(s);
    LeadingDigitsAll(s);
    DigitsOfNat(n);
  }

  lemma {:induction false} DigitsOfNat(n: nat)
    ensures DigitsValue(NatToString(n)) == n
  {
    if n < 10 {
      DigitCharValue(n);
      assert NatToString(n)[..0] == [];
    } else {
      var s := NatToString(n);
      DigitsOfNat(n / 10);
      DigitCharValue(n % 10);
      assert s[..|s| - 1] == NatToString(n / 10);
    }
  }

  /** Splitting skips a piece without separators. */
  lemma {:induction false} SplitOnSkip(s: string, seps: string, p: nat, q: nat, r: nat)
    requires p <= q <= r <= |s|
    requires forall i :: q <= i < r ==> s[i] !in seps
    ensures SplitOn(s, seps, p, q) == SplitOn(s, seps, p, r)
    decreases r - q
  {
    if q < r {
      SplitOnSkip(s, seps, p, q + 1, r);
    }
  }

  /** Splitting a suffix is splitting the whole from the suffix's start. */
  lemma {:induction false} SplitOnShift(pre: string, s: string, seps: string, p: nat, q: nat)
    requires p <= q <= |s|
    ensures SplitOn(pre + s, seps, |pre| + p, |pre| + q) == SplitOn(s, seps, p, q)
    decreases |s| - q
  {
    var x := pre + s;
    assert x[|pre| + p..|pre| + q] == s[p..q];
    if q < |s| {
      assert x[|pre| + q] == s[q];
      if s[q] in seps {
        SplitOnShift(pre, s, seps, q + 1, q + 1);
      } else {
        SplitOnShift(pre, s, seps, p, q + 1);
      }
    } else {
      assert x[|pre| + p..] == s[p..];
    }
  }

  /** A field without separators followed by a separator is the first piece. */
  lemma {:induction false} SplitOnField(a: string, sep: char, rest: string)
    requires sep !in a
    ensures SplitOn(a + [sep] + rest, [sep], 0, 0) == [a] + SplitOn(rest, [sep], 0, 0)
  {
    var s := a + [sep] + rest;
    SplitOnSkip(s, [sep], 0, 0, |a|);
    assert s[|a|] == sep && s[0..|a|] == a;
    assert s == (a + [sep]) + rest;
    SplitOnShift(a + [sep], rest, [sep], 0, 0);
  }

  lemma {:induction false} SplitOnWhole(a: string, sep: char)
    requires sep !in a
    ensures SplitOn(a, [sep], 0, 0) == [a]
  {
    SplitOnSkip(a, [sep], 0, 0, |a|);
    assert a[0..] == a;
  }

  /** The four fields of a word key whose sentence and word hold no `|`. */
  lemma {:induction false} WordKeyFields(sentence: string, marked: string, index: nat)
    requires NoBar(sentence) && NoBar(marked)
    ensures SplitOn(WordKey(sentence, marked, index), [Bar], 0, 0) ==
      [WordKeyTag, sentence, marked, NatToString(index)]
  {
    var digits := NatToString(index);
    assert Bar !in digits;
    assert Bar !in WordKeyTag;
    assert WordKey(sentence, marked, index) == WordKeyTag + [Bar] + (sentence + [Bar] + (marked + [Bar] + digits));
    SplitOnField(WordKeyTag, Bar, sentence + [Bar] + (marked + [Bar] + digits));
    SplitOnField(sentence, Bar, marked + [Bar] + digits);
    SplitOnField(marked, Bar, digits);
    SplitOnWhole(digits, Bar);
  }

  /** Decoding a word key gives back the word and the index, when neither sentence nor word holds a `|`. */
  lemma {:induction false} DecodeWordKeyRoundTrip(sentence: string, marked: string, index: nat)
    requires NoBar(sentence) && NoBar(marked)
    ensures DecodeWordKey(WordKey(sentence, marked, index)) == Decoded(Some(marked), Some(index))
  {
    WordKeyFields(sentence, marked, index);
    ParseNatToString(index);
  }

  /**
   * A `|` in the selected word shifts the fields: the decoded word is the
   * part before the `|`, and the index is `parseInt` of the part after it.
   */
  lemma {:induction false} BarInWordShiftsFields(sentence: string, a: string, b: string, index: nat)
    requires NoBar(sentence) && NoBar(a) && NoBar(b)
    ensures DecodeWordKey(WordKey(sentence, a + [Bar] + b, index)) == Decoded(Some(a), ParseInt(b))
  {
    var digits := NatToString(index);
    assert Bar !in digits;
    assert Bar !in WordKeyTag;
    assert WordKey(sentence, a + [Bar] + b, index) ==
      WordKeyTag + [Bar] + (sentence + [Bar] + (a + [Bar] + (b + [Bar] + digits)));
    SplitOnField(WordKeyTag, Bar, sentence + [Bar] + (a + [Bar] + (b + [Bar] + digits)));
    SplitOnField(sentence, Bar, a + [Bar] + (b + [Bar] + digits));
    SplitOnField(a, Bar, b + [Bar] + digits);
    SplitOnField(b, Bar, digits);
  }

  /** `parseInt` of a text that starts with a decimal digit and no `0x`: the value of its leading digits. */
  lemma {:induction false} ParseIntDecimal(s: string)
    requires s != [] && '0' <= s[0] <= '9' && !HexPrefixed(s)
    ensures ParseInt(s) == Some(DigitsValue(LeadingDigits(s)))
  {
    assert !IsSpace(s[0]);
    TrimStartOfTrimmed(s);
    assert s[0] != '-' && s[0] != '+';
    var d := LeadingDigits(s);
    assert d != [] by {
      assert d == [s[0]] + LeadingDigits(s[1..]);
    }
  }

  /** `parseInt` of a text that starts with neither white space, a sign nor a digit is `NaN`. */
  lemma {:induction false} ParseIntNoDigit(s: string)
    requires s != [] && !IsSpace(s[0]) && s[0] != '-' && s[0] != '+' && !('0' <= s[0] <= '9')
    ensures ParseInt(s) == None
  {
    TrimStartOfTrimmed(s);
  }

  /** The word `a|b` shifts the fields: the word is cut to `a` and the index, `parseInt("b")`, is `NaN`. */
  lemma {:induction false} BarInWordBreaksDecode()
    ensures DecodeWordKey(WordKey("s", "a|b", 1)) == Decoded(Some("a"), None)
  {
    assert "a|b" == "a" + [Bar] + "b";
    BarInWordShiftsFields("s", "a", "b", 1);
    assert "b"[0] == 'b';
    ParseIntNoDigit("b");
  }

  /**
   * With no radix, `parseInt` reads a field that starts with `0x` in base
   * 16: a word `a|0x1f` makes the decoded index 31.
   */
  lemma {:induction false} BarInWordReadsHexIndex()
    ensures DecodeWordKey(WordKey("s", "a|0x1f", 1)) == Decoded(Some("a"), Some(31))
  {
    assert "a|0x1f" == "a" + [Bar] + "0x1f";
    BarInWordShiftsFields("s", "a", "0x1f", 1);
    ParseIntHex();
  }

  /** `parseInt("0x1f")` is 31. */
  lemma {:induction false} ParseIntHex()
    ensures ParseInt("0x1f") == Some(31)
  {
    var f := "0x1f";
    assert f[0] == '0' && f[1] == 'x' && f[2..] == "1f";
    TrimStartOfTrimmed(f);
    assert LeadingHexDigits("1f") == "1f" by {
      assert "1f"[1..] == "f" && "f"[1..] == [];
    }
    assert HexValue("1f") == 31 by {
      assert "1f"[..1] == "1" && "1"[..0] == [];
    }
  }

  /** `explain_word|${sentence}|`, the prefix the listing filters on. */
  function WordKeyPrefix(sentence: string): string {
    WordKeyTag + [Bar] + sentence + [Bar]
  }

  /** Between sentences without `|`, the prefix filter picks exactly the keys of the given sentence. */
  lemma {:induction false} PrefixSelectsSentence(sentence: string, other: string, marked: string, index: nat)
    requires NoBar(sentence) && NoBar(other)
    ensures WordKeyPrefix(sentence) <= WordKey(other, marked, index) <==> sentence == other
  {
    var head := WordKeyTag + [Bar];
    var tail := marked + [Bar] + NatToString(index);
    var u := sentence + [Bar];
    var v := other + [Bar] + tail;
    assert WordKeyPrefix(sentence) == head + u;
    assert WordKey(other, marked, index) == head + v;
    if head + u <= head + v {
      PrefixDrop(head, u, v);
      FieldEnd(sentence, []);
      FieldEnd(other, tail);
      assert u == sentence + [Bar] + [];
      assert v[|sentence|] == Bar;
      assert |other| <= |sentence|;
      assert u[|other|] == Bar;
      assert |sentence| == |other|;
      assert sentence == u[..|sentence|] == v[..|other|] == other;
    }
  }

  /** A common head can be dropped from both sides of a prefix relation. */
  lemma {:induction false} PrefixDrop(head: string, u: string, v: string)
    requires head + u <= head + v
    ensures u <= v
  {
    forall j | 0 <= j < |u|
      ensures u[j] == v[j]
    {
      assert u[j] == (head + u)[|head| + j];
      assert v[j] == (head + v)[|head| + j];
    }
  }

  /** In a field without `|` followed by `|`, the first `|` is the one after the field. */
  lemma {:induction false} FieldEnd(a: string, rest: string)
    requires NoBar(a)
    ensures (a + [Bar] + rest)[|a|] == Bar
    ensures forall j :: 0 <= j < |a| ==> (a + [Bar] + rest)[j] == a[j] != Bar
  {
  }

  /** A sentence holding a `|` can pass the filter for another sentence. */
  lemma {:induction false} BarInSentenceMatchesOther()
    ensures WordKeyPrefix("a") <= WordKey("a|b", "w", 0)
  {
  }

  // ------------------------------------------------------------ cached-word listing

  datatype CachedWord = CachedWord(word: string, index: int, reply: string)

  /** `k => k.startsWith(prefix)`. */
  function StartsWith(prefix: string): string -> bool {
    k => prefix <= k
  }

  /** The decoded entries of `keys`; a key whose word or index does not decode is dropped. */
  function DecodeAll(items: map<string, string>, keys: seq<string>): (words: seq<CachedWord>)
    requires forall k :: k in keys ==> k in items
    ensures |words| <= |keys|
    ensures forall w :: w in words ==> exists k :: k in keys && Decodes(items, k, w)
  {
    if keys == [] then []
    else
      var k := keys[0];
      var d := DecodeWordKey(k);
      var rest := DecodeAll(items, keys[1..]);
      if d.word.Some? && d.index.Some? then [CachedWord(d.word.value, d.index.value, items[k])] + rest
      else rest
  }

  /** `w` is what the listing makes of key `k`. */
  predicate Decodes(items: map<string, string>, k: string, w: CachedWord) {
    k in items && DecodeWordKey(k) == Decoded(Some(w.word), Some(w.index)) && w.reply == items[k]
  }

  predicate SortedByIndex(words: seq<CachedWord>) {
    forall i, j :: 0 <= i < j < |words| ==> words[i].index <= words[j].index
  }

  function Insert(w: CachedWord, sorted: seq<CachedWord>): (r: seq<CachedWord>)
    ensures multiset(r) == multiset(sorted) + multiset{w}
  {
    if sorted == [] || w.index <= sorted[0].index then [w] + sorted
    else
      assert sorted == [sorted[0]] + sorted[1..];
      [sorted[0]] + Insert(w, sorted[1..])
  }

  /** Inserting into a sorted listing keeps it sorted. */
  lemma {:induction false} InsertSorted(w: CachedWord, sorted: seq<CachedWord>)
    requires SortedByIndex(sorted)
    ensures SortedByIndex(Insert(w, sorted))
  {
    if sorted != [] && w.index > sorted[0].index {
      var tail := sorted[1..];
      InsertSorted(w, tail);
      var rest := Insert(w, tail);
      forall i | 0 <= i < |rest|
        ensures sorted[0].index <= rest[i].index
      {
        assert rest[i] in multiset(rest);
        if rest[i] != w {
          assert rest[i] in multiset(tail);
          var j :| 0 <= j < |tail| && tail[j] == rest[i];
          assert sorted[j + 1] == rest[i];
        }
      }
      assert Insert(w, sorted) == [sorted[0]] + rest;
    }
  }

  /** `.sort((a, b) => a.index - b.index)`: ascending by index, same entries. */
  function SortByIndex(words: seq<CachedWord>): (r: seq<CachedWord>)
    ensures SortedByIndex(r) && multiset(r) == multiset(words)
  {
    if words == [] then []
    else
      assert words == [words[0]] + words[1..];
      var rest := SortByIndex(words[1..]);
      InsertSorted(words[0], rest);
      Insert(words[0], rest)
  }

  /**
   * The cached words of `sentence`, from the store's items listed in
   * `keys` (the order `Object.keys` gives): keys with the sentence's word
   * prefix, decoded, sorted by index.
   */
  function CachedWordsFor(items: map<string, string>, keys: seq<string>, sentence: string): seq<CachedWord>
    requires forall k :: k in keys ==> k in items
  {
    var selected := Filter(keys, StartsWith(WordKeyPrefix(sentence)));
    SortByIndex(DecodeAll(items, selected))
  }

  /**
   * The listing is sorted by index, every entry comes from a stored key
   * with the sentence's prefix, and every word explained for a sentence
   * and word without `|` is listed with its reply.
   */
  lemma {:induction false} CachedWordsSpec(items: map<string, string>, keys: seq<string>, sentence: string)
    requires forall k :: k in keys ==> k in items
    ensures var words := CachedWordsFor(items, keys, sentence);
      && SortedByIndex(words)
      && (forall w :: w in words ==> exists k :: k in keys && WordKeyPrefix(sentence) <= k && Decodes(items, k, w))
  {
    var selected := Filter(keys, StartsWith(WordKeyPrefix(sentence)));
    var decoded := DecodeAll(items, selected);
    var words := CachedWordsFor(items, keys, sentence);
    forall w | w in words
      ensures exists k :: k in keys && WordKeyPrefix(sentence) <= k && Decodes(items, k, w)
    {
      assert w in multiset(words);
      assert w in decoded;
      var k :| k in selected && Decodes(items, k, w);
      assert StartsWith(WordKeyPrefix(sentence))(k);
    }
  }

  /** A word explained in `sentence` is listed for it (neither holding a `|`). */
  lemma {:induction false} ExplainedWordListed(items: map<string, string>, keys: seq<string>, sentence: string, marked: string, index: nat)
    requires forall k :: k in keys ==> k in items
    requires NoBar(sentence) && NoBar(marked) && WordKey(sentence, marked, index) in keys
    ensures CachedWord(marked, index, items[WordKey(sentence, marked, index)]) in CachedWordsFor(items, keys, sentence)
  {
    var k := WordKey(sentence, marked, index);
    var selected := Filter(keys, StartsWith(WordKeyPrefix(sentence)));
    assert StartsWith(WordKeyPrefix(sentence))(k);
    assert k in selected;
    DecodeWordKeyRoundTrip(sentence, marked, index);
    DecodeAllHas(items, selected, k);
    var words := CachedWordsFor(items, keys, sentence);
    assert multiset(words) == multiset(DecodeAll(items, selected));
    assert CachedWord(marked, index, items[k]) in multiset(words);
  }

  lemma {:induction false} DecodeAllHas(items: map<string, string>, keys: seq<string>, k: string)
    requires forall x :: x in keys ==> x in items
    requires k in keys
    requires DecodeWordKey(k).word.Some? && DecodeWordKey(k).index.Some?
    ensures CachedWord(DecodeWordKey(k).word.value, DecodeWordKey(k).index.value, items[k]) in DecodeAll(items, keys)
  {
    if keys[0] != k {
      DecodeAllHas(items, keys[1..], k);
    }
  }

  // ------------------------------------------------------------ writes

  /**
   * `cacheJishoResult`: read the recency list now, move the key to its
   * front, and queue the entry and that list as one plain write. The list
   * is read when the call is made, not when the write runs; the reserved
   * list key itself is not written (see README, Findings).
   */
  method CacheJishoResult(store: JishoStorage, cacheKey: string, html: string)
    requires store.Valid() && IsTracked(cacheKey)
    modifies store
    ensures store.Valid()
    ensures store.pending == old(store.pending) +
      if cacheKey == ListKey then []
      else [Data(Payload(cacheKey, html, Some(MoveToFront(old(store.list), cacheKey))), DefaultRetries)]
    ensures store.Snapshot() == old(store.Snapshot()) && store.steps == old(store.steps)
  {
    var list := store.list;
    list := Filter(list, Other(cacheKey));
    list := [cacheKey] + list;
    if cacheKey != ListKey {
      RederiveValid(Payload(cacheKey, html, Some(store.list)), store.Snapshot());
      store.SafeSetToStorage(Payload(cacheKey, html, Some(list)), DefaultRetries);
    }
  }

  /** `askAI` on a reply: the reply is queued as a plain write under its explanation key. */
  method CacheExplanation(store: JishoStorage, cacheKey: string, reply: string)
    requires store.Valid() && !IsTracked(cacheKey)
    modifies store
    ensures store.Valid()
    ensures store.pending == old(store.pending) + [Data(Payload(cacheKey, reply, None), DefaultRetries)]
    ensures store.Snapshot() == old(store.Snapshot()) && store.steps == old(store.steps)
  {
    assert cacheKey != ListKey by { assert ListKey[..|TrackedPrefix|] == TrackedPrefix; }
    store.SafeSetToStorage(Payload(cacheKey, reply, None), DefaultRetries);
  }

  /** However the queue runs, an explanation key never appears in the recency list. */
  lemma {:induction false} ExplanationNeverListed(s: Store, ops: seq<Op>, accepts: Oracle, sentence: string, marked: string, index: nat)
    requires ValidStore(s) && forall op :: op in ops ==> ValidOp(op)
    ensures var t := RunAll(s, ops, accepts).0;
      WordKey(sentence, marked, index) !in t.list && SentenceKey(sentence) !in t.list
  {
    RunAllValid(s, ops, accepts);
    ExplainKeysUntracked(sentence, marked, index);
  }

  /**
   * Two `cacheJishoResult` calls that both read the list before either
   * write runs: when both writes are accepted, the second list, computed
   * without the first key, replaces the first, and the first entry is
   * stored but no longer listed.
   */
  lemma {:induction false} StaleListSnapshotOrphansEntry(s: Store, a: string, ha: string, b: string, hb: string, accepts: Oracle)
    requires a != b && a !in s.list
    requires accepts(s.writes) && accepts(s.writes + 1)
    ensures var ops := [
        Data(Payload(a, ha, Some(MoveToFront(s.list, a))), DefaultRetries),
        Data(Payload(b, hb, Some(MoveToFront(s.list, b))), DefaultRetries)];
      var t := RunAll(s, ops, accepts).0;
      && a in t.entries && t.entries[a] == ha
      && a !in t.list
      && b in t.entries && t.list == MoveToFront(s.list, b)
  {
    var first := Data(Payload(a, ha, Some(MoveToFront(s.list, a))), DefaultRetries);
    var second := Data(Payload(b, hb, Some(MoveToFront(s.list, b))), DefaultRetries);
    RunAllPair(s, first, second, accepts);
    PerformAccepted(s, first, accepts);
    var s1 := Store(s.entries[a := ha], MoveToFront(s.list, a), s.writes + 1);
    PerformAccepted(s1, second, accepts);
    assert a !in Filter(s.list, Other(b));
  }

  /**
   * The same two writes queued through `safeSetToStorageWithList`, which
   * reads the list when the write runs: both keys end up listed, the later
   * one first.
   */
  lemma {:induction false} QueuedListReadKeepsBoth(s: Store, a: string, ha: string, b: string, hb: string, accepts: Oracle)
    requires a != b
    requires accepts(s.writes) && accepts(s.writes + 1)
    ensures var t := RunAll(s, [WithList(a, ha), WithList(b, hb)], accepts).0;
      && a in t.entries && t.entries[a] == ha && b in t.entries && t.entries[b] == hb
      && |t.list| >= 2 && t.list[0] == b && t.list[1] == a
  {
    RunAllPair(s, WithList(a, ha), WithList(b, hb), accepts);
    PerformAccepted(s, WithList(a, ha), accepts);
    var l1 := MoveToFront(s.list, a);
    var s1 := Store(s.entries[a := ha], l1, s.writes + 1);
    PerformAccepted(s1, WithList(b, hb), accepts);
    assert l1[0] == a && l1[1..] == Filter(s.list, Other(a));
    assert Filter(l1, Other(b)) == [a] + Filter(l1[1..], Other(b));
  }

}
