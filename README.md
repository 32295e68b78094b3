# Jisho panel cache and sentence tools, modelled in Dafny

This project models the logic core of a browser extension that shows
dictionary entries (from jisho.org) and AI explanations for Japanese text
selected on a page. Three parts of the extension are modelled.

- **The recency cache of `helpers.js`.** Dictionary pages are cached in the
  extension's local store. Their keys start with `jisho_cache_` and are
  listed, most recent first, in the recency list stored under the reserved
  key `jisho_cache_list`. Every write is queued on one promise chain, which
  acts as a FIFO serializer. `attemptSet` retries a rejected write with a
  countdown budget:
  - it evicts the least recently used entry (`trimJishoCache`) before each
    retry;
  - it runs a repair pass (`tidyJishoList`) when two retries remain;
  - for a tracked write, it rebuilds the list to write from the list as it
    is after the eviction.
- **The quote-aware sentence scans of `sentenceSegmenter.js`.** Around a
  selection, the sentence is found by scanning forwards and backwards for
  one of `。！？.!?` that lies outside any open `「`. A scan that finds none
  continues into the next or previous text chunk of the same paragraph,
  carrying the quote depth.
- **Parts of `content.js`.** These are:
  - the simple single-node sentence splitter;
  - the selection guard and the dictionary cache key;
  - `cacheJishoResult`;
  - the `explain_word|sentence|word|index` keys of cached explanations,
    including how the panel decodes them and lists them sorted by index.

## Layout

- `keys.dfy`
  - `Wrappers`: an `Option` type.
  - `StorageKeys`: the tracked prefix and the reserved list key; `Filter`,
    which models JavaScript's `filter`; the move-to-front list update
    `MoveToFront`.
- `cache_model.dfy` (`CacheModel`): the store as a value and the
  operations as pure transitions. A `Store` holds:
  - the entries;
  - the recency list (an absent list reads as `[]`, as the code's
    `|| []` does);
  - the number of `set` calls made so far.

  An oracle `accepts: nat -> bool` says whether the k-th `set` call
  succeeds; it stands for the store's quota errors. A rejected `set` writes
  nothing. The transitions are `Tidy`, `Trim`, `Attempt`, `Perform` and
  `RunAll`. The lemmas about them are the cache's properties.
- `helpers.dfy` (`Helpers.JishoStorage`): a class with the store's fields
  and the queue of pending operations. Its methods follow the functions of
  `helpers.js` and keep their loops and state changes:
  - the push loop of `tidyJishoList`;
  - the pop in `trimJishoCache`;
  - the recursion of `attemptSet`, split into `AttemptSet` (the write),
    `Rejected` (give up or retry), `Retry`, `RetryRound` (tidy at two
    remaining, then trim) and `Rederived` (the re-read list);
  - the queue drained in order.

  Each method is proved to leave the store in the state the matching
  `CacheModel` function gives. The public entry points (queueing, running
  a queued operation, draining the queue) also keep the class invariant:
  the list has no duplicates and holds only tracked keys. The inner methods
  need not state it, because the lemmas about the `CacheModel` functions
  already show that it is kept. A ghost log of `Step`s records what each
  `attemptSet` level did: a write tried, a tidy, a trim.
- `segmenter.dfy` (`SentenceTools`): the scans over a document given as a
  sequence of `Chunk(text, paragraph)`. The loops `ForwardScan`,
  `BackwardScan` and `DepthBefore` are proved equal to the recursive
  functions `ScanForward`, `ScanBackward` and `Balance`.
- `content.dfy` (`Content`):
  - JavaScript's `trim` (`TrimText`), `split` and `slice`, and `parseInt`
    without a radix (white space, sign, `0x` prefix, digits);
  - the splitter and the explain keys;
  - `CacheJishoResult`, a method on `JishoStorage`;
  - lemmas relating the content script's writes to the cache.

## Model

| member | source | states |
|---|---|---|
| StorageKeys.Filter | helpers.js:38 | the kept elements are exactly those of the input that satisfy the predicate, and there are no more of them than input elements |
| StorageKeys.FilterMultiset | helpers.js:38 | each kept element occurs as often as in the input; the others do not occur at all |
| StorageKeys.FilterSubsequence | helpers.js:38 | the kept elements stay in their original relative order |
| StorageKeys.FilterNoDup | helpers.js:157-162 | filtering a list without duplicates gives a list without duplicates |
| StorageKeys.MoveToFrontSpec | helpers.js:37-39 | after a tracked write's list update the key is at index 0 and occurs exactly once; every other key keeps its count and relative order; no duplicate is introduced |
| CacheModel.TidyRemovesExactlyOrphans | helpers.js:147-153 | tidy removes exactly the tracked entries (list key excluded) that the list does not mention; every other entry keeps its value; it writes once exactly when the repaired list differs |
| CacheModel.TidyRepairsIndex | helpers.js:157-175 | when the list write is accepted (or not needed), the new list is exactly the old list filtered to stored tracked keys (every copy of a kept key kept, as `filter` does), in order, and list and entries agree afterwards |
| CacheModel.TidyRejectedKeepsList | helpers.js:166-170 | a rejected list write leaves the old list; the orphans are still removed |
| CacheModel.TidyIdempotent | helpers.js:146-181 | a second tidy after a completed one removes nothing and writes nothing |
| CacheModel.TidyValid | helpers.js:146-181 | tidy keeps the list free of duplicates and of untracked or reserved keys |
| CacheModel.TidyKeepsUntracked | helpers.js:148-153 | an untracked entry survives a tidy unchanged |
| CacheModel.TrimEmpty | helpers.js:113-119 | on an empty list trim removes nothing and writes nothing, and still returns to its caller |
| CacheModel.Tidy | helpers.js:146-181 | `tidyJishoList` as a transition of the store; its properties are the `Tidy…` lemmas below |
| CacheModel.Trim | helpers.js:111-140 | `trimJishoCache` as a transition returning the store and a report; its properties are `TrimEmpty`, `TrimEvictsOldest`, `TrimInOrder`, `TrimValid` and `TrimKeepsUntracked` |
| CacheModel.TrimEvictsOldest | helpers.js:121-136 | on a non-empty list trim evicts the last key and reports whether it was stored; an accepted list write leaves exactly the old store without that entry and that list element; on a rejected one the fallback tidy drops the evicted key from the list and keeps the order of the rest, and if the tidy's write is rejected too the list stays as it was |
| CacheModel.TrimFallbackTidy | helpers.js:131-134 | after a rejected list write, trim's result is `Tidy` of the store without the evicted entry; with the tidy's write accepted the key leaves the list, which stays an ordered subsequence; with it rejected the list is unchanged |
| CacheModel.TrimInOrder | helpers.js:121-122 | trimming [a, b, c] evicts c, then b, then a, then reports the list empty |
| CacheModel.TrimValid | helpers.js:111-140 | trim keeps the store's list valid |
| CacheModel.TrimKeepsUntracked | helpers.js:121-131 | an untracked entry survives a trim unchanged |
| CacheModel.Attempt | helpers.js:73-109 | `attemptSet` as a function giving the final store, the outcome and the step log; its properties are `AttemptFirstWriteAccepted`, `AttemptGivesUp`, `AttemptAllRejected`, `AttemptShape`, `AttemptValid` and `AttemptKeepsUntracked` |
| CacheModel.AttemptGivesUp | helpers.js:82-86 | a rejected write with no retries left ends with `onFailure`: nothing is written, the call is counted, and the log holds that one rejected try |
| CacheModel.SetPayloadValid | helpers.js:74 | writing a valid payload keeps the store valid whatever the verdict |
| CacheModel.AttemptFirstWriteAccepted | helpers.js:104-107 | when the first write succeeds: one try, `onSuccess`, no trim, no tidy, no retry; the entry and the payload's list are stored |
| CacheModel.AttemptAllRejected | helpers.js:75-103 | when every write fails, `onFailure` runs and the steps are those of `FailSteps` |
| CacheModel.RoundStepsCounts | helpers.js:78-98 | one retry round holds one rejected write, one trim, and a tidy only at two remaining |
| CacheModel.FailStepsCounts | helpers.js:75-103 | with every write failing and budget N: N + 1 write attempts, N trims, and one tidy exactly when N >= 2 |
| CacheModel.FailStepsTidyPlace | helpers.js:78-88 | that tidy comes right after the rejected write at two remaining and before that round's trim |
| CacheModel.AttemptShape | helpers.js:73-109 | on any mix of verdicts the last step is the deciding write; every earlier write was rejected and followed by one trim; at most budget + 1 writes; a saved payload is stored, and one whose list starts with its key leaves that key at the front of the list |
| CacheModel.AttemptEarlierRejected | helpers.js:74-107 | every try before the last one was rejected: an accepted write ends the run |
| CacheModel.AttemptSteps | helpers.js:73-109 | the step log alone: it ends with the deciding try, has one more try than trims, and at most budget + 1 tries |
| CacheModel.AttemptSaves | helpers.js:73-109 | the store alone: after a save the payload's value is stored under its key, and a tracked payload whose list starts with its key leaves that key at the front |
| CacheModel.RederiveValid | helpers.js:89-97 | the list re-derived for a retry is still a valid list |
| CacheModel.TrimRoundValid | helpers.js:78-88 | the tidy and trim between two tries keep the store valid |
| CacheModel.AttemptValid | helpers.js:73-109 | `attemptSet` keeps the store valid |
| CacheModel.AttemptKeepsUntracked | helpers.js:73-109 | an untracked entry other than the payload's survives `attemptSet` |
| CacheModel.Perform | helpers.js:28-71 | one queued operation: a tracked write re-reads the list when it runs and moves its key to the front, with 4 retries; a plain write uses its own budget. Its properties are `PerformAccepted`, `PerformSavedStores`, `PerformValid` and `PerformKeepsUntracked` |
| CacheModel.Drain | helpers.js:21-26 | the promise chain as a fold: each operation runs on the store its predecessor left; its properties are `DrainRunsEach` and `DrainAppend` |
| CacheModel.RunAll | helpers.js:21-26 | draining a queue of operations with `Perform`; its properties are `RunAllValid`, `RunAllPair`, `LastWriteWins` and `RunAllKeepsUntracked` |
| CacheModel.PerformValid | helpers.js:28-71 | running one queued operation keeps the store valid |
| CacheModel.DrainRunsEach | helpers.js:21-26 | each queued operation runs exactly once, in order, on the store its predecessors left, whatever their outcome |
| CacheModel.DrainAppend | helpers.js:21-26 | draining `a + b` is draining `a` and then `b` |
| CacheModel.RunAllValid | helpers.js:21-26 | the store stays valid through the whole queue |
| CacheModel.RunAllPair | helpers.js:23-25 | of two queued operations, the second runs on the store the first left |
| CacheModel.PerformAccepted | helpers.js:32-44 | an operation whose first write succeeds stores its entry and its list and changes nothing else |
| CacheModel.LastWriteWins | helpers.js:21-26 | when the last queued operation is saved, its value is stored under its key whatever came before |
| CacheModel.PerformSavedStores | helpers.js:28-71 | a saved operation leaves its value under its key |
| CacheModel.PutTwiceKeepsLater | helpers.js:28-53 | two tracked writes of one key, both accepted, leave the later value and the key at the front of the list |
| CacheModel.RunAllKeepsUntracked | helpers.js:21-26 | an untracked entry is never evicted by the queue unless an operation writes that key |
| CacheModel.PerformKeepsUntracked | helpers.js:28-71 | the same for one operation |
| CacheModel.ReservedKeyLosesEntry | helpers.js:41-44 | as written, a tracked write under the reserved key builds an object holding only the list, which names the reserved key |
| CacheModel.EntryObjectKeepsBoth | helpers.js:41-44 | for any other tracked key the object holds both the entry and the list |
| Helpers.JishoStorage.Set | helpers.js:74-75 | a `set` call stores the entries and list or, when rejected, nothing |
| Helpers.JishoStorage.Remove | helpers.js:153 | `remove` deletes exactly the given keys |
| Helpers.JishoStorage.TidyJishoList | helpers.js:146-181 | the store after the method is `Tidy` of the store before |
| Helpers.JishoStorage.KeepStored | helpers.js:157-162 | the push loop yields the list filtered to stored tracked keys, in order |
| Helpers.JishoStorage.TrimJishoCache | helpers.js:111-140 | the store and report after the method are `Trim` of the store before |
| Helpers.JishoStorage.AttemptSet | helpers.js:73-109 | store, outcome and logged steps are those of `Attempt` |
| Helpers.JishoStorage.Rejected | helpers.js:75-103 | after a rejected write: with no retries left, one logged try and `NotSaved`; otherwise the retry; either way store, outcome and steps are those of `Attempt` |
| Helpers.JishoStorage.Retry | helpers.js:78-103 | after a rejected write with retries left: the round, then `Attempt` of the re-derived payload with one retry fewer, which gives its store, outcome and the steps after the round's |
| Helpers.JishoStorage.RetryRound | helpers.js:78-88 | logs the rejected try, tidies exactly when two retries remain, then trims: the store becomes `TrimRound` of the store before, and the log gains `RoundSteps` |
| Helpers.JishoStorage.Rederived | helpers.js:89-97 | a tracked payload gets the list as it now is, with its key moved to the front; an untracked payload is unchanged (`Rederive`) |
| Helpers.JishoStorage.SerializeStorageOperation | helpers.js:23-26 | the operation is appended to the queue; the store is not touched |
| Helpers.JishoStorage.SafeSetToStorage | helpers.js:55-71 | the payload is queued with its retry budget |
| Helpers.JishoStorage.SafeSetToStorageWithList | helpers.js:28-53 | an untracked key is queued as the single payload `{key: value}` without reading the list; a tracked key is queued as a write that reads the list when it runs; the reserved key is refused |
| Helpers.JishoStorage.Perform | helpers.js:32-50 | running one queued operation is `Perform` on the store |
| Helpers.JishoStorage.RunQueue | helpers.js:21-26 | draining the queue gives the store and outcomes of `RunAll` and leaves it empty |
| SentenceTools.BalanceAppend | sentenceSegmenter.js:182-187 | the quote balance of a concatenation is the sum of the balances |
| SentenceTools.ScanForward | sentenceSegmenter.js:102-112 | a found position is at or after the start and holds a terminator |
| SentenceTools.ForwardScan | sentenceSegmenter.js:101-112 | the forward loop returns what `ScanForward` gives |
| SentenceTools.ScanForwardSpec | sentenceSegmenter.js:102-112 | the forward scan stops at the first terminator at or after the offset at depth <= 0 (depth updated before the test); otherwise it carries the start depth plus the rest's balance |
| SentenceTools.QuotedTerminatorSkipped | sentenceSegmenter.js:105-108 | a terminator inside an open `「` never ends the sentence |
| SentenceTools.ScanForwardConcat | sentenceSegmenter.js:113-124 | scanning two glued chunks is scanning the first, then the second with the carried depth |
| SentenceTools.ScanBackward | sentenceSegmenter.js:151-161 | a found position is before the offset and holds a terminator |
| SentenceTools.BackwardScan | sentenceSegmenter.js:150-161 | the backward loop returns what `ScanBackward` gives |
| SentenceTools.ScanBackwardSpec | sentenceSegmenter.js:151-161 | the backward scan stops at the last terminator before the offset at depth <= 0 (`「` -1, `」` +1); otherwise it carries the start depth minus the balance before the offset |
| SentenceTools.ScanBackwardConcat | sentenceSegmenter.js:162-173 | scanning two glued chunks backwards is scanning the second, then the whole first with the carried depth |
| SentenceTools.DepthBefore | sentenceSegmenter.js:180-187 | the depth loop returns #`「` - #`」` before the offset |
| SentenceTools.Suffix | sentenceSegmenter.js:93-126 | `getSentenceSuffix` with a known depth, following the paragraph into the next chunks; `SuffixChunkingInvariant` shows it is one scan over the paragraph's remaining text |
| SentenceTools.Prefix | sentenceSegmenter.js:141-175 | `getSentencePrefix` with a known depth, following the paragraph into the previous chunks; `PrefixChunkingInvariant` shows it is one scan over the paragraph's text before the offset |
| SentenceTools.GetDepth | sentenceSegmenter.js:177-197 | `getDepth` over the paragraph; `GetDepthIsBalance` shows it is the quote balance of the text before the offset |
| SentenceTools.SuffixOfTextSpec | sentenceSegmenter.js:113-120 | the sentence end is a prefix of the rest of the text; it ends at the first qualifying terminator, included, or runs to the end |
| SentenceTools.SuffixChunkingInvariant | sentenceSegmenter.js:93-126 | following a sentence across the chunks of a paragraph gives the same text as one scan over the paragraph's remaining text |
| SentenceTools.PrefixChunkingInvariant | sentenceSegmenter.js:141-175 | the same backwards: the prefix is one scan over the paragraph's text up to the offset (offset -1 meaning the chunk's length) |
| SentenceTools.GetDepthIsBalance | sentenceSegmenter.js:177-197 | `getDepth` is #`「` - #`」` over the paragraph's text before the offset |
| SentenceTools.SentencePrefixStartsAfterUnquotedTerminator | sentenceSegmenter.js:151-161 | with the depth `getDepth` gives, a backward stop is a terminator whose preceding text has balance <= 0 |
| SentenceTools.SentenceSuffixEndsAtUnquotedTerminator | sentenceSegmenter.js:102-112 | with that depth, a forward stop is a terminator whose text up to and including it has balance <= 0 |
| SentenceTools.GetSelection | sentenceSegmenter.js:199-247 | inside one chunk the selection is the slice between the offsets; across chunks it starts with the start chunk's tail from the start offset, ends with the end chunk's head up to the end offset, and is at least as long as both pieces together |
| SentenceTools.SentenceAroundSelection | sentenceSegmenter.js:249-251 | no selection gives no sentence |
| SentenceTools.SentenceAroundSelectionSpec | sentenceSegmenter.js:259-287 | the sentence is before + inside + after with index = length of before, inside sits at the index, before is the sentence start scanned over the paragraph and after the sentence end |
| Content.TrimText | content.js:363 | `String.prototype.trim`; its properties are `TrimStartSpec`, `TrimEndSpec`, `TrimSpec`, `TrimIdempotent` and `TrimIgnoresSurroundingSpace` |
| Content.TrimStartSpec | content.js:363 | leading white space is removed and only that |
| Content.TrimEndSpec | content.js:363 | trailing white space is removed and only that |
| Content.TrimSpec | content.js:363 | the trimmed text is a piece of the input with only white space cut on each side, and neither starts nor ends with white space |
| Content.TrimIdempotent | content.js:363 | trimming twice is trimming once |
| Content.TrimIgnoresSurroundingSpace | content.js:70 | white space around a text does not change its trimmed form |
| Content.LookupKey | content.js:362-365 | a selection is looked up exactly when its trimmed text has 1 to 20 characters, under a tracked key |
| Content.JishoKey | content.js:365 | the cache key is tracked and ends with the word |
| Content.JishoKeyInjective | content.js:365 | different words get different cache keys |
| Content.LookupIgnoresSurroundingSpace | content.js:363-364 | surrounding white space changes neither the decision nor the key |
| Content.WordListReachesReservedKey | content.js:363-365 | selecting "list" passes the guard and names the reserved list key |
| Content.SentenceStartSpec | content.js:407 | the reference sentence start follows a terminator (or is 0) and no terminator lies between it and the index |
| Content.SentenceEndSpec | content.js:408 | the reference sentence end is a terminator (or the end) and no terminator lies before it from the index |
| Content.Before | content.js:407 | the text before the index within its sentence; `BeforeSpec` states what it is |
| Content.After | content.js:408 | the text from the index to the sentence end; `AfterSpec` states what it is |
| Content.SplitAfterLast | content.js:407 | the last piece of the lookbehind split starts after the last terminator |
| Content.SplitOnFirst | content.js:408 | the first piece of the split on terminators ends at the first terminator |
| Content.BeforeSpec | content.js:407 | `before` runs from after the last terminator before the index up to the index (at the end of the text the final character is dropped) and holds no terminator |
| Content.AfterSpec | content.js:408 | `after` runs from the index up to, excluding, the first terminator at or after it, and holds none |
| Content.SimpleSentence | content.js:392-414 | no range gives `""`; a selection across nodes gives nothing |
| Content.SimpleSentenceSpec | content.js:401-410 | inside a text the sentence is the terminator-free stretch around the index, the index is the selection's position in it, and the text after the index is `after` |
| Content.WordKey | content.js:198 | the key `explain_word|sentence|word|index`; `ExplainKeysUntracked`, `DecodeWordKeyRoundTrip` and `PrefixSelectsSentence` state its properties |
| Content.NatToString | content.js:198 | the printed index is a non-empty run of decimal digits |
| Content.ExplainKeysUntracked | content.js:198-199 | explanation keys are not tracked and are not the list key |
| Content.ParseInt | content.js:286 | `parseInt` with no radix: leading white space, an optional sign, `0x`/`0X` for base 16, then the longest run of digits, `NaN` when there are none; `ParseNatToString` and `ParseIntHex` state what it reads |
| Content.ParseIntHex | content.js:286 | `parseInt("0x1f")` is 31 |
| Content.ParseNatToString | content.js:286 | `parseInt` of a printed index gives the index back |
| Content.DecodeWordKey | content.js:284-286 | the split on `|` and `parseInt` of the fourth field; `DecodeWordKeyRoundTrip`, `BarInWordShiftsFields` and `BarInWordBreaksDecode` state what it gives |
| Content.WordKeyFields | content.js:285 | splitting a word key on `|` gives tag, sentence, word and index when neither sentence nor word holds `|` |
| Content.DecodeWordKeyRoundTrip | content.js:284-286 | decoding a word key gives back its word and index under the same condition |
| Content.BarInWordShiftsFields | content.js:285-286 | with one `|` in the word, the decoded word is the part before it and the index is `parseInt` of the part after it |
| Content.BarInWordBreaksDecode | content.js:285-286 | the word `a|b` decodes as `a` with index NaN (`parseInt("b")`); in general the index is `parseInt` of the part after the `|`, as `BarInWordShiftsFields` states, so `a|7` gives 7 and `a|0x1f` gives 31 |
| Content.BarInWordReadsHexIndex | content.js:285-286 | a word `a|0x1f` is decoded as `a` with index 31 |
| Content.PrefixSelectsSentence | content.js:280-281 | between sentences without `|`, the prefix filter accepts a word key exactly when its sentence is the given one |
| Content.BarInSentenceMatchesOther | content.js:280-281 | a sentence holding `|` can pass the filter for another sentence |
| Content.DecodeAll | content.js:284-286 | every decoded entry comes from a listed key and carries its stored reply |
| Content.Insert | content.js:287 | inserting adds exactly one element |
| Content.InsertSorted | content.js:287 | inserting into a list sorted by index keeps it sorted |
| Content.SortByIndex | content.js:287 | the result is sorted ascending by index and is a permutation of the input |
| Content.CachedWordsFor | content.js:279-287 | the explanation listing of a sentence: keys with the sentence's prefix, decoded, sorted by index; `CachedWordsSpec` and `ExplainedWordListed` state both directions |
| Content.CachedWordsSpec | content.js:279-287 | the listing is sorted by index and every entry decodes from a stored key with the sentence's prefix |
| Content.ExplainedWordListed | content.js:279-287 | a word explained in a sentence (neither holding `|`) is listed with its reply |
| Content.DecodeAllHas | content.js:284-286 | a listed key that decodes appears in the decoded entries |
| Content.CacheJishoResult | content.js:417-433 | the list read now, with the key removed and put first, is queued with the entry as one plain write; the store is not touched yet |
| Content.CacheExplanation | content.js:348-352 | a reply is queued as a plain write under its explanation key |
| Content.ExplanationNeverListed | content.js:198-199 | however the queue runs, an explanation key never enters the recency list |
| Content.StaleListSnapshotOrphansEntry | content.js:417-428 | two such writes that read the list before either runs leave the first entry stored but no longer listed |
| Content.QueuedListReadKeepsBoth | helpers.js:32-44 | the same writes through `safeSetToStorageWithList` list both keys, the later first |

## Behaviour worth noting

- **Order of repair and eviction.** In `attemptSet` the repair pass
  (`tidyJishoList`) runs right after a rejected write with two retries
  left, before the `remainingRetries <= 0` test and before the trim. The
  model tests for giving up first and runs the tidy inside the retry round
  (`TrimRound`). The two orders agree because the tidy happens only at two
  remaining retries (`TidyAtRemaining`), where the give-up test cannot hold.
- **Empty recency list.** `trimJishoCache` on an empty list calls back
  without evicting anything, and `attemptSet` still goes on to the retry.
- **Repair pass and the queue.** `tidyJishoList` is called directly from
  inside a running operation, not through the serializer.
- **Public interface.** `helpers.js` has no separate `remove(key)` or
  listing operation. The explanation listing of `content.js` is the only
  filtered listing.

## Left out

- Asynchrony. `chrome.storage.local`'s callbacks and `chrome.runtime.lastError` become a synchronous store whose `set` verdicts come from an oracle. The promise chain becomes an explicit FIFO of pending operations drained by `RunQueue`; reads made outside the chain (`cacheJishoResult`) see the store at call time.
- `remove` failures: the code never inspects them, so `Remove` always succeeds.
- Every `alert` and `console` call.
- `onSuccess`/`onFailure` callbacks. They are the `Outcome` of a run. A callback that throws is not modelled.
- Blob-based size estimates (`logJishoCacheSize`, the content script's copy of it) and zoom arithmetic: floating point.
- DOM traversal is replaced by a given sequence of paragraph-tagged text chunks. This covers:
  - visibility tests;
  - the TreeWalker;
  - `getNextNode`/`getPrevNode`;
  - `getClosestP`.

  The first and last chunks of the document end their paragraph; the code would instead dereference a missing parent node there.
- SentenceTools.SentenceAroundSelection: only selections whose two ends lie in text nodes. The element-container branches (sentenceSegmenter.js:265-272, 277-284) are not modelled.
- background.js, popup.js and defaults.js: fetching, prompts, settings and constants are not part of this model.
- `updateJishoPanel` and `handleTextSelection`: only the guard and the cache key are modelled; the panel and the fetch are not.
- Strings are sequences of characters. JavaScript's UTF-16 length (a character outside the BMP counts twice in the 20-character guard) is not modelled.
- Content.ParseInt: the result is an exact integer. JavaScript's `parseInt` gives a double, which loses precision beyond 2^53 and becomes `Infinity` for very long digit runs; `-0` is read as 0.
- Content.CachedWordsFor: an entry whose index field is not a number is dropped. The code keeps it with index NaN, and the sort then places it in an engine-defined order.
- Content.SortByIndex: the relative order of entries with equal index (the sort's stability) is not stated.
- Negative retry budgets: they behave like 0, as in the code. No caller passes one.

## Findings

| source | as written | input that shows it | evidently intended | confidence | as-written member | corrected member |
|---|---|---|---|---|---|---|
| content.js:365 | the cache key of the selected word "list" is `jisho_cache_list`, the reserved key of the recency list; the tracked write then builds `{[cacheKey]: html, jisho_cache_list: list}`, whose second property overwrites the first (helpers.js:41-44, content.js:426-429) | selecting the word `list` while no recency list is stored (any stored list, even an empty one, is read back under that key at content.js:367-374 and shown as a cached page, so `cacheJishoResult` is not reached) | the dictionary entry and the list are stored under different keys | not executed | CacheModel.ReservedKeyLosesEntry | CacheModel.EntryObjectKeepsBoth |

The as-written half has two parts. `Content.WordListReachesReservedKey`
shows that the guard lets the word through. `CacheModel.ReservedKeyLosesEntry`
shows what happens next:
- the HTML is lost;
- the list stored under the reserved key now names that key as an entry;
- on a retry, `keys.find(k => k !== 'jisho_cache_list')` finds no key.

The rest of the model uses the corrected behaviour.
`Helpers.JishoStorage.SafeSetToStorageWithList` and
`Content.CacheJishoResult` refuse the reserved key, and every queued payload
satisfies `ValidPayload`, which excludes it. For every other key,
`CacheModel.EntryObjectKeepsBoth` proves that the object carries both the
entry and the list.
