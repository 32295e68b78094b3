/**
 * helpers.js as an object: the extension's local store (`chrome.storage.local`)
 * with the module-level storage queue, and the functions that write to it.
 * Every method is proved against the pure transitions of CacheModel; the
 * properties of the cache are lemmas about those transitions.
 */
module Helpers {
  import opened Wrappers
  import opened StorageKeys
  import opened CacheModel

  class JishoStorage {
    /** Every stored entry except the recency list. */
    var entries: map<string, string>
    /** The recency list stored under "jisho_cache_list", most recent first. */
    var list: seq<string>
    /** Number of `set` calls made on the store so far. */
    var writes: nat
    /** The store's verdict on each `set` call, by call number. */
    const accepts: Oracle
    /** Operations chained onto `storageQueue` that have not run yet. */
    var pending: seq<Op>
    /** What each `attemptSet` call did, in order. */
    ghost var steps: seq<Step>

    function Snapshot(): Store
      reads this
    {
      Store(entries, list, writes)
    }

    ghost predicate Valid()
      reads this
    {
      ValidStore(Snapshot()) && forall op :: op in pending ==> ValidOp(op)
    }

    /** A store holding `entries` and `list`, with nothing queued. */
    constructor (accepts: Oracle, entries: map<string, string>, list: seq<string>)
      requires ValidStore(Store(entries, list, 0))
      ensures Valid()
      ensures Snapshot() == Store(entries, list, 0) && this.accepts == accepts
      ensures pending == [] && steps == []
    {
      this.entries := entries;
      this.list := list;
      this.writes := 0;
      this.accepts := accepts;
      this.pending := [];
      this.steps := [];
    }

    /** `chrome.storage.local.set`: entries `e` and, if given, the list, all or nothing. */
    method Set(e: map<string, string>, l: Option<seq<string>>) returns (ok: bool)
      modifies this
      ensures (Snapshot(), ok) == Write(old(Snapshot()), accepts, e, l)
      ensures pending == old(pending) && steps == old(steps)
    {
      ok := accepts(writes);
      if ok {
        entries := entries + e;
        if l.Some? {
          list := l.value;
        }
      }
      writes := writes + 1;
    }

    /** `chrome.storage.local.remove`: never fails. */
    method Remove(keys: set<string>)
      modifies this
      ensures entries == old(entries) - keys
      ensures list == old(list) && writes == old(writes) && pending == old(pending) && steps == old(steps)
    {
      entries := entries - keys;
    }

    /**
     * `tidyJishoList`: remove tracked entries the list does not mention,
     * rebuild the list from the keys still stored, and write it back when it
     * differs in length or at some position.
     */
    method TidyJishoList()
      modifies this
      ensures Snapshot() == Tidy(old(Snapshot()), accepts)
      ensures pending == old(pending) && steps == old(steps)
    {
      ghost var s := Snapshot();
      var keysForJisho := set k | k in entries && IsTracked(k) && k != ListKey;
      var l := list;
      var headlessCache := set k | k in keysForJisho && k !in l;
      assert keysForJisho == TrackedKeys(s);
      assert headlessCache == Orphans(s);
      Remove(headlessCache);
      ghost var removed := s.(entries := s.entries - Orphans(s));
      assert Snapshot() == removed;

      var newList := KeepStored(l, keysForJisho);
      assert newList == RepairedList(s);

      var listsDiffer := |newList| != |l| || exists j :: 0 <= j < |newList| && newList[j] != l[j];
      assert listsDiffer == (newList != l);
      if listsDiffer {
        var _ := Set(map[], Some(newList));
      }
    }

    /** The push loop of `tidyJishoList`: the keys of `l` that are in `keysForJisho`, in order. */
    static method KeepStored(l: seq<string>, keysForJisho: set<string>) returns (newList: seq<string>)
      ensures newList == Filter(l, InSet(keysForJisho))
    {
      ghost var keep := InSet(keysForJisho);
      newList := [];
      var i := 0;
      while i < |l|
        invariant 0 <= i <= |l|
        invariant newList == Filter(l[..i], keep)
      {
        FilterSnoc(l, i, keep);
        assert keep(l[i]) == (l[i] in keysForJisho);
        if l[i] in keysForJisho {
          newList := newList + [l[i]];
        }
        i := i + 1;
      }
      assert l[..i] == l;
    }

    /**
     * `trimJishoCache`: pop the least recently used key, remove its entry
     * (a missing entry is only reported), persist the shortened list, and
     * tidy when that write is rejected.
     */
    method TrimJishoCache() returns (report: TrimReport)
      modifies this
      ensures (Snapshot(), report) == Trim(old(Snapshot()), accepts)
      ensures pending == old(pending) && steps == old(steps)
    {
      ghost var s := Snapshot();
      var l := list;
      if |l| == 0 {
        report := NothingToTrim;
        return;
      }
      var cacheKeyToRemove := l[|l| - 1];
      l := l[..|l| - 1];
      var wasStored := cacheKeyToRemove in entries;
      Remove({cacheKeyToRemove});
      var ok := Set(map[], Some(l));
      if !ok {
        TidyJishoList();
      }
      report := Evicted(cacheKeyToRemove, wasStored, ok);
    }

    /**
     * `attemptSet`: write `data`; on rejection tidy when two retries remain,
     * give up when none remain, otherwise trim, re-read the list of a
     * tracked payload and move its key to the front, and retry.
     */
    method AttemptSet(data: Payload, remainingRetries: int) returns (outcome: Outcome)
      modifies this
      ensures var run := Attempt(old(Snapshot()), data, remainingRetries, accepts);
        Snapshot() == run.store && outcome == run.outcome && steps == old(steps) + run.steps
      ensures pending == old(pending)
      decreases Max0(remainingRetries), 2
    {
      ghost var s := Snapshot();
      var ok := Set(map[data.key := data.value], data.list);
      if ok {
        AttemptAccepted(s, data, remainingRetries, accepts);
        steps := steps + [Tried(remainingRetries, true)];
        outcome := Saved;
      } else {
        outcome := Rejected(s, data, remainingRetries);
      }
    }

    /**
     * What `attemptSet` does once the write of `data` to the store `s` has
     * been rejected: give up when no retries remain, otherwise tidy at two
     * remaining, trim, re-derive the payload from the list as it now is, and
     * try again with one retry fewer.
     */
    method Rejected(ghost s: Store, data: Payload, remainingRetries: int) returns (outcome: Outcome)
      requires !accepts(s.writes) && Snapshot() == SetPayload(s, accepts, data).0
      modifies this
      ensures var run := Attempt(s, data, remainingRetries, accepts);
        Snapshot() == run.store && outcome == run.outcome && steps == old(steps) + run.steps
      ensures pending == old(pending)
      decreases Max0(remainingRetries), 1
    {
      if remainingRetries <= 0 {
        AttemptGivesUp(s, data, remainingRetries, accepts);
        steps := steps + [Tried(remainingRetries, false)];
        outcome := NotSaved;
      } else {
        AttemptRetries(s, data, remainingRetries, accepts);
        outcome := Retry(s, data, remainingRetries);
      }
    }

    /**
     * One round after the rejected write of `data` to `s` (the tidy at two
     * remaining and the trim), then the retry with the re-derived payload.
     */
    method Retry(ghost s: Store, data: Payload, remainingRetries: int) returns (outcome: Outcome)
      requires remainingRetries > 0
      requires Snapshot() == SetPayload(s, accepts, data).0
      modifies this
      ensures var s3 := TrimRound(SetPayload(s, accepts, data).0, remainingRetries, accepts);
        var rest := Attempt(s3, Rederive(data, s3), remainingRetries - 1, accepts);
        Snapshot() == rest.store && outcome == rest.outcome
        && steps == old(steps) + RoundSteps(remainingRetries) + rest.steps
      ensures pending == old(pending)
      decreases Max0(remainingRetries), 0
    {
      RetryRound(remainingRetries);
      var next := Rederived(data);
      outcome := AttemptSet(next, remainingRetries - 1);
    }

    /** A tracked payload re-reads the list and moves its key to the front. */
    method Rederived(data: Payload) returns (next: Payload)
      ensures next == Rederive(data, Snapshot())
    {
      next := data;
      if data.list.Some? {
        var l := list;
        l := MoveToFront(l, data.key);
        next := data.(list := Some(l));
      }
    }

    /** The tidy (at two remaining) and the trim that follow a rejected write. */
    method RetryRound(remainingRetries: int)
      modifies this
      ensures Snapshot() == TrimRound(old(Snapshot()), remainingRetries, accepts)
      ensures steps == old(steps) + RoundSteps(remainingRetries)
      ensures pending == old(pending)
    {
      steps := steps + [Tried(remainingRetries, false)];
      if remainingRetries == TidyAtRemaining {
        TidyJishoList();
        steps := steps + [Tidied];
      }
      var _ := TrimJishoCache();
      steps := steps + [Trimmed];
    }

    /** `serializeStorageOperation`: chain `op` after everything already queued. */
    method SerializeStorageOperation(op: Op)
      requires Valid() && ValidOp(op)
      modifies this
      ensures Valid()
      ensures pending == old(pending) + [op]
      ensures Snapshot() == old(Snapshot()) && steps == old(steps)
    {
      pending := pending + [op];
    }

    /** `safeSetToStorage`: queue a write of `data` with `maxRetries` retries. */
    method SafeSetToStorage(data: Payload, maxRetries: int)
      requires Valid() && ValidPayload(data)
      modifies this
      ensures Valid()
      ensures pending == old(pending) + [Data(data, maxRetries)]
      ensures Snapshot() == old(Snapshot()) && steps == old(steps)
    {
      SerializeStorageOperation(Data(data, maxRetries));
    }

    /**
     * `safeSetToStorageWithList`: an untracked key is queued as a plain
     * write; a tracked key is queued as a write that reads the list when it
     * runs and stores the entry together with the updated list. The reserved
     * list key itself is not queued (see README, Findings).
     */
    method SafeSetToStorageWithList(cacheKey: string, html: string)
      requires Valid()
      modifies this
      ensures Valid()
      ensures pending == old(pending) +
        if !IsTracked(cacheKey) then [Data(Payload(cacheKey, html, None), DefaultRetries)]
        else if cacheKey == ListKey then []
        else [WithList(cacheKey, html)]
      ensures Snapshot() == old(Snapshot()) && steps == old(steps)
    {
      if !IsTracked(cacheKey) {
        assert cacheKey != ListKey by { assert ListKey[..|TrackedPrefix|] == TrackedPrefix; }
        SafeSetToStorage(Payload(cacheKey, html, None), DefaultRetries);
      } else if cacheKey != ListKey {
        SerializeStorageOperation(WithList(cacheKey, html));
      }
    }

    /** One queued operation run to completion. */
    method Perform(op: Op) returns (outcome: Outcome)
      requires Valid() && ValidOp(op)
      modifies this
      ensures Valid()
      ensures Snapshot() == CacheModel.Perform(old(Snapshot()), op, accepts).store
      ensures outcome == CacheModel.Perform(old(Snapshot()), op, accepts).outcome
      ensures pending == old(pending)
    {
      PerformValid(Snapshot(), op, accepts);
      match op
      case WithList(cacheKey, html) =>
        var l := list;
        l := MoveToFront(l, cacheKey);
        outcome := AttemptSet(Payload(cacheKey, html, Some(l)), DefaultRetries);
      case Data(data, maxRetries) =>
        outcome := AttemptSet(data, maxRetries);
    }

    /**
     * The promise chain settling: the queued operations run one at a time in
     * submission order, each to completion, and a "cache full" outcome does
     * not stop the ones after it.
     */
    method RunQueue() returns (outcomes: seq<Outcome>)
      requires Valid()
      modifies this
      ensures Valid() && pending == []
      ensures (Snapshot(), outcomes) == RunAll(old(Snapshot()), old(pending), accepts)
    {
      outcomes := [];
      while pending != []
        invariant Valid()
        invariant RunAll(Snapshot(), pending, accepts).0 == RunAll(old(Snapshot()), old(pending), accepts).0
        invariant outcomes + RunAll(Snapshot(), pending, accepts).1 == RunAll(old(Snapshot()), old(pending), accepts).1
        decreases |pending|
      {
        ghost var s := Snapshot();
        ghost var ops := pending;
        RunAllStep(s, ops, accepts);
        var op := pending[0];
        pending := pending[1..];
        assert forall o :: o in pending ==> o in ops;
        var outcome := Perform(op);
        outcomes := outcomes + [outcome];
      }
      assert RunAll(Snapshot(), [], accepts) == (Snapshot(), []);
      assert outcomes + [] == outcomes;
    }
  }
}
