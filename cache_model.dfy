/**
 * The recency cache of helpers.js as pure state transitions.
 *
 * The extension's `chrome.storage.local` is a `Store`: every stored entry
 * except the recency list (`entries`), the recency list stored under
 * "jisho_cache_list" (`list`, where an absent list reads as `[]` because
 * the code always writes `res.jisho_cache_list || []`), and the number of
 * `set` calls made so far (`writes`). Whether a `set` call is accepted is
 * decided by an oracle indexed by that number, which stands for the store's
 * quota errors; a rejected `set` writes nothing. `remove` always succeeds
 * (the code never looks at its error).
 */
module CacheModel {
  import opened Wrappers
  import opened StorageKeys

  /** `{[key]: value}`, or `{[key]: value, jisho_cache_list: list}` for a tracked write. */
  datatype Payload = Payload(key: string, value: string, list: Option<seq<string>>)

  datatype Store = Store(entries: map<string, string>, list: seq<string>, writes: nat)

  /** `accepts(k)`: the k-th `set` call on the store succeeds. */
  type Oracle = nat -> bool

  /** Which continuation ran: `onSuccess` or `onFailure`. */
  datatype Outcome = Saved | NotSaved

  /** What one call of `attemptSet` did at its own level. */
  datatype Step = Tried(remaining: int, accepted: bool) | Tidied | Trimmed

  datatype TrimReport = NothingToTrim | Evicted(key: string, wasStored: bool, listSaved: bool)

  datatype Run = Run(store: Store, outcome: Outcome, steps: seq<Step>)

  /** The operations the storage queue runs: the closures built by
      `safeSetToStorageWithList` and `safeSetToStorage`. */
  datatype Op = WithList(key: string, html: string) | Data(payload: Payload, retries: int)

  /** Retry budget passed by `safeSetToStorageWithList` and the default of `safeSetToStorage`. */
  const DefaultRetries: int := 4

  /** `attemptSet` runs a tidy pass when this many retries remain. */
  const TidyAtRemaining: int := 2

  predicate ValidList(l: seq<string>) {
    NoDup(l) && forall k :: k in l ==> IsTracked(k) && k != ListKey
  }

  /** The shape every reachable store has; drift between list and entries is allowed. */
  predicate ValidStore(s: Store) {
    ListKey !in s.entries && ValidList(s.list)
  }

  predicate ValidPayload(p: Payload) {
    p.key != ListKey && (p.list.Some? ==> IsTracked(p.key) && ValidList(p.list.value))
  }

  predicate ValidOp(op: Op) {
    match op
    case WithList(k, _) => IsTracked(k) && k != ListKey
    case Data(p, _) => ValidPayload(p)
  }

  /** Index and store agree: the list holds exactly the tracked entries. */
  ghost predicate Synced(s: Store) {
    forall k :: k in s.list <==> k in s.entries && IsTracked(k) && k != ListKey
  }

  /** One `chrome.storage.local.set` call: entries `e` and, if given, the list. */
  function Write(s: Store, accepts: Oracle, e: map<string, string>, l: Option<seq<string>>): (Store, bool) {
    if accepts(s.writes) then
      (Store(s.entries + e, if l.Some? then l.value else s.list, s.writes + 1), true)
    else
      (s.(writes := s.writes + 1), false)
  }

  function SetPayload(s: Store, accepts: Oracle, p: Payload): (Store, bool) {
    Write(s, accepts, map[p.key := p.value], p.list)
  }

  // ---------------------------------------------------------------- tidy

  /** `keysForJisho`: stored keys with the tracked prefix, the list key excluded. */
  function TrackedKeys(s: Store): set<string> {
    set k | k in s.entries && IsTracked(k) && k != ListKey
  }

  /** `headlessCache`: tracked entries the list does not mention. */
  function Orphans(s: Store): set<string> {
    set k | k in TrackedKeys(s) && k !in s.list
  }

  /** `newList`: the list filtered to keys that are stored. */
  function RepairedList(s: Store): seq<string> {
    Filter(s.list, InSet(TrackedKeys(s)))
  }

  /** `tidyJishoList`: remove orphans, then write the repaired list if it differs. */
  function Tidy(s: Store, accepts: Oracle): Store {
    var removed := s.(entries := s.entries - Orphans(s));
    var newList := RepairedList(s);
    if newList != s.list then Write(removed, accepts, map[], Some(newList)).0 else removed
  }

  lemma {:induction false} FilterKeepsAll(l: seq<string>, keep: string -> bool)
    requires forall x :: x in l ==> keep(x)
    ensures Filter(l, keep) == l
  {
    if l != [] {
      assert forall x :: x in l[1..] ==> x in l;
      FilterKeepsAll(l[1..], keep);
    }
  }

  /**
   * Tidy removes exactly the tracked entries absent from the list, leaves
   * every other entry as it was, writes at most once and only when the
   * repaired list differs from the stored one.
   */
  lemma {:induction false} TidyRemovesExactlyOrphans(s: Store, accepts: Oracle)
    ensures var t := Tidy(s, accepts);
      && (forall k :: k in t.entries <==> k in s.entries && !(IsTracked(k) && k != ListKey && k !in s.list))
      && (forall k :: k in t.entries ==> t.entries[k] == s.entries[k])
      && t.writes == s.writes + (if RepairedList(s) != s.list then 1 else 0)
  {
  }

  /**
   * When its list write is accepted (or not needed), tidy leaves the list
   * equal to the old list filtered to stored tracked keys, in the same
   * order, and index and store agree afterwards.
   */
  lemma {:induction false} TidyRepairsIndex(s: Store, accepts: Oracle)
    requires RepairedList(s) != s.list ==> accepts(s.writes)
    ensures var t := Tidy(s, accepts);
      && t.list == Filter(s.list, InSet(TrackedKeys(s)))
      && IsSubsequence(t.list, s.list)
      && (forall k :: k in t.list <==> k in s.list && k in s.entries && IsTracked(k) && k != ListKey)
      && Synced(t)
  {
    FilterSubsequence(s.list, InSet(TrackedKeys(s)));
  }

  /** A rejected list write leaves the list as it was (the orphans are still removed). */
  lemma {:induction false} TidyRejectedKeepsList(s: Store, accepts: Oracle)
    requires RepairedList(s) != s.list && !accepts(s.writes)
    ensures Tidy(s, accepts).list == s.list
    ensures Tidy(s, accepts).entries == s.entries - Orphans(s)
  {
  }

  /** A second tidy after a completed one removes nothing and writes nothing. */
  lemma {:induction false} TidyIdempotent(s: Store, accepts: Oracle)
    requires RepairedList(s) != s.list ==> accepts(s.writes)
    ensures Tidy(Tidy(s, accepts), accepts) == Tidy(s, accepts)
  {
    var t := Tidy(s, accepts);
    TidyRepairsIndex(s, accepts);
    assert Orphans(t) == {};
    assert t.entries - Orphans(t) == t.entries;
    FilterKeepsAll(t.list, InSet(TrackedKeys(t)));
  }

  lemma {:induction false} TidyValid(s: Store, accepts: Oracle)
    requires ValidStore(s)
    ensures ValidStore(Tidy(s, accepts))
  {
    if RepairedList(s) != s.list {
      FilterNoDup(s.list, InSet(TrackedKeys(s)));
    }
  }

  /** Tidy never touches an untracked entry. */
  lemma {:induction false} TidyKeepsUntracked(s: Store, accepts: Oracle, k: string)
    requires !IsTracked(k) && k in s.entries
    ensures k in Tidy(s, accepts).entries && Tidy(s, accepts).entries[k] == s.entries[k]
  {
  }

  // ---------------------------------------------------------------- trim

  /**
   * `trimJishoCache`: pop the least recently used key, remove its entry,
   * persist the shortened list and fall back to a tidy pass when that
   * write is rejected. The callback runs once on every path, which the
   * caller sees as this function returning.
   */
  function Trim(s: Store, accepts: Oracle): (Store, TrimReport) {
    if s.list == [] then (s, NothingToTrim)
    else
      var key := s.list[|s.list| - 1];
      var shortened := s.list[..|s.list| - 1];
      var removed := s.(entries := s.entries - {key});
      var (w, ok) := Write(removed, accepts, map[], Some(shortened));
      if ok then (w, Evicted(key, key in s.entries, true))
      else (Tidy(w, accepts), Evicted(key, key in s.entries, false))
  }

  /** On an empty list trim removes nothing and writes nothing. */
  lemma {:induction false} TrimEmpty(s: Store, accepts: Oracle)
    requires s.list == []
    ensures Trim(s, accepts) == (s, NothingToTrim)
  {
  }

  /**
   * On a non-empty list trim evicts the last key (a missing entry is only
   * reported). When the list write is accepted the new state is the old one
   * without that entry and without the last list element. When it is
   * rejected, the fallback tidy writes the repaired list, which drops the
   * evicted key and keeps the order of the rest; if that write is rejected
   * too, the list stays as it was.
   */
  lemma {:induction false} TrimEvictsOldest(s: Store, accepts: Oracle)
    requires s.list != []
    ensures var (t, report) := Trim(s, accepts);
      var key := s.list[|s.list| - 1];
      && report.Evicted? && report.key == key && report.wasStored == (key in s.entries)
      && report.listSaved == accepts(s.writes)
      && key !in t.entries
      && (accepts(s.writes) ==> t == Store(s.entries - {key}, s.list[..|s.list| - 1], s.writes + 1))
      && (!accepts(s.writes) && accepts(s.writes + 1) ==> key !in t.list && IsSubsequence(t.list, s.list))
      && (!accepts(s.writes) && !accepts(s.writes + 1) ==> t.list == s.list)
  {
    if !accepts(s.writes) {
      TrimFallbackTidy(s, accepts);
    }
  }

  /** The tidy that follows a rejected list write of trim. */
  lemma {:induction false} TrimFallbackTidy(s: Store, accepts: Oracle)
    requires s.list != [] && !accepts(s.writes)
    ensures var key := s.list[|s.list| - 1];
      var w := s.(entries := s.entries - {key}, writes := s.writes + 1);
      && Trim(s, accepts).0 == Tidy(w, accepts)
      && (accepts(w.writes) ==> key !in Tidy(w, accepts).list && IsSubsequence(Tidy(w, accepts).list, s.list))
      && (!accepts(w.writes) ==> Tidy(w, accepts).list == s.list)
  {
    var key := s.list[|s.list| - 1];
    var w := s.(entries := s.entries - {key}, writes := s.writes + 1);
    assert key in w.list && key !in RepairedList(w);
    if accepts(w.writes) {
      TidyRepairsIndex(w, accepts);
    } else {
      TidyRejectedKeepsList(w, accepts);
    }
  }

  /** Trimming [a, b, c] evicts c, then b, then a, then finds the list empty. */
  lemma {:induction false} TrimInOrder(s: Store, accepts: Oracle, a: string, b: string, c: string)
    requires s.list == [a, b, c]
    requires forall k :: accepts(k)
    ensures var (s1, r1) := Trim(s, accepts);
      var (s2, r2) := Trim(s1, accepts);
      var (s3, r3) := Trim(s2, accepts);
      var (s4, r4) := Trim(s3, accepts);
      && r1 == Evicted(c, c in s.entries, true)
      && r2.Evicted? && r2.key == b
      && r3.Evicted? && r3.key == a
      && r4 == NothingToTrim
      && s4.list == []
  {
    var (s1, r1) := Trim(s, accepts);
    assert s1.list == [a, b];
    var (s2, r2) := Trim(s1, accepts);
    assert s2.list == [a];
  }

  lemma {:induction false} TrimValid(s: Store, accepts: Oracle)
    requires ValidStore(s)
    ensures ValidStore(Trim(s, accepts).0)
  {
    if s.list != [] {
      var key := s.list[|s.list| - 1];
      var shortened := s.list[..|s.list| - 1];
      assert forall k :: k in shortened ==> k in s.list;
      var removed := s.(entries := s.entries - {key});
      var (w, ok) := Write(removed, accepts, map[], Some(shortened));
      if !ok { TidyValid(w, accepts); }
    }
  }

  /** Eviction only ever removes tracked entries: an untracked entry survives a trim. */
  lemma {:induction false} TrimKeepsUntracked(s: Store, accepts: Oracle, k: string)
    requires ValidStore(s) && !IsTracked(k) && k in s.entries
    ensures k in Trim(s, accepts).0.entries && Trim(s, accepts).0.entries[k] == s.entries[k]
  {
    if s.list != [] {
      var key := s.list[|s.list| - 1];
      assert key in s.list;
      var removed := s.(entries := s.entries - {key});
      var (w, ok) := Write(removed, accepts, map[], Some(s.list[..|s.list| - 1]));
      if !ok { TidyKeepsUntracked(w, accepts, k); }
    }
  }

  // ---------------------------------------------------------- attemptSet

  /**
   * `attemptSet(data, onSuccess, onFailure, remainingRetries)`: write the
   * payload; on rejection tidy when two retries remain, give up when none
   * remain, otherwise trim, re-derive the list of a tracked payload from the
   * trimmed store, and retry with one retry fewer.
   */
  function Attempt(s: Store, p: Payload, remaining: int, accepts: Oracle): Run
    decreases if remaining > 0 then remaining else 0
  {
    var (s1, ok) := SetPayload(s, accepts, p);
    if ok then Run(s1, Saved, [Tried(remaining, true)])
    else if remaining <= 0 then Run(s1, NotSaved, [Tried(remaining, false)])
    else
      var s3 := TrimRound(s1, remaining, accepts);
      var rest := Attempt(s3, Rederive(p, s3), remaining - 1, accepts);
      Run(rest.store, rest.outcome, RoundSteps(remaining) + rest.steps)
  }

  /** The tidy (at two remaining) and trim that follow a rejected write with retries left. */
  function TrimRound(s1: Store, remaining: int, accepts: Oracle): Store {
    Trim(if remaining == TidyAtRemaining then Tidy(s1, accepts) else s1, accepts).0
  }

  /** A tracked payload gets the re-read list with its key moved to the front. */
  function Rederive(p: Payload, s: Store): Payload {
    if p.list.Some? then p.(list := Some(MoveToFront(s.list, p.key))) else p
  }

  function RoundSteps(remaining: int): seq<Step> {
    [Tried(remaining, false)] + (if remaining == TidyAtRemaining then [Tidied] else []) + [Trimmed]
  }

  /** `attemptSet` when the first write is accepted: one try, nothing else. */
  lemma {:induction false} AttemptAccepted(s: Store, p: Payload, remaining: int, accepts: Oracle)
    requires accepts(s.writes)
    ensures Attempt(s, p, remaining, accepts) ==
      Run(SetPayload(s, accepts, p).0, Saved, [Tried(remaining, true)])
  {
  }

  /** `attemptSet` when the first write is rejected and no retries remain: `onFailure`. */
  lemma {:induction false} AttemptGivesUp(s: Store, p: Payload, remaining: int, accepts: Oracle)
    requires !accepts(s.writes) && remaining <= 0
    ensures Attempt(s, p, remaining, accepts) ==
      Run(s.(writes := s.writes + 1), NotSaved, [Tried(remaining, false)])
  {
  }

  /** `attemptSet` when the first write is rejected with retries left: one round, then the retry. */
  lemma {:induction false} AttemptRetries(s: Store, p: Payload, remaining: int, accepts: Oracle)
    requires !accepts(s.writes) && remaining > 0
    ensures var s3 := TrimRound(SetPayload(s, accepts, p).0, remaining, accepts);
      var rest := Attempt(s3, Rederive(p, s3), remaining - 1, accepts);
      Attempt(s, p, remaining, accepts) == Run(rest.store, rest.outcome, RoundSteps(remaining) + rest.steps)
  {
  }

  /** Writing a valid payload keeps the store valid, whatever the verdict. */
  lemma {:induction false} SetPayloadValid(s: Store, p: Payload, accepts: Oracle)
    requires ValidStore(s) && ValidPayload(p)
    ensures ValidStore(SetPayload(s, accepts, p).0)
  {
  }

  /** A first write that is accepted stores the payload and ends: no trim, no tidy, no retry. */
  lemma {:induction false} AttemptFirstWriteAccepted(s: Store, p: Payload, remaining: int, accepts: Oracle)
    requires accepts(s.writes)
    ensures var run := Attempt(s, p, remaining, accepts);
      && run.outcome == Saved
      && run.steps == [Tried(remaining, true)]
      && run.store.entries == s.entries[p.key := p.value]
      && run.store.list == (if p.list.Some? then p.list.value else s.list)
      && run.store.writes == s.writes + 1
  {
  }

  /** The steps of `attemptSet` when every write is rejected. */
  function FailSteps(remaining: int): seq<Step>
    decreases if remaining > 0 then remaining else 0
  {
    if remaining <= 0 then [Tried(remaining, false)]
    else RoundSteps(remaining) + FailSteps(remaining - 1)
  }

  /** Every write rejected: `onFailure` runs and the steps are `FailSteps(remaining)`. */
  lemma {:induction false} AttemptAllRejected(s: Store, p: Payload, remaining: int, accepts: Oracle)
    requires forall k :: !accepts(k)
    ensures Attempt(s, p, remaining, accepts).outcome == NotSaved
    ensures Attempt(s, p, remaining, accepts).steps == FailSteps(remaining)
    decreases if remaining > 0 then remaining else 0
  {
    var s1 := SetPayload(s, accepts, p).0;
    if remaining > 0 {
      var s3 := TrimRound(s1, remaining, accepts);
      AttemptAllRejected(s3, Rederive(p, s3), remaining - 1, accepts);
    }
  }

  datatype StepKind = TryKind | TidyKind | TrimKind

  function KindOf(st: Step): StepKind {
    match st
    case Tried(_, _) => TryKind
    case Tidied => TidyKind
    case Trimmed => TrimKind
  }

  /** Number of steps of the given kind. */
  function CountOf(steps: seq<Step>, kind: StepKind): nat {
    if steps == [] then 0 else (if KindOf(steps[0]) == kind then 1 else 0) + CountOf(steps[1..], kind)
  }

  lemma {:induction false} CountOfConcat(a: seq<Step>, b: seq<Step>, kind: StepKind)
    ensures CountOf(a + b, kind) == CountOf(a, kind) + CountOf(b, kind)
  {
    if a != [] {
      assert (a + b)[0] == a[0];
      assert (a + b)[1..] == a[1..] + b;
      CountOfConcat(a[1..], b, kind);
    } else {
      assert a + b == b;
    }
  }

  /** One retry round holds one rejected write, one trim, and the tidy when two retries remain. */
  lemma {:induction false} RoundStepsCounts(remaining: int, kind: StepKind)
    ensures CountOf(RoundSteps(remaining), kind) ==
      match kind
      case TryKind => 1
      case TrimKind => 1
      case TidyKind => if remaining == TidyAtRemaining then 1 else 0
  {
    var tidied: seq<Step> := if remaining == TidyAtRemaining then [Tidied] else [];
    assert RoundSteps(remaining) == [Tried(remaining, false)] + (tidied + [Trimmed]);
    CountOfConcat([Tried(remaining, false)], tidied + [Trimmed], kind);
    CountOfConcat(tidied, [Trimmed], kind);
  }

  function Max0(n: int): nat { if n > 0 then n else 0 }

  /**
   * With every write rejected and budget N: N + 1 write attempts, N trims,
   * and one tidy exactly when N >= 2.
   */
  lemma {:induction false} FailStepsCounts(remaining: int)
    ensures CountOf(FailSteps(remaining), TryKind) == Max0(remaining) + 1
    ensures CountOf(FailSteps(remaining), TrimKind) == Max0(remaining)
    ensures CountOf(FailSteps(remaining), TidyKind) == if remaining >= TidyAtRemaining then 1 else 0
    decreases if remaining > 0 then remaining else 0
  {
    if remaining > 0 {
      FailStepsCounts(remaining - 1);
      RoundStepsCounts(remaining, TryKind);
      RoundStepsCounts(remaining, TrimKind);
      RoundStepsCounts(remaining, TidyKind);
      CountOfConcat(RoundSteps(remaining), FailSteps(remaining - 1), TryKind);
      CountOfConcat(RoundSteps(remaining), FailSteps(remaining - 1), TrimKind);
      CountOfConcat(RoundSteps(remaining), FailSteps(remaining - 1), TidyKind);
    }
  }

  /**
   * The tidy of a budget N >= 2 comes right after the rejected write at two
   * remaining and before that round's trim.
   */
  lemma {:induction false} FailStepsTidyPlace(remaining: int)
    requires remaining >= TidyAtRemaining
    ensures var steps := FailSteps(remaining);
      var i := 2 * (remaining - TidyAtRemaining) + 1;
      && i + 1 < |steps|
      && steps[i - 1] == Tried(TidyAtRemaining, false) && steps[i] == Tidied && steps[i + 1] == Trimmed
    decreases remaining
  {
    if remaining > TidyAtRemaining {
      FailStepsTidyPlace(remaining - 1);
      assert FailSteps(remaining) == [Tried(remaining, false), Trimmed] + FailSteps(remaining - 1);
    } else {
      assert FailSteps(remaining) == [Tried(2, false), Tidied, Trimmed] + FailSteps(1);
    }
  }

  /**
   * On any mix of accepted and rejected writes: the last step is the write
   * whose verdict decided the outcome, every earlier write was rejected and
   * followed by one trim, there are at most `remaining + 1` writes, and a
   * saved payload is in the store (a tracked one at the front of the list).
   */
  lemma {:induction false} AttemptShape(s: Store, p: Payload, remaining: int, accepts: Oracle)
    ensures var run := Attempt(s, p, remaining, accepts);
      && |run.steps| > 0 && run.steps[|run.steps| - 1].Tried?
      && (run.outcome == Saved <==> run.steps[|run.steps| - 1].accepted)
      && (forall i :: 0 <= i < |run.steps| - 1 && run.steps[i].Tried? ==> !run.steps[i].accepted)
      && CountOf(run.steps, TryKind) == CountOf(run.steps, TrimKind) + 1
      && CountOf(run.steps, TryKind) <= Max0(remaining) + 1
      && (run.outcome == Saved ==> p.key in run.store.entries && run.store.entries[p.key] == p.value)
      && (run.outcome == Saved && p.list.Some? && p.list.value != [] && p.list.value[0] == p.key ==>
            run.store.list != [] && run.store.list[0] == p.key)
  {
    AttemptSteps(s, p, remaining, accepts);
    AttemptEarlierRejected(s, p, remaining, accepts);
    AttemptSaves(s, p, remaining, accepts);
  }

  /** Every try of `attemptSet` before the last one was rejected: a save ends the run. */
  lemma {:induction false} AttemptEarlierRejected(s: Store, p: Payload, remaining: int, accepts: Oracle)
    ensures var steps := Attempt(s, p, remaining, accepts).steps;
      forall i :: 0 <= i < |steps| - 1 && steps[i].Tried? ==> !steps[i].accepted
    decreases if remaining > 0 then remaining else 0
  {
    if !accepts(s.writes) && remaining > 0 {
      var s1 := SetPayload(s, accepts, p).0;
      var s3 := TrimRound(s1, remaining, accepts);
      var next := Rederive(p, s3);
      var rest := Attempt(s3, next, remaining - 1, accepts).steps;
      var round := RoundSteps(remaining);
      AttemptRetries(s, p, remaining, accepts);
      AttemptEarlierRejected(s3, next, remaining - 1, accepts);
      var steps := round + rest;
      forall i | 0 <= i < |steps| - 1 && steps[i].Tried?
        ensures !steps[i].accepted
      {
        if i >= |round| {
          assert steps[i] == rest[i - |round|];
        }
      }
    }
  }

  /** The step log of `attemptSet`: tries and trims alternate, ending with the deciding try. */
  lemma {:induction false} AttemptSteps(s: Store, p: Payload, remaining: int, accepts: Oracle)
    ensures var run := Attempt(s, p, remaining, accepts);
      && |run.steps| > 0 && run.steps[|run.steps| - 1].Tried?
      && (run.outcome == Saved <==> run.steps[|run.steps| - 1].accepted)
      && CountOf(run.steps, TryKind) == CountOf(run.steps, TrimKind) + 1
      && CountOf(run.steps, TryKind) <= Max0(remaining) + 1
    decreases if remaining > 0 then remaining else 0
  {
    if !accepts(s.writes) && remaining > 0 {
      var s1 := SetPayload(s, accepts, p).0;
      var s3 := TrimRound(s1, remaining, accepts);
      var next := Rederive(p, s3);
      var rest := Attempt(s3, next, remaining - 1, accepts);
      AttemptRetries(s, p, remaining, accepts);
      AttemptSteps(s3, next, remaining - 1, accepts);
      RoundStepsCounts(remaining, TryKind);
      RoundStepsCounts(remaining, TrimKind);
      CountOfConcat(RoundSteps(remaining), rest.steps, TryKind);
      CountOfConcat(RoundSteps(remaining), rest.steps, TrimKind);
    }
  }

  /** What a saved `attemptSet` leaves in the store: the payload, a tracked one at the front of the list. */
  lemma {:induction false} AttemptSaves(s: Store, p: Payload, remaining: int, accepts: Oracle)
    ensures var run := Attempt(s, p, remaining, accepts);
      && (run.outcome == Saved ==> p.key in run.store.entries && run.store.entries[p.key] == p.value)
      && (run.outcome == Saved && p.list.Some? && p.list.value != [] && p.list.value[0] == p.key ==>
            run.store.list != [] && run.store.list[0] == p.key)
    decreases if remaining > 0 then remaining else 0
  {
    if !accepts(s.writes) && remaining > 0 {
      var s1 := SetPayload(s, accepts, p).0;
      var s3 := TrimRound(s1, remaining, accepts);
      var next := Rederive(p, s3);
      AttemptRetries(s, p, remaining, accepts);
      AttemptSaves(s3, next, remaining - 1, accepts);
      if p.list.Some? {
        MoveToFrontSpec(s3.list, p.key);
      }
    }
  }

  /** The list of a re-derived tracked payload is still a valid list. */
  lemma {:induction false} RederiveValid(p: Payload, s: Store)
    requires ValidStore(s) && ValidPayload(p)
    ensures ValidPayload(Rederive(p, s))
  {
    if p.list.Some? {
      MoveToFrontSpec(s.list, p.key);
      var l := MoveToFront(s.list, p.key);
      forall k | k in l ensures IsTracked(k) && k != ListKey {
        if k != p.key { assert multiset(l)[k] == multiset(s.list)[k]; }
      }
    }
  }

  lemma {:induction false} TrimRoundValid(s1: Store, remaining: int, accepts: Oracle)
    requires ValidStore(s1)
    ensures ValidStore(TrimRound(s1, remaining, accepts))
  {
    var s2 := if remaining == TidyAtRemaining then Tidy(s1, accepts) else s1;
    TidyValid(s1, accepts);
    TrimValid(s2, accepts);
  }

  lemma {:induction false} AttemptValid(s: Store, p: Payload, remaining: int, accepts: Oracle)
    requires ValidStore(s) && ValidPayload(p)
    ensures ValidStore(Attempt(s, p, remaining, accepts).store)
    decreases if remaining > 0 then remaining else 0
  {
    var s1 := SetPayload(s, accepts, p).0;
    if !accepts(s.writes) && remaining > 0 {
      var s3 := TrimRound(s1, remaining, accepts);
      TrimRoundValid(s1, remaining, accepts);
      RederiveValid(p, s3);
      AttemptValid(s3, Rederive(p, s3), remaining - 1, accepts);
    }
  }

  /** An untracked entry other than the payload's key survives `attemptSet` unchanged. */
  lemma {:induction false} AttemptKeepsUntracked(s: Store, p: Payload, remaining: int, accepts: Oracle, k: string)
    requires ValidStore(s) && ValidPayload(p)
    requires !IsTracked(k) && k != p.key && k in s.entries
    ensures var t := Attempt(s, p, remaining, accepts).store;
      k in t.entries && t.entries[k] == s.entries[k]
    decreases if remaining > 0 then remaining else 0
  {
    if !accepts(s.writes) && remaining > 0 {
      var s1 := SetPayload(s, accepts, p).0;
      SetPayloadValid(s, p, accepts);
      var s3 := TrimRound(s1, remaining, accepts);
      RoundKeepsUntracked(s1, remaining, accepts, k);
      RederiveValid(p, s3);
      AttemptRetries(s, p, remaining, accepts);
      AttemptKeepsUntracked(s3, Rederive(p, s3), remaining - 1, accepts, k);
    }
  }

  /** The tidy and trim of one retry round leave an untracked entry alone. */
  lemma {:induction false} RoundKeepsUntracked(s1: Store, remaining: int, accepts: Oracle, k: string)
    requires ValidStore(s1) && !IsTracked(k) && k in s1.entries
    ensures var s3 := TrimRound(s1, remaining, accepts);
      ValidStore(s3) && k in s3.entries && s3.entries[k] == s1.entries[k]
  {
    var s2 := if remaining == TidyAtRemaining then Tidy(s1, accepts) else s1;
    TidyKeepsUntracked(s1, accepts, k);
    TidyValid(s1, accepts);
    TrimKeepsUntracked(s2, accepts, k);
    TrimRoundValid(s1, remaining, accepts);
  }

  // ------------------------------------------------------ storage queue

  /** One operation of the queue run to completion. */
  function Perform(s: Store, op: Op, accepts: Oracle): Run {
    match op
    case WithList(k, html) => Attempt(s, Payload(k, html, Some(MoveToFront(s.list, k))), DefaultRetries, accepts)
    case Data(p, retries) => Attempt(s, p, retries, accepts)
  }

  /** The queue drained in submission order by `step`; one outcome per operation. */
  function Drain(s: Store, ops: seq<Op>, step: (Store, Op) -> Run): (Store, seq<Outcome>)
    decreases |ops|
  {
    if ops == [] then (s, [])
    else
      var first := step(s, ops[0]);
      var rest := Drain(first.store, ops[1..], step);
      (rest.0, [first.outcome] + rest.1)
  }

  function Performer(accepts: Oracle): (Store, Op) -> Run {
    (s: Store, op: Op) => Perform(s, op, accepts)
  }

  /** The storage queue run against the store. */
  function RunAll(s: Store, ops: seq<Op>, accepts: Oracle): (Store, seq<Outcome>) {
    Drain(s, ops, Performer(accepts))
  }

  /** The queue runs its first operation to completion, then the rest from the store it left. */
  lemma {:induction false} RunAllStep(s: Store, ops: seq<Op>, accepts: Oracle)
    requires ops != []
    ensures var first := Perform(s, ops[0], accepts);
      var rest := RunAll(first.store, ops[1..], accepts);
      RunAll(s, ops, accepts) == (rest.0, [first.outcome] + rest.1)
  {
    assert Performer(accepts)(s, ops[0]) == Perform(s, ops[0], accepts);
  }

  lemma {:induction false} PerformValid(s: Store, op: Op, accepts: Oracle)
    requires ValidStore(s) && ValidOp(op)
    ensures ValidStore(Perform(s, op, accepts).store)
  {
    match op
    case WithList(k, html) =>
      var p := Payload(k, html, Some(MoveToFront(s.list, k)));
      RederiveValid(Payload(k, html, Some(s.list)), s);
      AttemptValid(s, p, DefaultRetries, accepts);
    case Data(p, retries) =>
      AttemptValid(s, p, retries, accepts);
  }

  /** Each operation is run exactly once, whatever the outcome of the ones before it. */
  lemma {:induction false} DrainRunsEach(s: Store, ops: seq<Op>, step: (Store, Op) -> Run)
    ensures |Drain(s, ops, step).1| == |ops|
    ensures forall i :: 0 <= i < |ops| && i < |Drain(s, ops, step).1| ==>
      Drain(s, ops, step).1[i] == step(Drain(s, ops[..i], step).0, ops[i]).outcome
    decreases |ops|
  {
    if ops != [] {
      var first := step(s, ops[0]);
      DrainRunsEach(first.store, ops[1..], step);
      forall i | 0 < i < |ops| && i < |Drain(s, ops, step).1|
        ensures Drain(s, ops, step).1[i] == step(Drain(s, ops[..i], step).0, ops[i]).outcome
      {
        assert ops[..i][0] == ops[0];
        assert ops[..i][1..] == ops[1..][..i - 1];
      }
      assert Drain(s, ops[..0], step).0 == s by { assert ops[..0] == []; }
    }
  }

  /** Draining `a + b` is draining `a` and then `b`. */
  lemma {:induction false} DrainAppend(s: Store, a: seq<Op>, b: seq<Op>, step: (Store, Op) -> Run)
    ensures Drain(s, a + b, step).0 == Drain(Drain(s, a, step).0, b, step).0
    ensures Drain(s, a + b, step).1 == Drain(s, a, step).1 + Drain(Drain(s, a, step).0, b, step).1
    decreases |a|
  {
    if a == [] {
      assert a + b == b;
    } else {
      assert (a + b)[0] == a[0];
      assert (a + b)[1..] == a[1..] + b;
      DrainAppend(step(s, a[0]).store, a[1..], b, step);
    }
  }

  /** The store keeps its shape through the whole queue. */
  lemma {:induction false} RunAllValid(s: Store, ops: seq<Op>, accepts: Oracle)
    requires ValidStore(s) && forall op :: op in ops ==> ValidOp(op)
    ensures ValidStore(RunAll(s, ops, accepts).0)
    decreases |ops|
  {
    if ops != [] {
      PerformValid(s, ops[0], accepts);
      assert forall op :: op in ops[1..] ==> op in ops;
      RunAllValid(Perform(s, ops[0], accepts).store, ops[1..], accepts);
    }
  }

  /** Two queued operations: the second runs on the store the first left. */
  lemma {:induction false} RunAllPair(s: Store, first: Op, second: Op, accepts: Oracle)
    ensures RunAll(s, [first, second], accepts).0 ==
      Perform(Perform(s, first, accepts).store, second, accepts).store
  {
    var ops := [first, second];
    RunAllStep(s, ops, accepts);
    var s1 := Perform(s, first, accepts).store;
    assert ops[1..] == [second];
    RunAllStep(s1, [second], accepts);
    var s2 := Perform(s1, second, accepts).store;
    assert [second][1..] == [];
    assert RunAll(s2, [], accepts).0 == s2;
  }

  /** The list an operation writes when run on `s`. */
  function OpList(s: Store, op: Op): seq<string> {
    match op
    case WithList(k, _) => MoveToFront(s.list, k)
    case Data(p, _) => if p.list.Some? then p.list.value else s.list
  }

  /** An operation whose first write is accepted stores its entry and its list, and nothing else. */
  lemma {:induction false} PerformAccepted(s: Store, op: Op, accepts: Oracle)
    requires accepts(s.writes)
    ensures Perform(s, op, accepts).store ==
      Store(s.entries[OpKey(op) := OpValue(op)], OpList(s, op), s.writes + 1)
  {
    match op
    case WithList(k, html) =>
      AttemptFirstWriteAccepted(s, Payload(k, html, Some(MoveToFront(s.list, k))), DefaultRetries, accepts);
    case Data(p, retries) =>
      AttemptFirstWriteAccepted(s, p, retries, accepts);
  }

  /** The key and value an operation writes. */
  function OpKey(op: Op): string {
    match op
    case WithList(k, _) => k
    case Data(p, _) => p.key
  }

  function OpValue(op: Op): string {
    match op
    case WithList(_, html) => html
    case Data(p, _) => p.value
  }

  /**
   * Ordering: when the last queued operation is saved, the store holds its
   * value for its key, whatever was queued before it.
   */
  lemma {:induction false} LastWriteWins(s: Store, ops: seq<Op>, last: Op, accepts: Oracle)
    ensures var (t, outs) := RunAll(s, ops + [last], accepts);
      |outs| == |ops| + 1 &&
      (outs[|ops|] == Saved ==> OpKey(last) in t.entries && t.entries[OpKey(last)] == OpValue(last))
  {
    var step := Performer(accepts);
    DrainLast(s, ops, last, step);
    var mid := Drain(s, ops, step).0;
    assert step(mid, last) == Perform(mid, last, accepts);
    PerformSavedStores(mid, last, accepts);
  }

  lemma {:induction false} DrainLast(s: Store, ops: seq<Op>, last: Op, step: (Store, Op) -> Run)
    ensures var mid := Drain(s, ops, step).0;
      Drain(s, ops + [last], step) == (step(mid, last).store, Drain(s, ops, step).1 + [step(mid, last).outcome])
    ensures |Drain(s, ops, step).1| == |ops|
  {
    DrainAppend(s, ops, [last], step);
    DrainRunsEach(s, ops, step);
    var mid := Drain(s, ops, step).0;
    var r := step(mid, last);
    assert [last][1..] == [];
    assert Drain(r.store, [], step) == (r.store, []);
    assert [r.outcome] + [] == [r.outcome];
    assert Drain(mid, [last], step) == (r.store, [r.outcome] + []);
  }

  /** A saved operation leaves its value under its key. */
  lemma {:induction false} PerformSavedStores(s: Store, op: Op, accepts: Oracle)
    ensures var r := Perform(s, op, accepts);
      r.outcome == Saved ==> OpKey(op) in r.store.entries && r.store.entries[OpKey(op)] == OpValue(op)
  {
    match op
    case WithList(k, html) =>
      AttemptShape(s, Payload(k, html, Some(MoveToFront(s.list, k))), DefaultRetries, accepts);
    case Data(p, retries) =>
      AttemptShape(s, p, retries, accepts);
  }

  /** Two puts of the same key with every write accepted leave the later value. */
  lemma {:induction false} PutTwiceKeepsLater(s: Store, x: string, v1: string, v2: string, accepts: Oracle)
    requires forall k :: accepts(k)
    ensures var (t, outs) := RunAll(s, [WithList(x, v1), WithList(x, v2)], accepts);
      outs == [Saved, Saved] && x in t.entries && t.entries[x] == v2 && t.list != [] && t.list[0] == x
  {
    var step := Performer(accepts);
    var r1 := Perform(s, WithList(x, v1), accepts);
    AttemptFirstWriteAccepted(s, Payload(x, v1, Some(MoveToFront(s.list, x))), DefaultRetries, accepts);
    var r2 := Perform(r1.store, WithList(x, v2), accepts);
    AttemptFirstWriteAccepted(r1.store, Payload(x, v2, Some(MoveToFront(r1.store.list, x))), DefaultRetries, accepts);
    assert step(s, WithList(x, v1)) == r1;
    assert step(r1.store, WithList(x, v2)) == r2;
    assert [WithList(x, v1), WithList(x, v2)][1..] == [WithList(x, v2)];
    assert [WithList(x, v2)][1..] == [];
    assert Drain(r2.store, [], step) == (r2.store, []);
    assert [r2.outcome] + [] == [r2.outcome];
    assert Drain(r1.store, [WithList(x, v2)], step) == (r2.store, [r2.outcome] + []);
  }

  /** An untracked entry is never evicted by the queue unless an operation writes that key itself. */
  lemma {:induction false} RunAllKeepsUntracked(s: Store, ops: seq<Op>, accepts: Oracle, k: string)
    requires ValidStore(s) && forall op :: op in ops ==> ValidOp(op) && OpKey(op) != k
    requires !IsTracked(k) && k in s.entries
    ensures k in RunAll(s, ops, accepts).0.entries && RunAll(s, ops, accepts).0.entries[k] == s.entries[k]
    decreases |ops|
  {
    if ops != [] {
      var s1 := Perform(s, ops[0], accepts).store;
      assert Performer(accepts)(s, ops[0]).store == s1;
      PerformValid(s, ops[0], accepts);
      PerformKeepsUntracked(s, ops[0], accepts, k);
      assert forall op :: op in ops[1..] ==> op in ops;
      RunAllKeepsUntracked(s1, ops[1..], accepts, k);
    }
  }

  lemma {:induction false} PerformKeepsUntracked(s: Store, op: Op, accepts: Oracle, k: string)
    requires ValidStore(s) && ValidOp(op) && OpKey(op) != k
    requires !IsTracked(k) && k in s.entries
    ensures k in Perform(s, op, accepts).store.entries && Perform(s, op, accepts).store.entries[k] == s.entries[k]
  {
    match op
    case WithList(key, html) =>
      RederiveValid(Payload(key, html, Some(s.list)), s);
      AttemptKeepsUntracked(s, Payload(key, html, Some(MoveToFront(s.list, key))), DefaultRetries, accepts, k);
    case Data(p, retries) =>
      AttemptKeepsUntracked(s, p, retries, accepts, k);
  }

  // ------------------------------------------ the reserved list key

  /** What a stored value is: text, or the recency list. */
  datatype Stored = Text(text: string) | Keys(keys: seq<string>)

  /**
   * The object literal `{[key]: value, jisho_cache_list: list}` that a
   * tracked write hands to the store, as written: when two properties have
   * the same name, the later one replaces the earlier one.
   */
  function ObjectLiteral(key: string, value: string, list: seq<string>): map<string, Stored> {
    map[key := Text(value)][ListKey := Keys(list)]
  }

  /**
   * As written, a tracked write whose key is the reserved list key loses its
   * value: the object holds only the list, and that list records the
   * reserved key as if it were an entry.
   */
  lemma {:induction false} ReservedKeyLosesEntry(value: string, list: seq<string>)
    ensures var l := MoveToFront(list, ListKey);
      && ObjectLiteral(ListKey, value, l) == map[ListKey := Keys(l)]
      && Text(value) !in ObjectLiteral(ListKey, value, l).Values
      && ListKey in l
  {
    MoveToFrontSpec(list, ListKey);
  }

  /** With any other tracked key the object carries both the entry and the list. */
  lemma {:induction false} EntryObjectKeepsBoth(key: string, value: string, list: seq<string>)
    requires IsTracked(key) && key != ListKey
    ensures var o := ObjectLiteral(key, value, list);
      o.Keys == {key, ListKey} && o[key] == Text(value) && o[ListKey] == Keys(list)
  {
  }
}
