/** Option type shared by all modules of the model. */
module Wrappers {
  datatype Option<+T> = None | Some(value: T)
}

/**
 * The key namespace of the extension's local store and the list
 * operations that maintain the recency list ("jisho_cache_list").
 */
module StorageKeys {

  /** Keys starting with this prefix are tracked by the recency list. */
  const TrackedPrefix: string := "jisho_cache_"

  /** The reserved key under which the recency list itself is stored. */
  const ListKey: string := "jisho_cache_list"

  /** `key.startsWith("jisho_cache_")` */
  predicate IsTracked(key: string) {
    TrackedPrefix <= key
  }

  /** No key occurs twice. */
  predicate NoDup(l: seq<string>) {
    forall i, j :: 0 <= i < j < |l| ==> l[i] != l[j]
  }

  /** `a` is obtained from `b` by deleting elements, keeping the order of the rest. */
  predicate IsSubsequence(a: seq<string>, b: seq<string>)
    decreases |b|
  {
    a == [] || (b != [] && (IsSubsequence(a, b[1..]) || (a[0] == b[0] && IsSubsequence(a[1..], b[1..]))))
  }

  /** `l.filter(keep)`: the elements satisfying `keep`, in their original order. */
  function Filter(l: seq<string>, keep: string -> bool): (r: seq<string>)
    ensures |r| <= |l|
    ensures forall x :: x in r <==> x in l && keep(x)
  {
    if l == [] then []
    else
      var rest := Filter(l[1..], keep);
      if keep(l[0]) then [l[0]] + rest else rest
  }

  /** Filtering keeps every kept element as often as it occurred, and drops the others entirely. */
  lemma {:induction false} FilterMultiset(l: seq<string>, keep: string -> bool)
    ensures var r := Filter(l, keep);
      forall x :: multiset(r)[x] == if keep(x) then multiset(l)[x] else 0
  {
    if l != [] {
      FilterMultiset(l[1..], keep);
      assert l == [l[0]] + l[1..];
    }
  }

  /** Filtering keeps the relative order of what it keeps. */
  lemma {:induction false} FilterSubsequence(l: seq<string>, keep: string -> bool)
    ensures IsSubsequence(Filter(l, keep), l)
  {
    if l != [] {
      var rest := Filter(l[1..], keep);
      FilterSubsequence(l[1..], keep);
      if keep(l[0]) {
        assert ([l[0]] + rest)[1..] == rest;
      }
    }
  }

  /** Filtering a list without duplicates yields a list without duplicates. */
  lemma {:induction false} FilterNoDup(l: seq<string>, keep: string -> bool)
    requires NoDup(l)
    ensures NoDup(Filter(l, keep))
  {
    if l != [] {
      var rest := Filter(l[1..], keep);
      NoDupTail(l);
      FilterNoDup(l[1..], keep);
      if keep(l[0]) {
        assert l[0] !in rest;
        NoDupCons(l[0], rest);
      }
    }
  }

  /** The tail of a list without duplicates has none, and does not hold the head. */
  lemma {:induction false} NoDupTail(l: seq<string>)
    requires NoDup(l) && l != []
    ensures NoDup(l[1..]) && l[0] !in l[1..]
  {
    forall i, j | 0 <= i < j < |l[1..]| ensures l[1..][i] != l[1..][j] {
      assert l[1..][i] == l[i + 1] && l[1..][j] == l[j + 1];
    }
    forall i | 0 <= i < |l[1..]| ensures l[1..][i] != l[0] {
      assert l[1..][i] == l[i + 1];
    }
  }

  /** A new key in front of a list without duplicates. */
  lemma {:induction false} NoDupCons(x: string, rest: seq<string>)
    requires NoDup(rest) && x !in rest
    ensures NoDup([x] + rest)
  {
    var r := [x] + rest;
    forall i, j | 0 <= i < j < |r| ensures r[i] != r[j] {
      assert r[j] == rest[j - 1];
      if i > 0 { assert r[i] == rest[i - 1]; }
    }
  }

  /** Two filters that keep the same elements agree. */
  lemma {:induction false} FilterExtensional(l: seq<string>, f: string -> bool, g: string -> bool)
    requires forall x :: f(x) == g(x)
    ensures Filter(l, f) == Filter(l, g)
  {
    if l != [] { FilterExtensional(l[1..], f, g); }
  }

  /** Membership in `keys` as a filter predicate. */
  function InSet(keys: set<string>): string -> bool {
    k => k in keys
  }

  /** Every key but `key`, as a filter predicate (`w => w !== key`). */
  function Other(key: string): string -> bool {
    w => w != key
  }

  /** Filtering distributes over concatenation. */
  lemma {:induction false} FilterAppend(a: seq<string>, b: seq<string>, keep: string -> bool)
    ensures Filter(a + b, keep) == Filter(a, keep) + Filter(b, keep)
  {
    if a == [] {
      assert a + b == b;
    } else {
      assert (a + b)[0] == a[0];
      assert (a + b)[1..] == a[1..] + b;
      FilterAppend(a[1..], b, keep);
    }
  }

  /** Filtering one more element of a list. */
  lemma {:induction false} FilterSnoc(l: seq<string>, i: int, keep: string -> bool)
    requires 0 <= i < |l|
    ensures Filter(l[..i + 1], keep) == Filter(l[..i], keep) + (if keep(l[i]) then [l[i]] else [])
  {
    assert l[..i + 1] == l[..i] + [l[i]];
    FilterAppend(l[..i], [l[i]], keep);
    assert [l[i]][1..] == [];
  }

  /**
   * The recency-list update of a tracked write: every occurrence of `key`
   * removed (`list.filter(w => w !== key)`), then `key` put at the front
   * (`list.unshift(key)`).
   */
  function MoveToFront(l: seq<string>, key: string): seq<string> {
    [key] + Filter(l, Other(key))
  }

  /**
   * After the update the key is at index 0 and occurs exactly once, every
   * other key occurs as often as before and in the same relative order, and
   * a list without duplicates stays without duplicates.
   */
  lemma {:induction false} MoveToFrontSpec(l: seq<string>, key: string)
    ensures var r := MoveToFront(l, key);
      && |r| >= 1 && r[0] == key
      && key !in r[1..]
      && multiset(r)[key] == 1
      && (forall x :: x != key ==> multiset(r)[x] == multiset(l)[x])
      && IsSubsequence(r[1..], l)
      && (NoDup(l) ==> NoDup(r))
  {
    var rest := Filter(l, Other(key));
    var r := MoveToFront(l, key);
    FilterMultiset(l, Other(key));
    FilterSubsequence(l, Other(key));
    assert r[1..] == rest;
    assert r == [key] + rest;
    if NoDup(l) {
      FilterNoDup(l, Other(key));
      forall i, j | 0 <= i < j < |r| ensures r[i] != r[j] {
        if i > 0 { assert r[i] == rest[i - 1] && r[j] == rest[j - 1]; }
        else { assert r[j] in rest; }
      }
    }
  }
}
