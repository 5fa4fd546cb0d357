/**
 * The browser's key-value medium and the "append, then re-sort newest first" discipline
 * that both data.js and app.js apply to the record list they keep under one key.
 * JSON encoding is taken as an identity round trip, so a key holds a record list directly.
 */
module Storage {
  import opened Wrappers

  /** `localStorage`, with each key holding the (already parsed) record list stored under it. */
  class LocalStorage<T> {
    var items: map<string, seq<T>>

    constructor (initial: map<string, seq<T>>)
      ensures items == initial
    {
      items := initial;
    }

    /** `localStorage.getItem(key)`: `None` plays the part of `null` for an absent key. */
    method GetItem(key: string) returns (r: Option<seq<T>>)
      ensures key in items ==> r == Some(items[key])
      ensures key !in items ==> r == None
    {
      r := if key in items then Some(items[key]) else None;
    }

    /** `localStorage.setItem(key, value)`: replaces that key and no other. */
    method SetItem(key: string, value: seq<T>)
      modifies this
      ensures items == old(items)[key := value]
    {
      items := items[key := value];
    }
  }

  /** What `json ? JSON.parse(json) : []` yields for a key of the medium. */
  function StoredOrEmpty<T>(items: map<string, seq<T>>, key: string): seq<T>
  {
    if key in items then items[key] else []
  }

  // ---------------------------------------------------------------- newest-first order

  /** Timestamps never increase along `s`. */
  predicate NewestFirst<T>(s: seq<T>, ts: T -> int)
  {
    forall i, j :: 0 <= i < j < |s| ==> ts(s[i]) >= ts(s[j])
  }

  /** The records of `s` whose timestamp is `t`, in their order in `s`. */
  function WithTimestamp<T>(s: seq<T>, ts: T -> int, t: int): (r: seq<T>)
    ensures |r| <= |s|
    decreases |s|
  {
    if s == [] then []
    else (if ts(s[0]) == t then [s[0]] else []) + WithTimestamp(s[1..], ts, t)
  }

  /** Every record picked for timestamp `t` comes from `s` and carries `t`. */
  lemma {:induction false} WithTimestampMember<T>(s: seq<T>, ts: T -> int, t: int, k: nat)
    requires k < |WithTimestamp(s, ts, t)|
    ensures WithTimestamp(s, ts, t)[k] in s && ts(WithTimestamp(s, ts, t)[k]) == t
    decreases |s|
  {
    var head := if ts(s[0]) == t then [s[0]] else [];
    if k >= |head| {
      WithTimestampMember(s[1..], ts, t, k - |head|);
    }
  }

  /** `r` and `s` list the records of every timestamp in the same order. */
  ghost predicate SameOrderPerTimestamp<T>(r: seq<T>, s: seq<T>, ts: T -> int)
  {
    forall t :: WithTimestamp(r, ts, t) == WithTimestamp(s, ts, t)
  }

  /**
   * Places `x` into a newest-first list after every record at least as new as it,
   * which is where a stable descending sort puts the last element of a list.
   */
  function InsertNewest<T>(s: seq<T>, x: T, ts: T -> int): (r: seq<T>)
    ensures |r| == |s| + 1
    ensures multiset(r) == multiset(s) + multiset{x}
    decreases |s|
  {
    if s == [] then [x]
    else if ts(s[0]) < ts(x) then [x] + s
    else
      assert s == [s[0]] + s[1..];
      [s[0]] + InsertNewest(s[1..], x, ts)
  }

  lemma {:induction false} InsertNewestKeepsOrder<T>(s: seq<T>, x: T, ts: T -> int)
    requires NewestFirst(s, ts)
    ensures NewestFirst(InsertNewest(s, x, ts), ts)
    decreases |s|
  {
    if s != [] && ts(s[0]) >= ts(x) {
      var rest := InsertNewest(s[1..], x, ts);
      InsertNewestKeepsOrder(s[1..], x, ts);
      forall k | 0 <= k < |rest| ensures ts(s[0]) >= ts(rest[k]) {
        assert rest[k] in multiset(rest);
        if rest[k] != x {
          assert rest[k] in multiset(s[1..]);
          var m :| 0 <= m < |s[1..]| && s[1..][m] == rest[k];
          assert s[m + 1] == rest[k];
        }
      }
      var r := [s[0]] + rest;
      assert forall i, j :: 0 < i < j < |r| ==> ts(r[i]) >= ts(r[j]) by {
        assert forall i :: 0 < i < |r| ==> r[i] == rest[i - 1];
      }
    }
  }

  /**
   * `list.sort((a, b) => b.timestamp - a.timestamp)`: the stable sort by timestamp,
   * newest first, written as an insertion sort over the list's prefixes.
   */
  function SortNewestFirst<T>(s: seq<T>, ts: T -> int): (r: seq<T>)
    ensures |r| == |s|
    ensures multiset(r) == multiset(s)
    ensures NewestFirst(r, ts)
    decreases |s|
  {
    if s == [] then []
    else
      assert s == s[..|s| - 1] + [s[|s| - 1]];
      var sorted := SortNewestFirst(s[..|s| - 1], ts);
      InsertNewestKeepsOrder(sorted, s[|s| - 1], ts);
      InsertNewest(sorted, s[|s| - 1], ts)
  }

  // ---------------------------------------------------------------- stability

  lemma {:induction false} WithTimestampAppend<T>(a: seq<T>, b: seq<T>, ts: T -> int, t: int)
    ensures WithTimestamp(a + b, ts, t) == WithTimestamp(a, ts, t) + WithTimestamp(b, ts, t)
    decreases |a|
  {
    if a != [] {
      assert (a + b)[1..] == a[1..] + b;
      WithTimestampAppend(a[1..], b, ts, t);
    } else {
      assert a + b == b;
    }
  }

  lemma {:induction false} WithTimestampNone<T>(s: seq<T>, ts: T -> int, t: int)
    requires forall k :: 0 <= k < |s| ==> ts(s[k]) != t
    ensures WithTimestamp(s, ts, t) == []
    decreases |s|
  {
    if s != [] {
      WithTimestampNone(s[1..], ts, t);
    }
  }

  lemma PrependNewer<T>(s: seq<T>, x: T, ts: T -> int, t: int)
    requires s != [] && NewestFirst(s, ts) && ts(s[0]) < ts(x)
    ensures WithTimestamp([x] + s, ts, t) == WithTimestamp(s, ts, t) + (if ts(x) == t then [x] else [])
  {
    if ts(x) == t {
      assert forall k :: 0 <= k < |s| ==> ts(s[k]) <= ts(s[0]);
      WithTimestampNone(s, ts, t);
    }
    assert ([x] + s)[1..] == s;
  }

  /** Inserting `x` into a newest-first list appends it to the records that share its timestamp. */
  lemma {:induction false} InsertNewestAfterTies<T>(s: seq<T>, x: T, ts: T -> int, t: int)
    requires NewestFirst(s, ts)
    ensures WithTimestamp(InsertNewest(s, x, ts), ts, t)
         == WithTimestamp(s, ts, t) + (if ts(x) == t then [x] else [])
    decreases |s|
  {
    var tail := if ts(x) == t then [x] else [];
    if s == [] {
      assert WithTimestamp([x], ts, t) == tail + WithTimestamp([], ts, t);
    } else if ts(s[0]) < ts(x) {
      assert InsertNewest(s, x, ts) == [x] + s;
      PrependNewer(s, x, ts, t);
    } else {
      var rest := InsertNewest(s[1..], x, ts);
      var head := if ts(s[0]) == t then [s[0]] else [];
      assert WithTimestamp(rest, ts, t) == WithTimestamp(s[1..], ts, t) + tail by {
        NewestFirstTail(s, ts);
        InsertNewestAfterTies(s[1..], x, ts, t);
      }
      assert WithTimestamp([s[0]] + rest, ts, t) == head + WithTimestamp(rest, ts, t) by {
        assert ([s[0]] + rest)[1..] == rest;
      }
    }
  }

  /** The sort keeps, for every timestamp, the records carrying it in their original order. */
  lemma {:induction false} SortNewestFirstIsStable<T>(s: seq<T>, ts: T -> int, t: int)
    ensures WithTimestamp(SortNewestFirst(s, ts), ts, t) == WithTimestamp(s, ts, t)
    decreases |s|
  {
    if s != [] {
      var init, last := s[..|s| - 1], s[|s| - 1];
      var tail := if ts(last) == t then [last] else [];
      var sorted := SortNewestFirst(init, ts);
      assert WithTimestamp(SortNewestFirst(s, ts), ts, t) == WithTimestamp(init, ts, t) + tail by {
        assert SortNewestFirst(s, ts) == InsertNewest(sorted, last, ts);
        SortNewestFirstIsStable(init, ts, t);
        InsertNewestAfterTies(sorted, last, ts, t);
      }
      assert s == init + [last];
      WithTimestampSnoc(init, last, ts, t);
    }
  }

  lemma WithTimestampSnoc<T>(s: seq<T>, x: T, ts: T -> int, t: int)
    ensures WithTimestamp(s + [x], ts, t) == WithTimestamp(s, ts, t) + (if ts(x) == t then [x] else [])
  {
    WithTimestampAppend(s, [x], ts, t);
    assert WithTimestamp([x], ts, t) == (if ts(x) == t then [x] else []) + WithTimestamp([], ts, t);
  }

  lemma WithTimestampOfHead<T>(s: seq<T>, ts: T -> int)
    requires s != []
    ensures WithTimestamp(s, ts, ts(s[0])) != []
  {
  }

  lemma NewestFirstTail<T>(s: seq<T>, ts: T -> int)
    requires s != [] && NewestFirst(s, ts)
    ensures NewestFirst(s[1..], ts)
  {
    assert forall k :: 0 <= k < |s| - 1 ==> s[1..][k] == s[k + 1];
  }

  lemma NewestFirstHeadIsNewest<T>(s: seq<T>, ts: T -> int, x: T)
    requires NewestFirst(s, ts) && x in s
    ensures ts(x) <= ts(s[0])
  {
    var k :| 0 <= k < |s| && s[k] == x;
  }

  /** Two newest-first lists that agree on the records of every timestamp are the same list. */
  lemma {:induction false} StableOrderIsUnique<T>(r: seq<T>, q: seq<T>, ts: T -> int)
    requires NewestFirst(r, ts) && NewestFirst(q, ts)
    requires SameOrderPerTimestamp(r, q, ts)
    ensures r == q
    decreases |r|
  {
    if r == [] {
      if q != [] {
        WithTimestampOfHead(q, ts);
        assert false;
      }
    } else if q == [] {
      WithTimestampOfHead(r, ts);
      assert false;
    } else {
      var a, b := ts(r[0]), ts(q[0]);
      var ra, qb := WithTimestamp(r, ts, a), WithTimestamp(q, ts, b);
      assert ra[0] == r[0] && qb[0] == q[0];
      assert WithTimestamp(q, ts, a) == ra && WithTimestamp(r, ts, b) == qb;
      WithTimestampMember(q, ts, a, 0);
      NewestFirstHeadIsNewest(q, ts, ra[0]);
      WithTimestampMember(r, ts, b, 0);
      NewestFirstHeadIsNewest(r, ts, qb[0]);
      assert a == b;
      assert r[0] == q[0];
      forall t ensures WithTimestamp(r[1..], ts, t) == WithTimestamp(q[1..], ts, t) {
        var head := if ts(r[0]) == t then [r[0]] else [];
        assert WithTimestamp(r, ts, t) == head + WithTimestamp(r[1..], ts, t);
        assert WithTimestamp(q, ts, t) == head + WithTimestamp(q[1..], ts, t);
        assert WithTimestamp(r, ts, t) == WithTimestamp(q, ts, t);
        assert WithTimestamp(r[1..], ts, t) == WithTimestamp(r, ts, t)[|head|..];
        assert WithTimestamp(q[1..], ts, t) == WithTimestamp(q, ts, t)[|head|..];
      }
      StableOrderIsUnique(r[1..], q[1..], ts);
      assert r == [r[0]] + r[1..] && q == [q[0]] + q[1..];
    }
  }

  /**
   * SortNewestFirst is the one stable newest-first ordering: a list is the sorted form of `s`
   * exactly when it is newest first and keeps each timestamp's records in their order in `s`.
   */
  lemma SortNewestFirstCharacterized<T>(s: seq<T>, r: seq<T>, ts: T -> int)
    ensures r == SortNewestFirst(s, ts) <==> NewestFirst(r, ts) && SameOrderPerTimestamp(r, s, ts)
  {
    var q := SortNewestFirst(s, ts);
    assert SameOrderPerTimestamp(q, s, ts) by {
      forall t ensures WithTimestamp(q, ts, t) == WithTimestamp(s, ts, t) {
        SortNewestFirstIsStable(s, ts, t);
      }
    }
    if NewestFirst(r, ts) && SameOrderPerTimestamp(r, s, ts) {
      StableOrderIsUnique(r, q, ts);
    }
  }

  /** Re-sorting a list that is already newest first leaves it as it is. */
  lemma SortNewestFirstOfSorted<T>(s: seq<T>, ts: T -> int)
    requires NewestFirst(s, ts)
    ensures SortNewestFirst(s, ts) == s
  {
    SortNewestFirstCharacterized(s, s, ts);
  }

  /**
   * Appending `x` and re-sorting: the list grows by `x` alone, comes out newest first, and `x`
   * follows every earlier record with its timestamp; on a newest-first list it is an insertion.
   */
  lemma AppendAndSort<T>(s: seq<T>, x: T, ts: T -> int)
    ensures |SortNewestFirst(s + [x], ts)| == |s| + 1
    ensures multiset(SortNewestFirst(s + [x], ts)) == multiset(s) + multiset{x}
    ensures NewestFirst(SortNewestFirst(s + [x], ts), ts)
    ensures WithTimestamp(SortNewestFirst(s + [x], ts), ts, ts(x)) == WithTimestamp(s, ts, ts(x)) + [x]
    ensures NewestFirst(s, ts) ==> SortNewestFirst(s + [x], ts) == InsertNewest(s, x, ts)
  {
    var r := SortNewestFirst(s + [x], ts);
    SortNewestFirstIsStable(s + [x], ts, ts(x));
    WithTimestampAppend(s, [x], ts, ts(x));
    assert WithTimestamp([x], ts, ts(x)) == [x] + WithTimestamp([], ts, ts(x));
    assert (s + [x])[..|s|] == s;
    if NewestFirst(s, ts) {
      SortNewestFirstOfSorted(s, ts);
    }
  }
}
