// The round-trip-time cache against the map it approximates: each key's last put, within the TTL.
module RttCache {
  import opened Wrappers

  const MAX_ENTRIES: nat := 4096

  /** An org and a device id. */
  type Key = (int, int)

  datatype Entry = Entry(at: int, rtt: Option<int>)

  type Store = map<Key, Entry>

  /** One `put`: the clock as read for each entry while pruning, and as read for the new entry. */
  datatype Put = Put(key: Key, rtt: Option<int>, seen: Key -> int, at: int)

  type History = seq<Put>

  predicate Fresh(e: Entry, now: int, ttl: nat) { now - e.at <= ttl }

  function Retain(m: Store, seen: Key -> int, ttl: nat): Store {
    map k | k in m && Fresh(m[k], seen(k), ttl) :: m[k]
  }

  predicate Overflows(m: Store, p: Put, ttl: nat) { |Retain(m, p.seen, ttl)| >= MAX_ENTRIES }

  function AfterPut(m: Store, p: Put, ttl: nat): Store {
    var kept := if Overflows(m, p, ttl) then map[] else Retain(m, p.seen, ttl);
    kept[p.key := Entry(p.at, p.rtt)]
  }

  function Lookup(m: Store, key: Key, now: int, ttl: nat): Option<Option<int>> {
    if key in m && Fresh(m[key], now, ttl) then Some(m[key].rtt) else None
  }

  function Run(h: History, ttl: nat): Store {
    if h == [] then map[] else AfterPut(Run(h[..|h| - 1], ttl), h[|h| - 1], ttl)
  }

  /** The index of the last put of `key`, or -1. */
  function Last(h: History, key: Key): (i: int)
    ensures -1 <= i < |h|
    ensures i >= 0 ==> h[i].key == key
    ensures forall j :: i < j < |h| ==> h[j].key != key
  {
    if h == [] then -1
    else if h[|h| - 1].key == key then |h| - 1
    else Last(h[..|h| - 1], key)
  }

  /** The map the cache stands for. */
  function LastWithinTtl(h: History, key: Key, now: int, ttl: nat): Option<Option<int>> {
    var i := Last(h, key);
    if i >= 0 && now - h[i].at <= ttl then Some(h[i].rtt) else None
  }

  /** The clock never runs backwards: from put to put, and within one. */
  ghost predicate Monotone(h: History) {
    forall i, k :: 0 <= i < |h| ==> (i > 0 ==> h[i - 1].at <= h[i].seen(k)) && h[i].seen(k) <= h[i].at
  }

  predicate OverflowAt(h: History, j: int, ttl: nat)
    requires 0 <= j < |h|
  {
    Overflows(Run(h[..j], ttl), h[j], ttl)
  }

  /** The whole map was thrown away after the last put of `key`. */
  predicate Cleared(h: History, key: Key, ttl: nat) {
    exists j :: Last(h, key) < j < |h| && OverflowAt(h, j, ttl)
  }

  // ---- what the map holds ----

  /** An entry is its key's last put, not thrown away since; a missing one was never put, thrown
      away, or had expired by the latest put. */
  ghost predicate Holds(h: History, key: Key, ttl: nat) {
    var m, i := Run(h, ttl), Last(h, key);
    && (key in m ==> i >= 0 && !Cleared(h, key, ttl) && m[key] == Entry(h[i].at, h[i].rtt))
    && (key !in m && i >= 0 && !Cleared(h, key, ttl) ==> h[|h| - 1].at - h[i].at > ttl)
  }

  lemma ClearedSnoc(h: History, key: Key, ttl: nat)
    requires h != []
    ensures var front, p := h[..|h| - 1], h[|h| - 1];
            Cleared(h, key, ttl) <==> p.key != key && (Cleared(front, key, ttl) || Overflows(Run(front, ttl), p, ttl))
  {
    hide Overflows, Run;
    var front, n := h[..|h| - 1], |h| - 1;
    forall j | 0 <= j < n ensures OverflowAt(h, j, ttl) <==> OverflowAt(front, j, ttl) {
      assert h[..j] == front[..j];
    }
    if h[n].key != key {
      assert OverflowAt(h, n, ttl) <==> Overflows(Run(front, ttl), h[n], ttl);
      if Cleared(front, key, ttl) {
        var j :| Last(front, key) < j < n && OverflowAt(front, j, ttl);
        assert OverflowAt(h, j, ttl);
      }
    }
  }

  lemma MonotoneFront(h: History)
    requires Monotone(h) && h != []
    ensures Monotone(h[..|h| - 1])
  {
    var front := h[..|h| - 1];
    forall i, k | 0 <= i < |front|
      ensures (i > 0 ==> front[i - 1].at <= front[i].seen(k)) && front[i].seen(k) <= front[i].at
    {
      assert h[i].seen(k) == front[i].seen(k);
    }
  }

  lemma {:induction false} MapHolds(h: History, key: Key, ttl: nat)
    requires Monotone(h)
    ensures Holds(h, key, ttl)
  {
    hide Cleared, Monotone;
    if h != [] {
      var front, p := h[..|h| - 1], h[|h| - 1];
      MonotoneFront(h);
      MapHolds(front, key, ttl);
      ClearedSnoc(h, key, ttl);
      LastClock(h, key);
    } else {
      assert !Cleared(h, key, ttl) by { NeverCleared(key, ttl); }
    }
  }

  lemma NeverCleared(key: Key, ttl: nat)
    ensures !Cleared([], key, ttl)
  {
  }

  lemma LastClock(h: History, key: Key)
    requires Monotone(h) && h != []
    ensures h[|h| - 1].seen(key) <= h[|h| - 1].at
    ensures |h| > 1 ==> h[|h| - 2].at <= h[|h| - 1].seen(key)
  {
  }

  lemma LookupUnlessCleared(h: History, key: Key, now: int, ttl: nat)
    requires Monotone(h) && (h != [] ==> h[|h| - 1].at <= now)
    ensures Lookup(Run(h, ttl), key, now, ttl) ==
            if Cleared(h, key, ttl) then None else LastWithinTtl(h, key, now, ttl)
  {
    hide Run, Cleared, Monotone;
    MapHolds(h, key, ttl);
  }

  // ---- when the map is thrown away, from the history alone ----

  /** The keys put since put `c`, `c` included, whose last put is still fresh when put `p` looks at them. */
  function FreshSince(h: History, c: int, p: Put, ttl: nat): set<Key> {
    set k | k in KeysOf(h) && Last(h, k) >= c && LastWithinTtl(h, k, p.seen(k), ttl).Some?
  }

  /** The last put that threw the map away, or -1: one that found 4096 keys with a fresh last put since
      the time before. */
  function LastClear(h: History, ttl: nat): (c: int)
    ensures -1 <= c < |h|
  {
    if h == [] then -1
    else
      var front, p := h[..|h| - 1], h[|h| - 1];
      if |FreshSince(front, LastClear(front, ttl), p, ttl)| >= 4096 then |h| - 1 else LastClear(front, ttl)
  }

  /** The key's last put, if any, came before the map was last thrown away. */
  predicate Forgotten(h: History, key: Key, ttl: nat) { Last(h, key) < LastClear(h, ttl) }

  lemma LastSnoc(h: History, key: Key)
    requires h != []
    ensures Last(h, key) == if h[|h| - 1].key == key then |h| - 1 else Last(h[..|h| - 1], key)
  {
  }

  lemma ClearedIff(h: History, ttl: nat)
    requires Monotone(h)
    ensures forall key :: Cleared(h, key, ttl) <==> Forgotten(h, key, ttl)
    decreases |h|, 1
  {
    hide Monotone;
    forall key ensures Cleared(h, key, ttl) <==> Forgotten(h, key, ttl) {
      hide Run, Cleared, OverflowAt, Overflows, FreshSince;
      if h == [] {
        NeverCleared(key, ttl);
      } else {
        MonotoneFront(h);
        ClearedIff(h[..|h| - 1], ttl);
        ClearedSnoc(h, key, ttl);
        OverflowsIff(h, ttl);
        LastSnoc(h, key);
      }
    }
  }

  /** The last put throws the map away exactly when it finds that many keys. */
  lemma OverflowsIff(h: History, ttl: nat)
    requires Monotone(h) && h != []
    ensures var front, p := h[..|h| - 1], h[|h| - 1];
            Overflows(Run(front, ttl), p, ttl) <==>
            |FreshSince(front, LastClear(front, ttl), p, ttl)| >= 4096
    decreases |h|, 0
  {
    hide Run, Cleared, LastWithinTtl, OverflowAt, Monotone;
    var g, p := h[..|h| - 1], h[|h| - 1];
    MonotoneTake(h, |h| - 1);
    MonotoneFront(h);
    ClearedIff(g, ttl);
    var m := Retain(Run(g, ttl), p.seen, ttl);
    var c := LastClear(g, ttl);
    forall k ensures k in m <==> k in FreshSince(g, c, p, ttl) {
      assert k in m <==> Lookup(Run(g, ttl), k, p.seen(k), ttl).Some?;
      LookupUnlessCleared(g, k, p.seen(k), ttl);
      PutOnce(g, k, p.seen(k), ttl);
    }
    assert m.Keys == FreshSince(g, c, p, ttl);
    assert |m| == |m.Keys|;
  }

  /** For every history: `get` answers the last put of the key within the TTL, except when the map has
      been thrown away since that put, and then it answers a miss. */
  lemma GetIsExact(h: History, key: Key, now: int, ttl: nat)
    requires Monotone(h) && (h != [] ==> h[|h| - 1].at <= now)
    ensures Lookup(Run(h, ttl), key, now, ttl) ==
            if Forgotten(h, key, ttl) then None else LastWithinTtl(h, key, now, ttl)
  {
    hide Run, Cleared, Forgotten, Monotone, LastWithinTtl;
    ClearedIff(h, ttl);
    LookupUnlessCleared(h, key, now, ttl);
  }

  // ---- when nothing is ever thrown away ----

  function KeysOf(h: History): set<Key> { set i | 0 <= i < |h| :: h[i].key }

  /** The keys whose last put before put `j` is still fresh when put `j` looks at it. */
  function Live(h: History, j: int, ttl: nat): set<Key>
    requires 0 <= j < |h|
  {
    set k | k in KeysOf(h[..j]) && LastWithinTtl(h[..j], k, h[j].seen(k), ttl).Some?
  }

  predicate NeverOverflows(h: History, ttl: nat) { forall j :: 0 <= j < |h| ==> !OverflowAt(h, j, ttl) }

  predicate AlwaysRoom(h: History, ttl: nat) { forall j :: 0 <= j < |h| ==> |Live(h, j, ttl)| < 4096 }

  lemma MonotoneTake(h: History, j: nat)
    requires Monotone(h) && j < |h|
    ensures Monotone(h[..j])
    ensures j > 0 ==> forall k :: h[j - 1].at <= h[j].seen(k)
  {
    var g := h[..j];
    forall i, k | 0 <= i < |g| ensures (i > 0 ==> g[i - 1].at <= g[i].seen(k)) && g[i].seen(k) <= g[i].at {
      assert h[i].seen(k) == g[i].seen(k);
    }
  }

  /** What put `j` keeps is fresh, and without an overflow before it is everything fresh. */
  lemma RetainedAreLive(h: History, j: nat, ttl: nat)
    requires Monotone(h) && j < |h|
    ensures Retain(Run(h[..j], ttl), h[j].seen, ttl).Keys <= Live(h, j, ttl)
    ensures (forall i :: 0 <= i < j ==> !OverflowAt(h, i, ttl)) ==>
              Retain(Run(h[..j], ttl), h[j].seen, ttl).Keys == Live(h, j, ttl)
  {
    hide Run, Monotone, Cleared, LastWithinTtl, OverflowAt;
    var g := h[..j];
    MonotoneTake(h, j);
    forall k ensures k in Retain(Run(g, ttl), h[j].seen, ttl) <==> Lookup(Run(g, ttl), k, h[j].seen(k), ttl).Some?
             ensures Lookup(Run(g, ttl), k, h[j].seen(k), ttl) ==
                     if Cleared(g, k, ttl) then None else LastWithinTtl(g, k, h[j].seen(k), ttl)
             ensures LastWithinTtl(g, k, h[j].seen(k), ttl).Some? ==> k in KeysOf(g)
    {
      LookupUnlessCleared(g, k, h[j].seen(k), ttl);
      PutOnce(g, k, h[j].seen(k), ttl);
    }
    if forall i :: 0 <= i < j ==> !OverflowAt(h, i, ttl) {
      forall k ensures !Cleared(g, k, ttl) { NoClear(h, j, k, ttl); }
    }
  }

  lemma PutOnce(g: History, k: Key, now: int, ttl: nat)
    ensures LastWithinTtl(g, k, now, ttl).Some? ==> k in KeysOf(g)
  {
    var i := Last(g, k);
    assert i >= 0 ==> g[i].key == k;
  }

  lemma NoClear(h: History, j: nat, k: Key, ttl: nat)
    requires j <= |h| && forall i :: 0 <= i < j ==> !OverflowAt(h, i, ttl)
    ensures !Cleared(h[..j], k, ttl)
  {
    hide Run, Overflows;
    forall i | 0 <= i < j ensures OverflowAt(h[..j], i, ttl) == OverflowAt(h, i, ttl) {
      assert h[..j][..i] == h[..i];
    }
  }

  lemma SubsetCard(a: set<Key>, b: set<Key>)
    requires a <= b
    ensures |a| <= |b|
  {
    assert b == a + (b - a);
  }

  lemma OverflowByKeys(h: History, j: nat, ttl: nat)
    requires j < |h|
    ensures OverflowAt(h, j, ttl) <==> |Retain(Run(h[..j], ttl), h[j].seen, ttl).Keys| >= MAX_ENTRIES
  {
    hide Run;
    var m := Retain(Run(h[..j], ttl), h[j].seen, ttl);
    assert |m| == |m.Keys|;
  }

  /** The map is never thrown away exactly when fewer than 4096 keys have a fresh last put at each
      put. */
  lemma NeverOverflowsIff(h: History, ttl: nat)
    requires Monotone(h)
    ensures NeverOverflows(h, ttl) <==> AlwaysRoom(h, ttl)
  {
    hide Run, Monotone, Live, OverflowAt, Retain;
    forall j | 0 <= j < |h|
      ensures |Live(h, j, ttl)| < MAX_ENTRIES ==> !OverflowAt(h, j, ttl)
      ensures NeverOverflows(h, ttl) ==> |Live(h, j, ttl)| < MAX_ENTRIES
    {
      RetainedAreLive(h, j, ttl);
      SubsetCard(Retain(Run(h[..j], ttl), h[j].seen, ttl).Keys, Live(h, j, ttl));
      OverflowByKeys(h, j, ttl);
    }
  }

  /** With room at every put the cache is the last-put-within-TTL map. */
  lemma GetIsExactWithRoom(h: History, key: Key, now: int, ttl: nat)
    requires Monotone(h) && (h != [] ==> h[|h| - 1].at <= now) && AlwaysRoom(h, ttl)
    ensures Lookup(Run(h, ttl), key, now, ttl) == LastWithinTtl(h, key, now, ttl)
  {
    hide Run, Monotone, LastWithinTtl, AlwaysRoom, OverflowAt;
    LookupUnlessCleared(h, key, now, ttl);
    NeverOverflowsIff(h, ttl);
  }

  // ---- the 4097th key ----

  function Nth(i: nat): Put { Put((0, i), None, k => 0, 0) }

  function Puts(n: nat): (h: History)
    ensures |h| == n && forall i :: 0 <= i < n ==> h[i] == Nth(i)
  {
    seq(n, i requires 0 <= i => Nth(i))
  }

  lemma PutsMonotone(n: nat)
    ensures Monotone(Puts(n))
  {
  }

  lemma {:induction false} PutsHeld(n: nat, ttl: nat)
    requires n <= MAX_ENTRIES
    ensures var m := Run(Puts(n), ttl);
      && |m| == n && (forall k :: k in m <==> k.0 == 0 && 0 <= k.1 < n)
      && forall k :: k in m ==> m[k] == Entry(0, None)
  {
    hide Run;
    if n == 0 {
      assert Run([], ttl) == map[] by { RunNone(ttl); }
    } else {
      PutsHeld(n - 1, ttl);
      var m := Run(Puts(n - 1), ttl);
      assert Puts(n) == Puts(n - 1) + [Nth(n - 1)];
      RunSnoc(Puts(n - 1), Nth(n - 1), ttl);
      assert Retain(m, Nth(n - 1).seen, ttl) == m;
      assert (0, n - 1) !in m;
    }
  }

  lemma RunNone(ttl: nat)
    ensures Run([], ttl) == map[]
  {
  }

  /** After 4096 keys and one more, all put at one instant, the first key is forgotten. */
  lemma FirstKeyIsForgotten(ttl: nat)
    ensures var h := Puts(MAX_ENTRIES + 1);
      && Monotone(h) && Forgotten(h, (0, 0), ttl)
      && LastWithinTtl(h, (0, 0), 0, ttl) == Some(None) && Lookup(Run(h, ttl), (0, 0), 0, ttl) == None
  {
    hide Run, Forgotten, Last;
    var n := MAX_ENTRIES;
    var h := Puts(n + 1);
    PutsMonotone(n + 1);
    PutsHeld(n, ttl);
    assert h == Puts(n) + [Nth(n)];
    RunSnoc(Puts(n), Nth(n), ttl);
    var m := Run(Puts(n), ttl);
    assert Retain(m, Nth(n).seen, ttl) == m;
    assert Run(h, ttl) == map[(0, n) := Entry(0, None)];
    var i := Last(h, (0, 0));
    assert h[0].key == (0, 0);
    GetIsExact(h, (0, 0), 0, ttl);
  }

  /** At most 4096 entries, whatever the clock does. */
  lemma SizeBound(h: History, ttl: nat)
    ensures |Run(h, ttl)| <= 4096
  {
  }

  // ---- the cache itself ----

  /** What the clock owes a history that ends now. */
  ghost predicate Since(h: History, now: int) { h != [] ==> h[|h| - 1].at <= now }

  lemma PutExtends(h: History, p: Put, ttl: nat)
    requires Monotone(h) && forall k :: Since(h, p.seen(k)) && p.seen(k) <= p.at
    ensures Monotone(h + [p]) && Run(h + [p], ttl) == AfterPut(Run(h, ttl), p, ttl)
  {
    hide Run;
    var g := h + [p];
    assert g[..|g| - 1] == h;
    forall i, k | 0 <= i < |g| ensures (i > 0 ==> g[i - 1].at <= g[i].seen(k)) && g[i].seen(k) <= g[i].at {
      assert i < |h| ==> h[i].seen(k) == g[i].seen(k);
      assert i == |h| ==> Since(h, p.seen(k));
    }
    RunSnoc(h, p, ttl);
  }

  lemma RunSnoc(h: History, p: Put, ttl: nat)
    ensures Run(h + [p], ttl) == AfterPut(Run(h, ttl), p, ttl)
  {
    assert (h + [p])[..|h|] == h;
  }

  class Cache {
    var entries: Store
    const ttl: nat
    ghost var history: History

    ghost predicate Valid() reads this { Monotone(history) && entries == Run(history, ttl) }

    constructor (ttl: nat)
      ensures Valid() && this.ttl == ttl && history == []
    {
      this.ttl, entries, history := ttl, map[], [];
    }

    method Get(key: Key, now: int) returns (r: Option<Option<int>>)
      requires Valid() && Since(history, now)
      ensures r == if Forgotten(history, key, ttl) then None else LastWithinTtl(history, key, now, ttl)
    {
      GetIsExact(history, key, now, ttl);
      if key !in entries { return None; }
      var e := entries[key];
      if now - e.at <= ttl { return Some(e.rtt); }
      return None;
    }

    method PutRtt(key: Key, rtt: Option<int>, seen: Key -> int, at: int)
      requires Valid() && forall k :: Since(history, seen(k)) && seen(k) <= at
      modifies this`entries, this`history
      ensures Valid() && history == old(history) + [Put(key, rtt, seen, at)]
      ensures |entries| <= MAX_ENTRIES
    {
      hide Run, Monotone;
      var ttl := this.ttl;
      ghost var p := Put(key, rtt, seen, at);
      PutExtends(history, p, ttl);
      entries := map k | k in entries && seen(k) - entries[k].at <= ttl :: entries[k];
      assert entries == Retain(Run(history, ttl), p.seen, ttl);
      if |entries| >= MAX_ENTRIES { entries := map[]; }
      entries := entries[key := Entry(at, rtt)];
      history := history + [p];
      SizeBound(history, ttl);
    }
  }
}
