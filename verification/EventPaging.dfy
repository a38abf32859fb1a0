// `GET /v1/events` page by page, and the live stream's filter beside it.
module EventPaging {
  import opened Wrappers
  import opened Seqs
  import opened EventRing
  import Glob
  import GlobExact
  import GlobNul
  import Utf8

  datatype Query = Query(org: int, device: Option<int>, topic: Option<string>, since: Option<int>)

  /** The tables as one page's SELECT finds them. */
  datatype Snapshot = Snapshot(rows: Table, orgOf: map<int, int>)

  datatype EventsPage = EventsPage(items: seq<Event>, nextCursor: Option<int>)

  function Matches(q: Query, orgOf: map<int, int>): Event -> bool {
    (e: Event) =>
      && e.device in orgOf && orgOf[e.device] == q.org
      && (q.device.Some? ==> e.device == q.device.value)
      && (q.topic.Some? ==> Glob.SqlGlob(q.topic.value, e.topic))
      && (q.since.Some? ==> e.ts >= q.since.value)
  }

  function Below(cursor: Option<int>): Event -> bool {
    (e: Event) => cursor.Some? ==> e.id < cursor.value
  }

  function Clamp(limit: int): nat { if limit < 1 then 1 else if limit > 1000 then 1000 else limit }

  /** Every row the cursor has not passed yet, newest first. */
  function Ahead(s: Snapshot, q: Query, cursor: Option<int>): seq<Event> {
    Rev(Filter(Below(cursor), Filter(Matches(q, s.orgOf), s.rows)))
  }

  function List(s: Snapshot, q: Query, cursor: Option<int>, limit: int): seq<Event> {
    var all := Ahead(s, q, cursor);
    if |all| <= Clamp(limit) then all else all[..Clamp(limit)]
  }

  /** The handler: it compares with the limit as given, not as clamped. */
  function Page(s: Snapshot, q: Query, cursor: Option<int>, limit: int): EventsPage {
    var items := List(s, q, cursor, limit);
    EventsPage(items, if |items| >= limit && items != [] then Some(items[|items| - 1].id) else None)
  }

  predicate Rowids(t: Table) { Sorted(t) && forall i :: 0 <= i < |t| ==> t[i].id >= 1 }

  ghost predicate AllRowids(ss: nat -> Snapshot) { forall n :: Rowids(ss(n).rows) }

  function Descending(s: seq<Event>): bool { forall i, j :: 0 <= i < j < |s| ==> s[i].id > s[j].id }

  /** A row the query asks for, filter by filter: its device is of the caller's org, is the one asked for,
      its topic is covered by the pattern, and it is not older than `since`. */
  predicate AskedFor(q: Query, orgOf: map<int, int>, e: Event) {
    && e.device in orgOf && orgOf[e.device] == q.org
    && (match q.device case None => true case Some(d) => e.device == d)
    && (match q.topic case None => true case Some(p) => Glob.SqlGlob(p, e.topic))
    && (match q.since case None => true case Some(t) => t <= e.ts)
  }

  /** A row the cursor has not passed. */
  predicate NotPassed(cursor: Option<int>, e: Event) {
    match cursor case None => true case Some(c) => e.id < c
  }

  lemma AheadShape(s: Snapshot, q: Query, cursor: Option<int>)
    requires Rowids(s.rows)
    ensures Descending(Ahead(s, q, cursor))
    ensures forall e :: e in Ahead(s, q, cursor) <==> e in s.rows && Matches(q, s.orgOf)(e) && Below(cursor)(e)
    ensures forall e :: e in Ahead(s, q, cursor) <==> e in s.rows && AskedFor(q, s.orgOf, e) && NotPassed(cursor, e)
  {
    hide Filter, Glob.SqlGlob;
    var matching := Filter(Matches(q, s.orgOf), s.rows);
    FilterMember(Matches(q, s.orgOf), s.rows);
    FilterMember(Below(cursor), matching);
    FilterSortedEvents(Matches(q, s.orgOf), s.rows);
    FilterSortedEvents(Below(cursor), matching);
    var f := Filter(Below(cursor), matching);
    forall e ensures e in Rev(f) <==> e in f {
      if e in f { var i :| 0 <= i < |f| && f[i] == e; assert Rev(f)[|f| - 1 - i] == e; }
    }
  }

  lemma PageShape(s: Snapshot, q: Query, cursor: Option<int>, limit: int)
    requires Rowids(s.rows)
    ensures var p := Page(s, q, cursor, limit);
            && Descending(p.items)
            && (forall e :: e in p.items ==> e in s.rows && e.id >= 1 && Matches(q, s.orgOf)(e) && Below(cursor)(e))
            && (p.nextCursor.Some? ==> p.items != [] && p.nextCursor.value == p.items[|p.items| - 1].id >= 1)
            && (p.nextCursor.Some? && cursor.Some? ==> p.nextCursor.value < cursor.value)
  {
    hide Ahead, Matches, AskedFor;
    AheadShape(s, q, cursor);
    var p := Page(s, q, cursor, limit);
    assert forall e :: e in p.items ==> e in Ahead(s, q, cursor);
    assert p.items != [] ==> p.items[|p.items| - 1] in Ahead(s, q, cursor);
  }

  /** What a page holds: rows of the table that the query asks for and the cursor has not passed, newest
      first, between one and a thousand of them as the limit says; every such row it leaves out is older than
      all it holds, and it leaves one out only when it is full. A cursor follows exactly a page that is
      as long as the limit given. */
  lemma PageHolds(s: Snapshot, q: Query, cursor: Option<int>, limit: int)
    requires Rowids(s.rows)
    ensures var p, most := Page(s, q, cursor, limit), if limit < 1 then 1 else if limit > 1000 then 1000 else limit;
            && Descending(p.items) && |p.items| <= most
            && (forall e :: e in p.items ==> e in s.rows && AskedFor(q, s.orgOf, e) && NotPassed(cursor, e))
            && (forall e :: e in s.rows && AskedFor(q, s.orgOf, e) && NotPassed(cursor, e) && e !in p.items ==>
                  |p.items| == most && forall x :: x in p.items ==> e.id < x.id)
            && (p.nextCursor.Some? <==> p.items != [] && |p.items| >= limit)
            && (p.nextCursor.Some? ==> p.nextCursor.value == p.items[|p.items| - 1].id)
  {
    hide Ahead, Matches, AskedFor, NotPassed, Below;
    AheadShape(s, q, cursor);
    FrontOfDescending(Ahead(s, q, cursor), Clamp(limit));
  }

  /** The first rows of a descending sequence are above the others. */
  lemma FrontOfDescending(all: seq<Event>, n: nat)
    requires Descending(all)
    ensures var page := if |all| <= n then all else all[..n];
      && Descending(page) && (forall e :: e in page ==> e in all)
      && forall e :: e in all && e !in page ==> |page| == n && forall x :: x in page ==> e.id < x.id
  {
    var page := if |all| <= n then all else all[..n];
    forall e | e in all && e !in page ensures |page| == n && forall x :: x in page ==> e.id < x.id {
      var i :| 0 <= i < |all| && all[i] == e;
      assert |all| > n && i >= n;
      forall x | x in page ensures e.id < x.id {
        var j :| 0 <= j < |page| && page[j] == x;
        assert all[j] == x;
      }
    }
  }

  /** A query with `since` lists exactly the rows of the same query without it that are not older. */
  lemma SinceIsAFilter(s: Snapshot, q: Query, t: int, cursor: Option<int>)
    requires q.since.None?
    ensures Ahead(s, q.(since := Some(t)), cursor) == Filter((e: Event) => t <= e.ts, Ahead(s, q, cursor))
  {
    var late := (e: Event) => t <= e.ts;
    var with := Filter(Matches(q.(since := Some(t)), s.orgOf), s.rows);
    var all := Filter(Matches(q, s.orgOf), s.rows);
    FilterBoth(Matches(q, s.orgOf), late, Matches(q.(since := Some(t)), s.orgOf), s.rows);
    FilterSwap(Below(cursor), late, all);
    FilterRev(late, Filter(Below(cursor), all));
  }

  lemma {:induction false} FilterBoth(p: Event -> bool, q: Event -> bool, both: Event -> bool, t: Table)
    requires forall e :: both(e) <==> p(e) && q(e)
    ensures Filter(both, t) == Filter(q, Filter(p, t))
  {
    if t != [] { FilterBoth(p, q, both, t[1..]); }
  }

  lemma {:induction false} FilterRev(p: Event -> bool, t: Table)
    ensures Filter(p, Rev(t)) == Rev(Filter(p, t))
  {
    if t == [] {
      assert Rev(t) == [];
    } else {
      FilterRev(p, t[1..]);
      assert Rev(t) == Rev(t[1..]) + [t[0]];
      FilterAppend(p, Rev(t[1..]), [t[0]]);
      FilterOne(p, t[0]);
      hide Filter;
      assert Rev([t[0]] + Filter(p, t[1..])) == Rev(Filter(p, t[1..])) + [t[0]];
    }
  }

  // ---- following the cursor ----

  /** Everything read by following `next_cursor` until there is none, page `n` seeing the tables
      `ss(n)`: rows may be inserted, pruned or dropped between any two pages. */
  ghost function Walk(ss: nat -> Snapshot, n: nat, q: Query, cursor: Option<int>, limit: int): seq<Event>
    requires AllRowids(ss)
    decreases cursor.None?, if cursor.Some? && cursor.value > 0 then cursor.value else 0
  {
    var p := Page(ss(n), q, cursor, limit);
    PageShape(ss(n), q, cursor, limit);
    if p.nextCursor.None? then p.items else p.items + Walk(ss, n + 1, q, p.nextCursor, limit)
  }

  ghost predicate SeenSince(ss: nat -> Snapshot, n: nat, q: Query, e: Event) {
    exists m :: m >= n && e in ss(m).rows && Matches(q, ss(m).orgOf)(e)
  }

  /** No row twice and none out of order, and every row read was there and matched when its page
      was read, whatever happens between pages and whatever the limit. */
  lemma {:induction false} WalkDescends(ss: nat -> Snapshot, n: nat, q: Query, cursor: Option<int>, limit: int)
    requires AllRowids(ss)
    ensures var w := Walk(ss, n, q, cursor, limit);
            && Descending(w)
            && forall e :: e in w ==> Below(cursor)(e) && SeenSince(ss, n, q, e)
    decreases cursor.None?, if cursor.Some? && cursor.value > 0 then cursor.value else 0
  {
    hide Page, Matches, Rowids;
    PageShape(ss(n), q, cursor, limit);
    var p := Page(ss(n), q, cursor, limit);
    var w := Walk(ss, n, q, cursor, limit);
    forall e | e in p.items ensures SeenSince(ss, n, q, e) {
      assert e in ss(n).rows;
    }
    if p.nextCursor.Some? {
      var rest := Walk(ss, n + 1, q, p.nextCursor, limit);
      WalkDescends(ss, n + 1, q, p.nextCursor, limit);
      DescendingAppend(p.items, rest);
      forall e | e in rest ensures SeenSince(ss, n, q, e) && Below(cursor)(e) {
        assert SeenSince(ss, n + 1, q, e);
        assert e.id < p.nextCursor.value;
      }
    }
  }

  lemma DescendingAppend(a: seq<Event>, b: seq<Event>)
    requires Descending(a) && Descending(b) && a != []
    requires forall e :: e in b ==> e.id < a[|a| - 1].id
    ensures Descending(a + b)
  {
    forall i, j | 0 <= i < j < |a + b| ensures (a + b)[i].id > (a + b)[j].id {
      if i < |a| <= j {
        assert b[j - |a|] in b;
        assert a[i].id >= a[|a| - 1].id;
      }
    }
  }

  ghost predicate Survives(ss: nat -> Snapshot, n: nat, q: Query, e: Event) {
    forall m :: m >= n ==> e in ss(m).rows && Matches(q, ss(m).orgOf)(e)
  }

  /** For limits up to 1000, a matching row that stays in the table through the walk is read. */
  lemma {:induction false} WalkMissesNothing(ss: nat -> Snapshot, n: nat, q: Query, cursor: Option<int>, limit: int,
                                             e: Event)
    requires AllRowids(ss) && limit <= 1000
    requires Survives(ss, n, q, e) && Below(cursor)(e)
    ensures e in Walk(ss, n, q, cursor, limit)
    decreases cursor.None?, if cursor.Some? && cursor.value > 0 then cursor.value else 0
  {
    hide Ahead, Matches, Rowids, Descending;
    PageShape(ss(n), q, cursor, limit);
    var p := Page(ss(n), q, cursor, limit);
    assert e in ss(n).rows;
    AheadShape(ss(n), q, cursor);
    if e !in p.items {
      RestIsBelow(ss(n), q, cursor, limit, e);
      assert Survives(ss, n + 1, q, e);
      WalkMissesNothing(ss, n + 1, q, p.nextCursor, limit, e);
    }
  }

  lemma RestIsBelow(s: Snapshot, q: Query, cursor: Option<int>, limit: int, e: Event)
    requires Rowids(s.rows) && limit <= 1000
    requires e in Ahead(s, q, cursor) && e !in Page(s, q, cursor, limit).items
    ensures var next := Page(s, q, cursor, limit).nextCursor; next.Some? && e.id < next.value
  {
    hide Ahead, Rowids;
    AheadShape(s, q, cursor);
    var all := Ahead(s, q, cursor);
    var i :| 0 <= i < |all| && all[i] == e;
    var items := Page(s, q, cursor, limit).items;
    forall j | 0 <= j < |items| ensures all[j] != e {
      assert items[j] == all[j];
    }
  }

  // ---- a table that does not change ----

  lemma CutAt(f: Table, m: nat)
    requires Sorted(f) && m < |f|
    ensures Filter(Below(Some(f[m].id)), f) == f[..m]
  {
    hide Filter;
    var p := Below(Some(f[m].id));
    FilterAll(p, f[..m]);
    FilterNone(p, f[m..]);
    FilterAppend(p, f[..m], f[m..]);
    assert f == f[..m] + f[m..];
  }

  lemma AheadOfCursor(s: Snapshot, q: Query, cursor: Option<int>, k: nat)
    requires Rowids(s.rows) && 1 <= k <= |Ahead(s, q, cursor)|
    ensures var all := Ahead(s, q, cursor);
            (cursor.Some? ==> all[k - 1].id < cursor.value) && Ahead(s, q, Some(all[k - 1].id)) == all[k..]
  {
    hide Filter, Matches, Rowids, Sorted, Descending, Below;
    var matching, all := Filter(Matches(q, s.orgOf), s.rows), Ahead(s, q, cursor);
    var f := Filter(Below(cursor), matching);
    var m := |f| - k;
    assert all[k - 1] == f[m];
    CursorIsAbove(s, q, cursor, all[k - 1]);
    FilterNested(matching, cursor, f[m].id);
    AscendingRows(s, q, cursor);
    CutAt(f, m);
    assert Rev(f[..m]) == all[k..];
  }

  lemma CursorIsAbove(s: Snapshot, q: Query, cursor: Option<int>, e: Event)
    requires Rowids(s.rows) && e in Ahead(s, q, cursor)
    ensures cursor.Some? ==> e.id < cursor.value
  {
    hide Ahead, Matches, Rowids;
    AheadShape(s, q, cursor);
  }

  lemma AscendingRows(s: Snapshot, q: Query, cursor: Option<int>)
    requires Rowids(s.rows)
    ensures Sorted(Filter(Below(cursor), Filter(Matches(q, s.orgOf), s.rows)))
  {
    hide Filter;
    FilterSortedEvents(Matches(q, s.orgOf), s.rows);
    FilterSortedEvents(Below(cursor), Filter(Matches(q, s.orgOf), s.rows));
  }

  lemma {:induction false} FilterNested(t: Table, cursor: Option<int>, c: int)
    requires cursor.Some? ==> c < cursor.value
    ensures Filter(Below(Some(c)), Filter(Below(cursor), t)) == Filter(Below(Some(c)), t)
  {
    if t != [] { FilterNested(t[1..], cursor, c); }
  }

  lemma PageIsFront(s: Snapshot, q: Query, cursor: Option<int>, limit: int)
    ensures var p, all := Page(s, q, cursor, limit), Ahead(s, q, cursor);
            && p.items == all[..|p.items|] && |p.items| == (if |all| <= Clamp(limit) then |all| else Clamp(limit))
            && (p.nextCursor.Some? <==> |p.items| >= limit && p.items != [])
            && (p.nextCursor.Some? ==> p.nextCursor.value == all[|p.items| - 1].id)
  {
    hide Ahead;
  }

  lemma {:induction false} StaticWalk(ss: nat -> Snapshot, n: nat, q: Query, cursor: Option<int>, limit: int)
    requires AllRowids(ss) && (forall m: nat :: ss(m) == ss(0))
    ensures var all := Ahead(ss(0), q, cursor);
            Walk(ss, n, q, cursor, limit) == if limit <= 1000 || |all| <= 1000 then all else all[..1000]
    decreases cursor.None?, if cursor.Some? && cursor.value > 0 then cursor.value else 0
  {
    hide Ahead, Rowids, Matches, Below, Descending, Page;
    assert ss(n) == ss(0);
    PageIsFront(ss(0), q, cursor, limit);
    var p, all := Page(ss(n), q, cursor, limit), Ahead(ss(0), q, cursor);
    PageShape(ss(n), q, cursor, limit);
    if p.nextCursor.Some? {
      AheadOfCursor(ss(0), q, cursor, |p.items|);
      StaticWalk(ss, n + 1, q, p.nextCursor, limit);
      assert all == all[..|p.items|] + all[|p.items|..];
    }
  }

  /** While nothing changes, following the cursor reads every matching row exactly when the limit
      is at most 1000 or there are at most 1000 matching rows. */
  lemma StaticWalkIsCompleteIff(s: Snapshot, q: Query, limit: int)
    requires Rowids(s.rows)
    ensures var ss := (n: nat) => s;
            AllRowids(ss) &&
            (Walk(ss, 0, q, None, limit) == Rev(Filter(Matches(q, s.orgOf), s.rows)) <==>
             limit <= 1000 || |Filter(Matches(q, s.orgOf), s.rows)| <= 1000)
  {
    hide Filter, Matches, Rowids;
    var ss := (n: nat) => s;
    assert AllRowids(ss);
    StaticWalk(ss, 0, q, None, limit);
    var matching := Filter(Matches(q, s.orgOf), s.rows);
    FilterAll(Below(None), matching);
    assert Ahead(s, q, None) == Rev(matching);
  }

  function Nth(i: nat): Event { Event(i + 1, 7, "door", 0, "") }

  /** One device of org 3 with `n` events. */
  function Busy(n: nat): Snapshot {
    Snapshot(seq(n, i requires 0 <= i => Nth(i)), map[7 := 3])
  }

  lemma BusyAhead(n: nat, q: Query)
    requires q == Query(3, None, None, None)
    ensures Rowids(Busy(n).rows) && |Busy(n).rows| == n && Ahead(Busy(n), q, None) == Rev(Busy(n).rows)
  {
    var s := Busy(n);
    forall e | e in s.rows ensures Matches(q, s.orgOf)(e) && Below(None)(e) {
      var i :| 0 <= i < n && s.rows[i] == e;
    }
    FilterAll(Matches(q, s.orgOf), s.rows);
    FilterAll(Below(None), s.rows);
  }

  /** Over 1001 events a limit of 1001 reads 1000 and reports the end; a limit of 1000 reads them all. */
  lemma LongPageStops()
    ensures var s, q, ss := Busy(1001), Query(3, None, None, None), (n: nat) => Busy(1001);
      && AllRowids(ss)
      && |Walk(ss, 0, q, None, 1001)| == 1000 && Page(s, q, None, 1001).nextCursor == None
      && Walk(ss, 0, q, None, 1000) == Rev(s.rows)
  {
    hide Filter, Matches, Below, Busy, Rowids, Page, Walk;
    var s, q, ss := Busy(1001), Query(3, None, None, None), (n: nat) => Busy(1001);
    BusyAhead(1001, q);
    assert AllRowids(ss);
    hide Ahead;
    StaticWalk(ss, 0, q, None, 1001);
    StaticWalk(ss, 0, q, None, 1000);
    PageIsFront(s, q, None, 1001);
  }

  // ---- the live stream ----

  /** The stream's filter on one broadcast, which carries the device's org beside the row. */
  predicate StreamKeeps(q: Query, org: int, e: Event) {
    && org == q.org
    && (q.device.Some? ==> e.device == q.device.value)
    && (q.topic.Some? ==> Glob.GlobMatch(Utf8.Encode(q.topic.value), Utf8.Encode(e.topic)))
  }

  /** The cursor query lists a row exactly when the live stream shows its broadcast and the row is not older
      than `since`: for a topic pattern that means the same to both matchers, or has no `[` and meets an ASCII
      topic, neither holding U+0000. */
  lemma StreamAgreesWithList(q: Query, orgOf: map<int, int>, e: Event)
    requires e.device in orgOf
    requires q.topic.Some? ==>
               && '[' !in q.topic.value && (GlobExact.WildcardsOk(q.topic.value) || Utf8.Ascii(e.topic))
               && Glob.NulFree(q.topic.value) && Glob.NulFree(e.topic)
    ensures Matches(q, orgOf)(e) <==>
            StreamKeeps(q, orgOf[e.device], e) && (q.since.Some? ==> q.since.value <= e.ts)
  {
    if q.topic.Some? {
      if Utf8.Ascii(e.topic) {
        Glob.GlobAgrees(q.topic.value, e.topic);
      } else {
        GlobExact.AgreeOn(q.topic.value, e.topic);
      }
    }
  }

  /** On the events of one device that the query is about, stream and list agree whatever the topic, U+0000
      apart, exactly when the pattern means the same to both matchers. */
  lemma StreamAgreesWithListIff(q: Query, orgOf: map<int, int>, e: Event)
    requires q.since.None? && e.device in orgOf && orgOf[e.device] == q.org
    requires q.device.Some? ==> e.device == q.device.value
    requires q.topic.Some? ==> Glob.NulFree(q.topic.value)
    ensures (forall topic | Glob.NulFree(topic) ::
               StreamKeeps(q, q.org, e.(topic := topic)) <==> Matches(q, orgOf)(e.(topic := topic))) <==>
            (q.topic.Some? ==> '[' !in q.topic.value && GlobExact.WildcardsOk(q.topic.value))
  {
    if q.topic.Some? && !('[' !in q.topic.value && GlobExact.WildcardsOk(q.topic.value)) {
      var v := GlobExact.DifferOn(q.topic.value);
      assert StreamKeeps(q, q.org, e.(topic := v)) != Matches(q, orgOf)(e.(topic := v));
    } else {
      forall topic | Glob.NulFree(topic)
        ensures StreamKeeps(q, q.org, e.(topic := topic)) <==> Matches(q, orgOf)(e.(topic := topic))
      {
        StreamAgreesWithList(q, orgOf, e.(topic := topic));
      }
    }
  }

  /** With U+0000 allowed in both, exactly when the pattern asks for a prefix. */
  lemma StreamAgreesOnAllIff(q: Query, orgOf: map<int, int>, e: Event)
    requires q.since.None? && e.device in orgOf && orgOf[e.device] == q.org
    requires q.device.Some? ==> e.device == q.device.value
    ensures (forall topic ::
               StreamKeeps(q, q.org, e.(topic := topic)) <==> Matches(q, orgOf)(e.(topic := topic))) <==>
            (q.topic.Some? ==> GlobNul.LiteralThenStars(q.topic.value))
  {
    if q.topic.Some? && !GlobNul.LiteralThenStars(q.topic.value) {
      var v := GlobNul.DifferSomewhere(q.topic.value);
      assert StreamKeeps(q, q.org, e.(topic := v)) != Matches(q, orgOf)(e.(topic := v));
    } else if q.topic.Some? {
      forall topic ensures StreamKeeps(q, q.org, e.(topic := topic)) <==> Matches(q, orgOf)(e.(topic := topic)) {
        GlobNul.PrefixAgrees(q.topic.value, topic);
      }
    }
  }
}
