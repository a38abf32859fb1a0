// The `events` table: a ring of the newest rows per device, and the unbounded table it stands for.
module EventRing {
  import opened Wrappers
  import opened Seqs

  const EVENTS_MAX_PER_DEVICE: nat := 10_000
  const PAYLOAD_CAP: nat := 65536

  datatype Event = Event(id: int, device: int, topic: string, ts: int, payload: string)

  /** Rows in id order. */
  type Table = seq<Event>

  datatype Db = Db(devices: set<int>, rows: Table)

  datatype Op =
    | AddDevice(device: int)
    | DropDevice(device: int)
    | Insert(source: int, topic: string, ts: int, payload: string)

  datatype Reply = Inserted(id: int) | Refused | Done

  predicate Sorted(t: Table) { forall i, j :: 0 <= i < j < |t| ==> t[i].id < t[j].id }

  function Of(device: int): Event -> bool { (e: Event) => e.device == device }

  /** The rowid SQLite hands out: one above the largest in the table. */
  function NextId(t: Table): int { if t == [] then 1 else t[|t| - 1].id + 1 }

  function Newest(t: Table, n: nat): Table { if |t| <= n then t else t[|t| - n..] }

  // ---- one transaction ----

  /** The subquery of the prune: the device's rows newest first, past the first `cap`. */
  function PastCap(t: Table, device: int, cap: nat): Table {
    var newestFirst := Rev(Filter(Of(device), t));
    if |newestFirst| <= cap then [] else newestFirst[cap..]
  }

  function IdIn(id: int, t: Table): bool { exists i :: 0 <= i < |t| && t[i].id == id }

  function Doomed(t: Table, device: int, cap: nat): Event -> bool {
    (e: Event) => e.device == device && IdIn(e.id, PastCap(t, device, cap))
  }

  function Prune(t: Table, device: int, cap: nat): Table { Filter(Not(Doomed(t, device, cap)), t) }

  /** The foreign key and the CHECK on the payload length. */
  predicate Insertable(db: Db, op: Op)
    requires op.Insert?
  {
    op.source in db.devices && |op.payload| <= PAYLOAD_CAP
  }

  function ReplyTo(db: Db, op: Op): Reply {
    if op.Insert? then (if Insertable(db, op) then Inserted(NextId(db.rows)) else Refused) else Done
  }

  /** One operation, with the table pruned to `cap` rows per device or, for `None`, never pruned. */
  function Apply(db: Db, op: Op, cap: Option<nat>): Db {
    match op
    case AddDevice(d) => db.(devices := db.devices + {d})
    case DropDevice(d) => Db(db.devices - {d}, Filter(Not(Of(d)), db.rows))
    case Insert(d, topic, ts, payload) =>
      if !Insertable(db, op) then db
      else
        var t := db.rows + [Event(NextId(db.rows), d, topic, ts, payload)];
        db.(rows := if cap.None? then t else Prune(t, d, cap.value))
  }

  function Run(ops: seq<Op>, cap: Option<nat>): Db {
    if ops == [] then Db({}, []) else Apply(Run(ops[..|ops| - 1], cap), ops[|ops| - 1], cap)
  }

  function Replies(ops: seq<Op>, cap: Option<nat>): seq<Reply> {
    if ops == [] then []
    else Replies(ops[..|ops| - 1], cap) + [ReplyTo(Run(ops[..|ops| - 1], cap), ops[|ops| - 1])]
  }

  /** A run is its operations one after another, each answered from the table as it finds it. */
  lemma RunIsStepwise(ops: seq<Op>, op: Op, cap: Option<nat>)
    ensures Run([], cap) == Db({}, []) && Replies([], cap) == []
    ensures Run(ops + [op], cap) == Apply(Run(ops, cap), op, cap)
    ensures Replies(ops + [op], cap) == Replies(ops, cap) + [ReplyTo(Run(ops, cap), op)]
  {
    assert (ops + [op])[..|ops|] == ops;
  }

  /** The device was added and not dropped since. */
  predicate Known(ops: seq<Op>, d: int) {
    exists i :: 0 <= i < |ops| && ops[i] == AddDevice(d) && DropDevice(d) !in ops[i..]
  }

  lemma KnownSnoc(ops: seq<Op>, op: Op, d: int)
    ensures Known(ops + [op], d) <==> op == AddDevice(d) || (Known(ops, d) && op != DropDevice(d))
  {
    var all := ops + [op];
    forall i | 0 <= i < |ops| ensures all[i] == ops[i] && all[i..] == ops[i..] + [op] {}
    assert all[|ops|..] == [op] && all[|ops|] == op;
  }

  /** The devices a source may name are those added and not dropped since, and only they have rows. */
  lemma {:induction false} SourcesAreKnown(ops: seq<Op>, cap: Option<nat>)
    ensures forall d :: d in Run(ops, cap).devices <==> Known(ops, d)
    ensures forall e :: e in Run(ops, cap).rows ==> Known(ops, e.device)
  {
    if ops != [] {
      hide Known;
      var was, op := ops[..|ops| - 1], ops[|ops| - 1];
      SourcesAreKnown(was, cap);
      assert ops == was + [op];
      forall d ensures d in Run(ops, cap).devices <==> Known(ops, d) { KnownSnoc(was, op, d); }
      hide Apply;
      forall e | e in Run(ops, cap).rows ensures Known(ops, e.device) {
        OldOrInserted(Run(was, cap), op, cap, e);
        KnownSnoc(was, op, e.device);
      }
    }
  }

  /** A row of the table was there before, or the step inserted it for a known device. */
  lemma OldOrInserted(db: Db, op: Op, cap: Option<nat>, e: Event)
    requires e in Apply(db, op, cap).rows
    ensures (e in db.rows && op != DropDevice(e.device)) || (op.Insert? && e.device == op.source && op.source in db.devices)
  {
    match op
    case AddDevice(_) =>
    case DropDevice(d) => FilterMember(Not(Of(d)), db.rows);
    case Insert(d, topic, ts, payload) =>
      var t := db.rows + [Event(NextId(db.rows), d, topic, ts, payload)];
      if Insertable(db, op) && cap.Some? { FilterMember(Not(Doomed(t, d, cap.value)), t); }
  }

  /** Dropping a device drops its rows and no others; what is left keeps its order. */
  lemma DropCascades(db: Db, d: int, cap: Option<nat>)
    requires Sorted(db.rows)
    ensures var rows := Apply(db, DropDevice(d), cap).rows;
      Sorted(rows) && forall e :: e in rows <==> e in db.rows && e.device != d
  {
    FilterMember(Not(Of(d)), db.rows);
    FilterSortedEvents(Not(Of(d)), db.rows);
  }

  // ---- the ring holds the newest rows ----

  /** `ring` is `full` cut down to the newest `cap` rows of every device. */
  ghost predicate Refines(ring: Db, full: Db, cap: nat) {
    && ring.devices == full.devices && Sorted(ring.rows) && Sorted(full.rows)
    && forall d :: Filter(Of(d), ring.rows) == Newest(Filter(Of(d), full.rows), cap)
  }

  lemma {:induction false} FilterSortedEvents(p: Event -> bool, t: Table)
    requires Sorted(t)
    ensures Sorted(Filter(p, t))
  {
    if t != [] {
      FilterSortedEvents(p, t[1..]);
      FilterMember(p, t[1..]);
      var rest := Filter(p, t[1..]);
      forall j | 0 <= j < |rest| ensures t[0].id < rest[j].id {
        assert rest[j] in t[1..];
      }
    }
  }

  lemma {:induction false} FilterSwap(p: Event -> bool, q: Event -> bool, t: Table)
    ensures Filter(p, Filter(q, t)) == Filter(q, Filter(p, t))
  {
    if t != [] { FilterSwap(p, q, t[1..]); }
  }

  /** Pruning keeps the device's newest rows and nobody else's rows are touched. */
  lemma PruneKeepsNewest(t: Table, device: int, cap: nat, d: int)
    requires Sorted(t)
    ensures Sorted(Prune(t, device, cap))
    ensures Filter(Of(d), Prune(t, device, cap)) ==
            if d == device then Newest(Filter(Of(d), t), cap) else Filter(Of(d), t)
  {
    hide Filter, Sorted;
    var mine, keep := Filter(Of(d), t), Not(Doomed(t, device, cap));
    FilterSortedEvents(keep, t);
    FilterSwap(Of(d), keep, t);
    FilterMember(Of(d), t);
    if d != device {
      FilterAll(keep, mine);
    } else {
      FilterSortedEvents(Of(d), t);
      PruneOwn(t, d, cap, mine);
    }
  }

  lemma SparedIff(t: Table, d: int, cap: nat, mine: Table, i: nat)
    requires mine == Filter(Of(d), t) && Sorted(mine) && i < |mine| && mine[i].device == d
    ensures Not(Doomed(t, d, cap))(mine[i]) <==> |mine| - cap <= i
  {
    hide Filter;
    var past := PastCap(t, d, cap);
    if |mine| > cap {
      var k := |mine| - cap;
      assert |past| == k && forall j :: 0 <= j < k ==> past[j] == mine[k - 1 - j];
      if i < k { assert past[k - 1 - i].id == mine[i].id; }
    }
  }

  lemma PruneOwn(t: Table, d: int, cap: nat, mine: Table)
    requires mine == Filter(Of(d), t) && Sorted(mine) && forall e :: e in mine ==> e.device == d
    ensures Filter(Not(Doomed(t, d, cap)), mine) == Newest(mine, cap)
  {
    hide Filter, Sorted, Doomed, Not;
    var keep := Not(Doomed(t, d, cap));
    var k := if |mine| <= cap then 0 else |mine| - cap;
    forall i | 0 <= i < |mine| ensures keep(mine[i]) <==> k <= i {
      assert mine[i] in mine;
      SparedIff(t, d, cap, mine, i);
    }
    FilterNone(keep, mine[..k]);
    FilterAll(keep, mine[k..]);
    FilterAppend(keep, mine[..k], mine[k..]);
    assert mine == mine[..k] + mine[k..];
  }

  /** The largest id of the full table is still in the ring, so both hand out the same next id. */
  lemma SameNextId(ring: Db, full: Db, cap: nat)
    requires Refines(ring, full, cap) && cap >= 1
    ensures NextId(ring.rows) == NextId(full.rows)
  {
    hide Refines, Sorted;
    RingSorted(ring, full, cap);
    if full.rows != [] {
      var last := full.rows[|full.rows| - 1];
      LastIsKept(ring, full, cap);
      SortedLast(ring.rows, last);
    }
    if ring.rows != [] {
      var top := ring.rows[|ring.rows| - 1];
      KeptWasThere(ring, full, cap, top);
      SortedLast(full.rows, top);
    }
  }

  lemma RingSorted(ring: Db, full: Db, cap: nat)
    requires Refines(ring, full, cap)
    ensures Sorted(ring.rows) && Sorted(full.rows)
  {
  }

  lemma SortedLast(t: Table, e: Event)
    requires Sorted(t) && e in t
    ensures e.id <= t[|t| - 1].id
  {
  }

  lemma LastIsKept(ring: Db, full: Db, cap: nat)
    requires Refines(ring, full, cap) && cap >= 1 && full.rows != []
    ensures full.rows[|full.rows| - 1] in ring.rows
  {
    hide Filter, Sorted;
    var last := full.rows[|full.rows| - 1];
    var p := Of(last.device);
    var mine := Filter(p, full.rows);
    LastOfFilter(full.rows);
    assert Newest(mine, cap)[|Newest(mine, cap)| - 1] == last;
    assert last in Filter(p, ring.rows);
    FilterMember(p, ring.rows);
  }

  lemma KeptWasThere(ring: Db, full: Db, cap: nat, e: Event)
    requires Refines(ring, full, cap) && e in ring.rows
    ensures e in full.rows
  {
    hide Filter, Sorted;
    var p := Of(e.device);
    FilterMember(p, ring.rows);
    assert e in Newest(Filter(p, full.rows), cap);
    assert e in Filter(p, full.rows);
    FilterMember(p, full.rows);
  }

  lemma LastOfFilter(t: Table)
    requires t != []
    ensures var e := t[|t| - 1];
            var mine := Filter(Of(e.device), t);
            mine != [] && mine[|mine| - 1] == e
  {
    var e := t[|t| - 1];
    FilterAppend(Of(e.device), t[..|t| - 1], [e]);
    FilterOne(Of(e.device), e);
    assert t == t[..|t| - 1] + [e];
  }

  lemma NewestSnoc(s: Table, e: Event, n: nat)
    ensures Newest(Newest(s, n) + [e], n) == Newest(s + [e], n)
  {
  }

  lemma InsertRefines(ring: Db, full: Db, op: Op, cap: nat)
    requires Refines(ring, full, cap) && cap >= 1 && op.Insert? && Insertable(ring, op)
    ensures Refines(Apply(ring, op, Some(cap)), Apply(full, op, None), cap)
  {
    hide Filter, Prune, Newest;
    SameNextId(ring, full, cap);
    var e := Event(NextId(full.rows), op.source, op.topic, op.ts, op.payload);
    var t := ring.rows + [e];
    SortedSnoc(ring.rows, e);
    SortedSnoc(full.rows, e);
    forall d ensures Filter(Of(d), Prune(t, op.source, cap)) == Newest(Filter(Of(d), full.rows + [e]), cap) {
      PruneKeepsNewest(t, op.source, cap, d);
      FilterAppend(Of(d), ring.rows, [e]);
      FilterAppend(Of(d), full.rows, [e]);
      FilterOne(Of(d), e);
      if d == op.source {
        NewestSnoc(Filter(Of(d), full.rows), e, cap);
      } else {
        assert Filter(Of(d), ring.rows) + [] == Filter(Of(d), ring.rows);
        assert Filter(Of(d), full.rows) + [] == Filter(Of(d), full.rows);
      }
    }
    PruneKeepsNewest(t, op.source, cap, 0);
  }

  lemma SortedSnoc(t: Table, e: Event)
    requires Sorted(t) && e.id == NextId(t)
    ensures Sorted(t + [e])
  {
  }

  lemma DropRefines(ring: Db, full: Db, d: int, cap: nat)
    requires Refines(ring, full, cap)
    ensures Refines(Apply(ring, DropDevice(d), Some(cap)), Apply(full, DropDevice(d), None), cap)
  {
    hide Filter;
    var others := Not(Of(d));
    FilterSortedEvents(others, ring.rows);
    FilterSortedEvents(others, full.rows);
    forall x ensures Filter(Of(x), Filter(others, ring.rows)) == Newest(Filter(Of(x), Filter(others, full.rows)), cap) {
      FilterOthers(d, x, ring.rows);
      FilterOthers(d, x, full.rows);
    }
  }

  lemma FilterOthers(d: int, x: int, t: Table)
    ensures Filter(Of(x), Filter(Not(Of(d)), t)) == if x == d then [] else Filter(Of(x), t)
  {
    hide Filter;
    FilterMember(Not(Of(d)), t);
    if x == d {
      FilterNone(Of(x), Filter(Not(Of(d)), t));
    } else {
      FilterSwap(Of(x), Not(Of(d)), t);
      FilterMember(Of(x), t);
      FilterAll(Not(Of(d)), Filter(Of(x), t));
    }
  }

  /** After any operations, each device holds exactly its newest `cap` rows of the table that was
      never pruned, and every insert was answered with the id it would have had there. */
  lemma {:induction false} RingRefines(ops: seq<Op>, cap: nat)
    requires cap >= 1
    ensures Refines(Run(ops, Some(cap)), Run(ops, None), cap)
    ensures Replies(ops, Some(cap)) == Replies(ops, None)
  {
    hide Filter, Prune, Newest;
    if ops == [] {
      assert forall d :: Filter(Of(d), []) == [] && Newest([], cap) == [] by {
        forall d ensures Filter(Of(d), []) == [] { FilterNone(Of(d), []); }
        assert Newest([], cap) == [] by { NewestNil(cap); }
      }
    } else {
      var front, op := ops[..|ops| - 1], ops[|ops| - 1];
      RingRefines(front, cap);
      var ring, full := Run(front, Some(cap)), Run(front, None);
      SameNextId(ring, full, cap);
      match op
      case AddDevice(_) =>
      case DropDevice(d) => DropRefines(ring, full, d, cap);
      case Insert(_, _, _, _) => if Insertable(ring, op) { InsertRefines(ring, full, op, cap); }
    }
  }

  lemma NewestNil(cap: nat)
    ensures Newest([], cap) == []
  {
  }

  /** The shipped cap: at most 10000 rows of a device are ever visible, and exactly the rows of
      the unpruned table while it has no more than that. */
  lemma RingBound(ops: seq<Op>, d: int)
    ensures var held := Filter(Of(d), Run(ops, Some(EVENTS_MAX_PER_DEVICE)).rows);
            var all := Filter(Of(d), Run(ops, None).rows);
            && |held| == (if |all| <= 10_000 then |all| else 10_000)
            && held == all[|all| - |held|..]
  {
    hide Filter;
    RingRefines(ops, EVENTS_MAX_PER_DEVICE);
  }

  // ---- the table itself ----

  /** A row outlives the prune exactly when fewer than `cap` of its device's rows come after it. */
  lemma SparedByRank(t: Table, d: int, cap: nat, i: nat)
    requires Sorted(t) && i < |t| && t[i].device == d
    ensures Not(Doomed(t, d, cap))(t[i]) <==> |Filter(Of(d), t[i + 1..])| < cap
  {
    hide Filter, Sorted, Doomed, Not;
    var a, b := t[..i], t[i + 1..];
    var mine, k := Filter(Of(d), t), |Filter(Of(d), a)|;
    assert t == a + [t[i]] + b;
    FilterAppend(Of(d), a + [t[i]], b);
    FilterAppend(Of(d), a, [t[i]]);
    FilterOne(Of(d), t[i]);
    FilterSortedEvents(Of(d), t);
    assert mine[k] == t[i];
    SparedIff(t, d, cap, mine, k);
  }

  class EventStore {
    var devices: set<int>
    var rows: Table

    ghost predicate Valid() reads this { Sorted(rows) }

    function Contents(): Db reads this { Db(devices, rows) }

    constructor ()
      ensures Valid() && Contents() == Run([], Some(EVENTS_MAX_PER_DEVICE))
    {
      devices, rows := {}, [];
    }

    /** DELETE … WHERE device_id = ? AND id IN (… ORDER BY id DESC LIMIT -1 OFFSET cap), as a scan from the
        newest row down: the device's first `cap` rows are passed over and the others go. */
    method PruneDevice(device: int, cap: nat)
      requires Valid()
      modifies this`rows
      ensures Valid() && rows == Prune(old(rows), device, cap)
    {
      hide Filter, Doomed, Not;
      var t, kept, seen := rows, [], 0;
      ghost var keep := Not(Doomed(t, device, cap));
      PruneKeepsNewest(t, device, cap, device);
      NothingYet(t, device, keep);
      for i := |t| downto 0
        invariant kept == Filter(keep, t[i..]) && seen == |Filter(Of(device), t[i..])|
      {
        var row := t[i];
        assert t[i..] == [row] + t[i + 1..];
        FilterAppend(keep, [row], t[i + 1..]);
        FilterAppend(Of(device), [row], t[i + 1..]);
        FilterOne(keep, row);
        FilterOne(Of(device), row);
        if row.device == device {
          SparedByRank(t, device, cap, i);
          if seen < cap { kept := [row] + kept; }
          seen := seen + 1;
        } else {
          OthersSpared(t, device, cap, row);
          kept := [row] + kept;
        }
      }
      assert t[0..] == t;
      rows := kept;
    }

    /** Insert and prune in one transaction: a refused insert leaves the table as it was. */
    method InsertEvent(device: int, topic: string, ts: int, payload: string) returns (r: Reply)
      requires Valid()
      modifies this`rows
      ensures Valid() && r == ReplyTo(old(Contents()), Insert(device, topic, ts, payload))
      ensures r == Refused <==> device !in devices || |payload| > 65_536
      ensures r != Refused ==> r == Inserted(if old(rows) == [] then 1 else old(rows)[|old(rows)| - 1].id + 1)
      ensures r.Inserted? ==> Event(r.id, device, topic, ts, payload) in rows
      ensures Contents() ==
              Apply(old(Contents()), Insert(device, topic, ts, payload), Some(EVENTS_MAX_PER_DEVICE))
    {
      if device !in devices || |payload| > PAYLOAD_CAP { return Refused; }
      NewRowStays(rows, Event(NextId(rows), device, topic, ts, payload), EVENTS_MAX_PER_DEVICE);
      hide Prune;
      var id := NextId(rows);
      SortedSnoc(rows, Event(id, device, topic, ts, payload));
      rows := rows + [Event(id, device, topic, ts, payload)];
      PruneDevice(device, EVENTS_MAX_PER_DEVICE);
      return Inserted(id);
    }
  }

  /** The row just inserted is its device's newest, so the prune spares it. */
  lemma NewRowStays(t: Table, e: Event, cap: nat)
    requires Sorted(t) && e.id == NextId(t) && cap >= 1
    ensures e in Prune(t + [e], e.device, cap)
  {
    var all, d := t + [e], e.device;
    SortedSnoc(t, e);
    SparedByRank(all, d, cap, |t|);
    assert all[|t| + 1..] == [];
    FilterMember(Not(Doomed(all, d, cap)), all);
    assert all[|t|] == e;
  }

  lemma NothingYet(t: Table, d: int, keep: Event -> bool)
    ensures Filter(keep, t[|t|..]) == [] && Filter(Of(d), t[|t|..]) == []
  {
  }

  lemma OthersSpared(t: Table, d: int, cap: nat, e: Event)
    requires e.device != d
    ensures Not(Doomed(t, d, cap))(e)
  {
  }
}
