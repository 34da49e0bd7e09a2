/**
 The neighbour cache shared by LLDP, CDP and MNDP discovery (backend/discovery/lldp.py, cdp.py,
 mndp.py): the latest record of each source MAC, bounded to 500 entries, purged on reads.

 Times are integer ticks.  The results hold as long as packets arrive at strictly increasing times and
 reads at nondecreasing ones, which the wall clock does not guarantee.
 */
module NeighborCache {
  import opened Listing
  import opened Sets
  import opened Sorting

  const MAX_NEIGHBORS: nat := 500

  datatype Sighting<M, R> = Sighting(mac: M, record: R, time: int)

  datatype Entry<R> = Entry(record: R, lastSeen: int)

  /** One row of `get_neighbors`. */
  datatype Row<M, R> = Row(mac: M, record: R, lastSeen: int, age: int)

  // ----- What the history says -----

  ghost predicate Chronological<M(!new), R>(h: seq<Sighting<M, R>>) {
    forall i, j :: 0 <= i < j < |h| ==> h[i].time < h[j].time
  }

  /** `h[i]` is the latest sighting of `m`. */
  ghost predicate Latest<M(!new), R>(h: seq<Sighting<M, R>>, m: M, i: int) {
    0 <= i < |h| && h[i].mac == m && forall j :: i < j < |h| ==> h[j].mac != m
  }

  ghost function MacsFrom<M(!new), R>(h: seq<Sighting<M, R>>, i: int): set<M>
    requires 0 <= i
  {
    set j | i <= j < |h| :: h[j].mac
  }

  /** Latest sighting at `i`, no earlier than `cut`, and fewer than 500 MACs seen after it. */
  ghost predicate Fresh<M(!new), R>(h: seq<Sighting<M, R>>, i: int, cut: int)
    requires 0 <= i < |h|
  {
    h[i].time >= cut && |MacsFrom(h, i + 1)| < MAX_NEIGHBORS
  }

  /** The table is exactly the fresh part of the history. */
  ghost predicate Refines<M(!new), R>(table: map<M, Entry<R>>, h: seq<Sighting<M, R>>, cut: int) {
    && (forall m :: m in table ==> m in MacsFrom(h, 0))
    && (forall m, i :: Latest(h, m, i) ==>
          && (m in table <==> Fresh(h, i, cut))
          && (m in table ==> table[m] == Entry(h[i].record, h[i].time)))
  }

  ghost function Newer<M(!new), R>(table: map<M, Entry<R>>, m: M): set<M>
    requires m in table
  {
    set n | n in table && table[n].lastSeen > table[m].lastSeen
  }

  ghost predicate IsOldest<M(!new), R>(table: map<M, Entry<R>>, m: M) {
    m in table && forall n :: n in table ==> table[m].lastSeen <= table[n].lastSeen
  }

  // ----- Facts about histories -----

  lemma {:induction false} HasLatest<M(!new), R>(h: seq<Sighting<M, R>>, m: M) returns (i: int)
    requires m in MacsFrom(h, 0)
    ensures Latest(h, m, i)
    decreases |h|
  {
    var j :| 0 <= j < |h| && h[j].mac == m;
    i := |h| - 1;
    while h[i].mac != m
      invariant j <= i < |h|
      invariant forall k :: i < k < |h| ==> h[k].mac != m
      decreases i
    {
      i := i - 1;
    }
  }

  lemma LatestIsUnique<M(!new), R>(h: seq<Sighting<M, R>>, m: M, i: int, j: int)
    requires Latest(h, m, i) && Latest(h, m, j)
    ensures i == j
  {
  }

  /** In a refining table, the MACs seen after `m` are exactly the newer entries. */
  lemma SeenAfterIsNewer<M(!new), R>(table: map<M, Entry<R>>, h: seq<Sighting<M, R>>, cut: int, m: M, i: int)
    requires Chronological(h) && Refines(table, h, cut) && m in table && Latest(h, m, i)
    ensures MacsFrom(h, i + 1) == Newer(table, m)
  {
    forall n | n in MacsFrom(h, i + 1)
      ensures n in Newer(table, m)
    {
      var k :| i + 1 <= k < |h| && h[k].mac == n;
      assert n in MacsFrom(h, 0);
      var j := HasLatest(h, n);
      assert j >= k;
      SubsetCard(MacsFrom(h, j + 1), MacsFrom(h, i + 1));
      assert Fresh(h, j, cut);
    }
    forall n | n in Newer(table, m)
      ensures n in MacsFrom(h, i + 1)
    {
      var j := HasLatest(h, n);
      assert table[n].lastSeen == h[j].time > h[i].time;
    }
  }

  lemma {:induction false} OldestExists<M(!new), R>(table: map<M, Entry<R>>, keys: set<M>) returns (o: M)
    requires keys != {} && keys <= table.Keys
    ensures o in keys && forall n :: n in keys ==> table[o].lastSeen <= table[n].lastSeen
    decreases |keys|
  {
    var x :| x in keys;
    if keys == {x} {
      o := x;
    } else {
      var rest := OldestExists(table, keys - {x});
      o := if table[x].lastSeen <= table[rest].lastSeen then x else rest;
    }
  }

  /** A refining table never holds more than 500 entries. */
  lemma RefiningTableIsBounded<M(!new), R>(table: map<M, Entry<R>>, h: seq<Sighting<M, R>>, cut: int)
    requires Chronological(h) && Refines(table, h, cut)
    ensures |table| <= MAX_NEIGHBORS
  {
    if table.Keys != {} {
      var o := OldestExists(table, table.Keys);
      var i := HasLatest(h, o);
      SeenAfterIsNewer(table, h, cut, o, i);
      EntryTimesDiffer(table, h, cut, o);
      assert Newer(table, o) == table.Keys - {o};
      assert |table.Keys| == |table|;
    }
  }

  lemma EntryTimesDiffer<M(!new), R>(table: map<M, Entry<R>>, h: seq<Sighting<M, R>>, cut: int, m: M)
    requires Chronological(h) && Refines(table, h, cut) && m in table
    ensures forall n :: n in table && n != m ==> table[n].lastSeen != table[m].lastSeen
  {
    var i := HasLatest(h, m);
    forall n | n in table && n != m
      ensures table[n].lastSeen != table[m].lastSeen
    {
      var j := HasLatest(h, n);
      assert i < j || j < i;
    }
  }

  // ----- Reads -----

  function Purged<M(!new), R>(table: map<M, Entry<R>>, cut: int): map<M, Entry<R>> {
    map m | m in table && table[m].lastSeen >= cut :: table[m]
  }

  lemma PurgeRefines<M(!new), R>(table: map<M, Entry<R>>, h: seq<Sighting<M, R>>, cut: int, cut': int)
    requires Refines(table, h, cut) && cut <= cut'
    ensures Refines(Purged(table, cut'), h, cut')
  {
  }

  // ----- Packets -----

  /** The table once `_handle_packet` has stored a sighting and evicted, if it must, an oldest entry. */
  ghost predicate Stored<M(!new), R>(table: map<M, Entry<R>>, s: Sighting<M, R>, table': map<M, Entry<R>>) {
    var added := table[s.mac := Entry(s.record, s.time)];
    if |added| <= MAX_NEIGHBORS then table' == added
    else exists o :: IsOldest(added, o) && table' == if o == s.mac then added else added - {o}
  }

  /** What the next sighting does to the latest sightings of the others. */
  lemma LatestAfter<M(!new), R>(h: seq<Sighting<M, R>>, s: Sighting<M, R>, m: M, i: int)
    requires m != s.mac
    ensures Latest(h + [s], m, i) <==> Latest(h, m, i)
    ensures 0 <= i < |h| ==> MacsFrom(h + [s], i + 1) == MacsFrom(h, i + 1) + {s.mac}
  {
    var h' := h + [s];
    if Latest(h', m, i) {
      assert i != |h|;
      forall j | i < j < |h| ensures h[j].mac != m { assert h'[j].mac != m; }
    }
    if 0 <= i < |h| {
      assert h'[|h|] == s;
      forall j | i + 1 <= j < |h|
        ensures h[j].mac in MacsFrom(h', i + 1)
      {
        assert h'[j] == h[j];
      }
    }
  }

  /** How many MACs have been seen after `m` once `s` has arrived, in terms of the table. */
  lemma CountAfter<M(!new), R>(table: map<M, Entry<R>>, h: seq<Sighting<M, R>>, cut: int, s: Sighting<M, R>, m: M, i: int)
    requires Chronological(h) && Refines(table, h, cut) && m in table && m != s.mac && Latest(h, m, i)
    ensures |MacsFrom(h + [s], i + 1)| == |Newer(table, m) + {s.mac}|
    ensures Newer(table, m) + {s.mac} <= table.Keys + {s.mac} - {m}
  {
    LatestAfter(h, s, m, i);
    SeenAfterIsNewer(table, h, cut, m, i);
  }

  /** Without eviction, every old entry stays fresh and every absent one stays absent. */
  lemma StoreWithoutEviction<M(!new), R>(table: map<M, Entry<R>>, h: seq<Sighting<M, R>>, cut: int, s: Sighting<M, R>, m: M, i: int)
    requires Chronological(h) && Refines(table, h, cut) && m != s.mac && Latest(h, m, i)
    requires |table.Keys + {s.mac}| <= MAX_NEIGHBORS
    ensures m in table <==> Fresh(h + [s], i, cut)
  {
    LatestAfter(h, s, m, i);
    if m in table {
      CountAfter(table, h, cut, s, m, i);
      SubsetCard(Newer(table, m) + {s.mac}, table.Keys + {s.mac} - {m});
    } else {
      SubsetCard(MacsFrom(h, i + 1), MacsFrom(h + [s], i + 1));
    }
  }

  /** When the table overflows, exactly the oldest entry stops being fresh. */
  lemma StoreWithEviction<M(!new), R>(table: map<M, Entry<R>>, h: seq<Sighting<M, R>>, cut: int, s: Sighting<M, R>, o: M, m: M, i: int)
    requires Chronological(h) && Refines(table, h, cut) && m != s.mac && Latest(h, m, i)
    requires s.mac !in table && |table| == MAX_NEIGHBORS && IsOldest(table, o)
    ensures m in table && m != o <==> Fresh(h + [s], i, cut)
  {
    LatestAfter(h, s, m, i);
    if m in table {
      CountAfter(table, h, cut, s, m, i);
      EntryTimesDiffer(table, h, cut, o);
      assert |table.Keys| == MAX_NEIGHBORS;
      if m == o {
        assert Newer(table, o) + {s.mac} == table.Keys + {s.mac} - {o};
      } else {
        SubsetCard(Newer(table, m) + {s.mac}, table.Keys + {s.mac} - {m} - {o});
      }
    } else {
      SubsetCard(MacsFrom(h, i + 1), MacsFrom(h + [s], i + 1));
    }
  }

  lemma ChronologicalPrefix<M(!new), R>(h: seq<Sighting<M, R>>, s: Sighting<M, R>)
    requires Chronological(h + [s])
    ensures Chronological(h) && forall i :: 0 <= i < |h| ==> h[i].time < s.time
  {
    var h' := h + [s];
    assert h'[|h|] == s;
    assert forall i :: 0 <= i < |h| ==> h'[i] == h[i];
  }

  /** Handling a packet keeps the table equal to the fresh part of the longer history. */
  lemma StoreRefines<M(!new), R>(table: map<M, Entry<R>>, h: seq<Sighting<M, R>>, cut: int, s: Sighting<M, R>, table': map<M, Entry<R>>)
    requires Chronological(h + [s]) && Refines(table, h, cut) && cut <= s.time && Stored(table, s, table')
    ensures Refines(table', h + [s], cut)
  {
    var h' := h + [s];
    var added := table[s.mac := Entry(s.record, s.time)];
    ChronologicalPrefix(h, s);
    RefiningTableIsBounded(table, h, cut);
    assert added.Keys == table.Keys + {s.mac} && |added| == |added.Keys| && |table| == |table.Keys|;
    var o: M := s.mac;
    if |added| > MAX_NEIGHBORS {
      assert s.mac !in table;
      o :| IsOldest(added, o) && table' == if o == s.mac then added else added - {o};
      NewestIsNotOldest(table, h, cut, s, o);
    }
    assert h'[|h|] == s && MacsFrom(h', |h| + 1) == {};
    forall n | n in table'
      ensures n in MacsFrom(h', 0)
    {
      if n != s.mac {
        var i := HasLatest(h, n);
        LatestAfter(h, s, n, i);
      }
    }
    forall m, i | Latest(h', m, i)
      ensures m in table' <==> Fresh(h', i, cut)
      ensures m in table' ==> table'[m] == Entry(h'[i].record, h'[i].time)
    {
      if m == s.mac {
        assert Latest(h', m, |h|);
        LatestIsUnique(h', m, i, |h|);
      } else {
        OthersAfterStore(table, h, cut, s, o, m, i);
      }
    }
  }

  /** `o` is the evicted entry, or the stored one when nothing is evicted. */
  lemma OthersAfterStore<M(!new), R>(table: map<M, Entry<R>>, h: seq<Sighting<M, R>>, cut: int, s: Sighting<M, R>, o: M, m: M, i: int)
    requires Chronological(h) && Refines(table, h, cut) && m != s.mac && Latest(h + [s], m, i)
    requires if |table.Keys + {s.mac}| <= MAX_NEIGHBORS then o == s.mac
             else s.mac !in table && |table| == MAX_NEIGHBORS && IsOldest(table, o)
    ensures m in table && m != o <==> Fresh(h + [s], i, cut)
    ensures m in table ==> table[m] == Entry((h + [s])[i].record, (h + [s])[i].time)
  {
    LatestAfter(h, s, m, i);
    if |table.Keys + {s.mac}| <= MAX_NEIGHBORS {
      StoreWithoutEviction(table, h, cut, s, m, i);
    } else {
      StoreWithEviction(table, h, cut, s, o, m, i);
    }
  }

  lemma NewestIsNotOldest<M(!new), R>(table: map<M, Entry<R>>, h: seq<Sighting<M, R>>, cut: int, s: Sighting<M, R>, o: M)
    requires Chronological(h + [s]) && Refines(table, h, cut) && s.mac !in table && table.Keys != {}
    requires IsOldest(table[s.mac := Entry(s.record, s.time)], o)
    ensures o != s.mac && IsOldest(table, o)
  {
    var h' := h + [s];
    var added := table[s.mac := Entry(s.record, s.time)];
    var n :| n in table.Keys;
    var i := HasLatest(h, n);
    assert h'[i].time < h'[|h|].time;
    assert added[n].lastSeen < s.time;
    forall n | n in table
      ensures table[o].lastSeen <= table[n].lastSeen
    {
      assert added[o].lastSeen <= added[n].lastSeen;
    }
  }

  // ----- Whole runs -----

  datatype Event<M, R> = Packet(s: Sighting<M, R>) | Read(now: int, staleAfter: nat)

  function TimeOf<M, R>(e: Event<M, R>): int {
    if e.Packet? then e.s.time else e.now
  }

  ghost predicate Timed<M, R>(events: seq<Event<M, R>>) {
    forall i, j :: 0 <= i < j < |events| ==>
      TimeOf(events[i]) <= TimeOf(events[j])
      && (events[i].Packet? && events[j].Packet? ==> TimeOf(events[i]) < TimeOf(events[j]))
  }

  ghost predicate IsStep<M(!new), R>(table: map<M, Entry<R>>, e: Event<M, R>, table': map<M, Entry<R>>) {
    match e
    case Packet(s) => Stored(table, s, table')
    case Read(now, staleAfter) => table' == Purged(table, now - staleAfter)
  }

  /** `tables[k]` is a table that the first `k` events may leave. */
  ghost predicate IsRun<M(!new), R>(events: seq<Event<M, R>>, tables: seq<map<M, Entry<R>>>) {
    && |tables| == |events| + 1 && tables[0] == map[]
    && forall k :: 0 <= k < |events| ==> IsStep(tables[k], events[k], tables[k + 1])
  }

  function Sightings<M, R>(events: seq<Event<M, R>>): seq<Sighting<M, R>> {
    if events == [] then []
    else
      var last := events[|events| - 1];
      Sightings(events[..|events| - 1]) + if last.Packet? then [last.s] else []
  }

  /** The latest expiry threshold of the reads, `base` before any. */
  function CutOf<M, R>(events: seq<Event<M, R>>, base: int): int {
    if events == [] then base
    else
      var before := CutOf(events[..|events| - 1], base);
      match events[|events| - 1]
      case Packet(_) => before
      case Read(now, staleAfter) => if now - staleAfter > before then now - staleAfter else before
  }

  lemma {:induction false} SightingsTimed<M(!new), R>(events: seq<Event<M, R>>)
    requires Timed(events)
    ensures Chronological(Sightings(events))
    ensures forall i :: 0 <= i < |Sightings(events)| ==>
              exists k :: 0 <= k < |events| && events[k] == Packet(Sightings(events)[i])
    decreases |events|
  {
    if events != [] {
      var n := |events| - 1;
      var init := events[..n];
      SightingsTimed(init);
      var h := Sightings(init);
      forall i | 0 <= i < |Sightings(events)|
        ensures exists k :: 0 <= k < |events| && events[k] == Packet(Sightings(events)[i])
        ensures i < |h| && events[n].Packet? ==> h[i].time < events[n].s.time
      {
        if i < |h| {
          var k :| 0 <= k < n && init[k] == Packet(h[i]);
          assert events[k] == init[k] && TimeOf(events[k]) <= TimeOf(events[n]);
        } else {
          assert events[n] == Packet(Sightings(events)[i]);
        }
      }
    }
  }

  lemma {:induction false} CutBeforeNow<M(!new), R>(events: seq<Event<M, R>>, base: int, t: int)
    requires base <= t && forall k :: 0 <= k < |events| ==> TimeOf(events[k]) <= t
    ensures base <= CutOf(events, base) <= t
    decreases |events|
  {
    if events != [] {
      CutBeforeNow(events[..|events| - 1], base, t);
    }
  }

  lemma RunPrefix<M(!new), R>(events: seq<Event<M, R>>, tables: seq<map<M, Entry<R>>>)
    requires Timed(events) && IsRun(events, tables) && events != []
    ensures var n := |events| - 1;
            && Timed(events[..n]) && IsRun(events[..n], tables[..n + 1])
            && IsStep(tables[n], events[n], tables[n + 1])
            && (forall k :: 0 <= k < n ==> TimeOf(events[k]) <= TimeOf(events[n]))
            && |tables| == n + 2 && tables[..n + 1][n] == tables[n]
            && Sightings(events) == (if events[n].Packet? then Sightings(events[..n]) + [events[n].s] else Sightings(events[..n]))
            && forall base :: CutOf(events, base) ==
                 var before := CutOf(events[..n], base);
                 if events[n].Read? && events[n].now - events[n].staleAfter > before
                 then events[n].now - events[n].staleAfter else before
  {
  }

  lemma StepRefines<M(!new), R>(table: map<M, Entry<R>>, h: seq<Sighting<M, R>>, cut: int, e: Event<M, R>, table': map<M, Entry<R>>)
    requires Refines(table, h, cut) && IsStep(table, e, table') && cut <= TimeOf(e)
    requires e.Packet? ==> Chronological(h + [e.s])
    ensures e.Packet? ==> Refines(table', h + [e.s], cut)
    ensures e.Read? ==> Refines(table', h, if e.now - e.staleAfter > cut then e.now - e.staleAfter else cut)
  {
    match e
    case Packet(s) => StoreRefines(table, h, cut, s, table');
    case Read(now, staleAfter) =>
      if now - staleAfter > cut {
        PurgeRefines(table, h, cut, now - staleAfter);
      } else {
        NothingStale(table, h, cut, now - staleAfter);
      }
  }

  /** Over every run, the table is the fresh part of the packets seen, and holds at most 500 entries. */
  lemma {:induction false} RunRefines<M(!new), R>(events: seq<Event<M, R>>, tables: seq<map<M, Entry<R>>>, base: int)
    requires Timed(events) && IsRun(events, tables) && forall k :: 0 <= k < |events| ==> base <= TimeOf(events[k])
    ensures Refines(tables[|events|], Sightings(events), CutOf(events, base)) && |tables[|events|]| <= MAX_NEIGHBORS
    decreases |events|
  {
    hide *;
    SightingsTimed(events);
    if events == [] {
      EmptyRun(events, tables, base);
    } else {
      var n := |events| - 1;
      var init := events[..n];
      RunPrefix(events, tables);
      RunRefines(init, tables[..n + 1], base);
      CutBeforeNow(init, base, TimeOf(events[n]));
      StepRefines(tables[n], Sightings(init), CutOf(init, base), events[n], tables[n + 1]);
    }
    RefiningTableIsBounded(tables[|events|], Sightings(events), CutOf(events, base));
  }

  lemma EmptyRun<M(!new), R>(events: seq<Event<M, R>>, tables: seq<map<M, Entry<R>>>, base: int)
    requires IsRun(events, tables) && events == []
    ensures |tables| == 1 && Refines(tables[0], Sightings(events), CutOf(events, base))
  {
  }

  lemma {:induction false} CutOfFixed<M(!new), R>(events: seq<Event<M, R>>, base: int, now: int, staleAfter: nat)
    requires base <= now - staleAfter
    requires forall k :: 0 <= k < |events| && events[k].Read? ==> events[k].staleAfter == staleAfter && events[k].now <= now
    ensures CutOf(events, base) <= now - staleAfter
    decreases |events|
  {
    if events != [] {
      CutOfFixed(events[..|events| - 1], base, now, staleAfter);
    }
  }

  /**
   A read after any run of packets and reads with one `stale_after`: a MAC is listed exactly when its
   latest sighting is no older than `stale_after` and fewer than 500 MACs have been seen after it,
   and it is listed with that sighting's record.
   */
  lemma ReadIsExact<M(!new), R>(events: seq<Event<M, R>>, tables: seq<map<M, Entry<R>>>, now: int, staleAfter: nat)
    requires Timed(events) && IsRun(events, tables)
    requires |events| > 0 && events[|events| - 1] == Read(now, staleAfter)
    requires forall k :: 0 <= k < |events| && events[k].Read? ==> events[k].staleAfter == staleAfter
    ensures forall m, i :: Latest(Sightings(events), m, i) ==>
              var h := Sightings(events);
              && (m in tables[|events|] <==> now - h[i].time <= staleAfter && |MacsFrom(h, i + 1)| < 500)
              && (m in tables[|events|] ==> tables[|events|][m] == Entry(h[i].record, h[i].time))
  {
    var base := if TimeOf(events[0]) <= now - staleAfter then TimeOf(events[0]) else now - staleAfter;
    forall k | 0 <= k < |events|
      ensures TimeOf(events[0]) <= TimeOf(events[k]) <= now
    {
      assert TimeOf(events[k]) <= TimeOf(events[|events| - 1]);
    }
    RunRefines(events, tables, base);
    CutOfFixed(events[..|events| - 1], base, now, staleAfter);
  }

  // ----- The cache -----

  ghost predicate IsRow<M, R>(r: Row<M, R>, table: map<M, Entry<R>>, now: int) {
    r.mac in table && Entry(r.record, r.lastSeen) == table[r.mac] && r.age == now - r.lastSeen
  }

  function RowMac<M, R>(r: Row<M, R>): M {
    r.mac
  }

  /** `rows` lists the entries of `table`, each once. */
  ghost predicate ListsTable<M(!new), R>(rows: seq<Row<M, R>>, table: map<M, Entry<R>>, now: int) {
    && Lists(rows, RowMac, table.Keys)
    && (forall k :: 0 <= k < |rows| ==> IsRow(rows[k], table, now))
  }

  /** The rows are of exactly the fresh MACs, each with its latest sighting. */
  ghost predicate ShowsFresh<M(!new), R>(rows: seq<Row<M, R>>, h: seq<Sighting<M, R>>, cut: int) {
    && (forall m, i :: Latest(h, m, i) ==> ((exists k :: 0 <= k < |rows| && rows[k].mac == m) <==> Fresh(h, i, cut)))
    && (forall k, i :: 0 <= k < |rows| && Latest(h, rows[k].mac, i) ==>
          rows[k].record == h[i].record && rows[k].lastSeen == h[i].time)
  }

  class Cache<M(==,!new), R> {
    var neighbors: map<M, Entry<R>>
    ghost var history: seq<Sighting<M, R>>
    ghost var cut: int    // no entry last seen before this time is left
    ghost var clock: int  // the latest packet or read
    ghost var steady: bool  // packets have come at increasing times, reads at nondecreasing ones

    ghost predicate InStep()
      reads this
    {
      && Chronological(history) && Refines(neighbors, history, cut) && cut <= clock
      && forall i :: 0 <= i < |history| ==> history[i].time <= clock
    }

    ghost predicate Valid()
      reads this
    {
      steady ==> InStep()
    }

    constructor (ghost now: int)
      ensures Valid() && steady && history == [] && clock == now && cut == now
    {
      neighbors, history, cut, clock, steady := map[], [], now, now, true;
    }

    method FindOldest() returns (o: M)
      requires neighbors.Keys != {}
      ensures IsOldest(neighbors, o)
    {
      var rest := neighbors.Keys;
      o :| o in rest;
      rest := rest - {o};
      while rest != {}
        invariant rest <= neighbors.Keys && o in neighbors
        invariant forall n :: n in neighbors && n !in rest ==> neighbors[o].lastSeen <= neighbors[n].lastSeen
        decreases rest
      {
        var m :| m in rest;
        if neighbors[m].lastSeen < neighbors[o].lastSeen {
          o := m;
        }
        rest := rest - {m};
      }
    }

    method HandlePacket(mac: M, record: R, now: int)
      requires Valid()
      modifies this
      ensures Valid() && clock == now && cut == old(cut) && steady == (old(steady) && old(clock) < now)
      ensures history == old(history) + [Sighting(mac, record, now)]
      ensures Stored(old(neighbors), Sighting(mac, record, now), neighbors)
      ensures steady ==> |neighbors| <= MAX_NEIGHBORS
    {
      hide Refines, IsOldest;
      ghost var s := Sighting(mac, record, now);
      ghost var table := neighbors;
      neighbors := neighbors[mac := Entry(record, now)];
      if |neighbors| > MAX_NEIGHBORS {
        assert mac in neighbors.Keys;
        var oldest := FindOldest();
        if oldest != mac {
          neighbors := neighbors - {oldest};
        }
      }
      assert Stored(table, s, neighbors);
      steady := steady && clock < now;
      if steady {
        StoreRefines(table, history, cut, s, neighbors);
        RefiningTableIsBounded(neighbors, history + [s], cut);
      }
      history, clock := history + [s], now;
    }

    method GetNeighbors(now: int, staleAfter: nat) returns (rows: seq<Row<M, R>>)
      requires Valid()
      modifies this
      ensures Valid() && clock == now && history == old(history) && steady == (old(steady) && old(clock) <= now)
      ensures cut == if now - staleAfter > old(cut) then now - staleAfter else old(cut)
      ensures neighbors == Purged(old(neighbors), now - staleAfter)
      ensures ListsTable(rows, neighbors, now) && Ascending((r: Row<M, R>) => r.age, rows)
      ensures steady ==> ShowsFresh(rows, history, cut)
    {
      hide Refines, Latest, Lists, Ascending, Distinct, ShowsFresh;
      PurgeStale(now, staleAfter);
      ghost var table := old(neighbors);
      steady := steady && clock <= now;
      if steady {
        PurgedRefines(table, history, cut, now - staleAfter);
      }
      cut := if now - staleAfter > cut then now - staleAfter else cut;
      clock := now;
      var unsorted := ListRows(neighbors, now);
      rows := SortBy((r: Row<M, R>) => r.age, unsorted);
      SortBySorts((r: Row<M, R>) => r.age, unsorted);
      PermutedLists(unsorted, rows, RowMac, neighbors.Keys);
      if steady {
        RowsAreFresh(rows, neighbors, history, cut, now);
      }
    }

    /** The loop that deletes the stale entries. */
    method PurgeStale(now: int, staleAfter: nat)
      modifies this`neighbors
      ensures neighbors == Purged(old(neighbors), now - staleAfter)
    {
      var stale := set m | m in neighbors && now - neighbors[m].lastSeen > staleAfter;
      ghost var table := neighbors;
      while stale != {}
        invariant neighbors.Keys <= table.Keys
        invariant forall m :: m in neighbors ==> neighbors[m] == table[m]
        invariant stale <= neighbors.Keys
        invariant forall m :: m in table ==> (m in neighbors <==> table[m].lastSeen >= now - staleAfter || m in stale)
        invariant forall m :: m in stale ==> now - table[m].lastSeen > staleAfter
        decreases stale
      {
        var m :| m in stale;
        neighbors := neighbors - {m};
        stale := stale - {m};
      }
    }
  }

  lemma PurgedRefines<M(!new), R>(table: map<M, Entry<R>>, h: seq<Sighting<M, R>>, cut: int, cut': int)
    requires Refines(table, h, cut)
    ensures Refines(Purged(table, cut'), h, if cut' > cut then cut' else cut)
  {
    hide Refines, Purged;
    if cut' > cut {
      PurgeRefines(table, h, cut, cut');
    } else {
      NothingStale(table, h, cut, cut');
    }
  }

  lemma NothingStale<M(!new), R>(table: map<M, Entry<R>>, h: seq<Sighting<M, R>>, cut: int, cut': int)
    requires Refines(table, h, cut) && cut' <= cut
    ensures Purged(table, cut') == table
  {
    forall m | m in table
      ensures table[m].lastSeen >= cut
    {
      var i := HasLatest(h, m);
    }
  }

  method ListRows<M(==,!new), R>(table: map<M, Entry<R>>, now: int) returns (rows: seq<Row<M, R>>)
    ensures ListsTable(rows, table, now)
  {
    rows := [];
    var rest := table.Keys;
    while rest != {}
      invariant rest <= table.Keys && |rows| + |rest| == |table.Keys|
      invariant forall k :: 0 <= k < |rows| ==> IsRow(rows[k], table, now) && RowMac(rows[k]) !in rest
      invariant Distinct(rows, RowMac)
      decreases rest
    {
      var m :| m in rest;
      rows := rows + [Row(m, table[m].record, table[m].lastSeen, now - table[m].lastSeen)];
      rest := rest - {m};
    }
  }

  /** A listing of a refining table shows exactly the fresh MACs, each with its latest record. */
  lemma RowsAreFresh<M(!new), R>(rows: seq<Row<M, R>>, table: map<M, Entry<R>>, h: seq<Sighting<M, R>>, cut: int, now: int)
    requires ListsTable(rows, table, now) && Refines(table, h, cut)
    ensures ShowsFresh(rows, h, cut)
  {
    forall m, i | Latest(h, m, i)
      ensures (exists k :: 0 <= k < |rows| && rows[k].mac == m) <==> Fresh(h, i, cut)
    {
      if m in table {
        var k := EveryKeyIsListed(rows, RowMac, table.Keys, m);
        assert rows[k].mac == m;
      }
      if k :| 0 <= k < |rows| && rows[k].mac == m {
        assert RowMac(rows[k]) in table.Keys;
      }
    }
  }
}
