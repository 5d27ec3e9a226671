/** The change-only odds log (app/pipeline.py, _persist_snapshots and _sweep_odds_seen): every poll
    appends the prices that differ from a bounded, process-local cache of what was last written.
    The repository's batch write is a parameter: it raises, or it returns after storing the rows it
    chooses (app/storage/repositories.py skips a whole event whose entities cannot be resolved). */
module OddsLog {
  import opened Prelude
  import opened OddsCache

  datatype Snapshot = Snapshot(
    event: string, bookmaker: string, market: string, marketDetail: Option<string>, selection: string, odds: real)

  function KeyOf(s: Snapshot): Key {
    var line := if s.marketDetail.Some? && s.marketDetail.value != "" then s.marketDetail.value else s.market;
    Key(s.event, s.bookmaker, line, s.selection)
  }

  /** A row handed to a write that returned; `era` counts how often its key had left the cache. */
  datatype Row = Row(key: Key, odds: real, stored: bool, era: nat)

  datatype WriteOutcome = Raises | Returns(kept: nat -> bool)

  // ---- one batch ----

  datatype Batch = Batch(toWrite: seq<Snapshot>, updates: Cache)

  function Lookup(seen: Cache, updates: Cache, k: Key): Option<Seen> {
    if k in updates then Some(updates[k]) else if k in seen then Some(seen[k]) else None
  }

  /** What the loop over the snapshots has collected after the first `n`. */
  function Collect(snapshots: seq<Snapshot>, resolvable: set<string>, seen: Cache, now: int, n: nat): Batch
    requires n <= |snapshots|
  {
    if n == 0 then Batch([], map[])
    else
      var b := Collect(snapshots, resolvable, seen, now, n - 1);
      var s := snapshots[n - 1];
      if s.event !in resolvable then b
      else
        var last := Lookup(seen, b.updates, KeyOf(s));
        var updates := b.updates[KeyOf(s) := Seen(s.odds, now)];
        if last.Some? && last.value.odds == s.odds then Batch(b.toWrite, updates)
        else Batch(b.toWrite + [s], updates)
  }

  function CountKept(kept: nat -> bool, n: nat): nat {
    if n == 0 then 0 else CountKept(kept, n - 1) + if kept(n - 1) then 1 else 0
  }

  // ---- the log as a state machine ----

  datatype Log = Log(seen: Cache, rows: seq<Row>, drops: map<Key, nat>)

  const EMPTY := Log(map[], [], map[])

  function Era(drops: map<Key, nat>, k: Key): nat { if k in drops then drops[k] else 0 }

  function Forget(log: Log, gone: set<Key>): Log {
    Log(log.seen - gone, log.rows, log.drops + map k | k in gone :: Era(log.drops, k) + 1)
  }

  function RowsFor(toWrite: seq<Snapshot>, kept: nat -> bool, drops: map<Key, nat>): (r: seq<Row>)
    ensures |r| == |toWrite|
  {
    if toWrite == [] then []
    else
      var n := |toWrite| - 1;
      RowsFor(toWrite[..n], kept, drops)
        + [Row(KeyOf(toWrite[n]), toWrite[n].odds, kept(n), Era(drops, KeyOf(toWrite[n])))]
  }

  /** The log once a collected batch has been written and merged into the cache. */
  function Merge(log: Log, b: Batch, kept: nat -> bool): Log {
    Log(log.seen + b.updates, log.rows + RowsFor(b.toWrite, kept, log.drops), log.drops)
  }

  datatype Event =
    | Poll(snapshots: seq<Snapshot>, resolvable: set<string>, now: int, write: WriteOutcome, evicted: set<Key>)
    | Restart

  function BatchOf(log: Log, e: Event): Batch
    requires e.Poll?
  {
    Collect(e.snapshots, e.resolvable, log.seen, e.now, |e.snapshots|)
  }

  /** An empty batch is never written, so it cannot fail. */
  predicate Succeeds(log: Log, e: Event) {
    e.Poll? && (BatchOf(log, e).toWrite == [] || e.write.Returns?)
  }

  function KeptBy(w: WriteOutcome): nat -> bool { if w.Returns? then w.kept else (i: nat) => true }

  ghost predicate Legal(log: Log, e: Event, maxSize: nat) {
    Succeeds(log, e) ==> SweepMayEvict(log.seen + BatchOf(log, e).updates, e.now, maxSize, e.evicted)
  }

  function Next(log: Log, e: Event): Log {
    match e
    case Restart => Forget(log, log.seen.Keys)
    case Poll(_, _, _, write, evicted) =>
      if Succeeds(log, e) then Forget(Merge(log, BatchOf(log, e), KeptBy(write)), evicted) else log
  }

  function After(events: seq<Event>, n: nat): Log
    requires n <= |events|
  {
    if n == 0 then EMPTY else Next(After(events, n - 1), events[n - 1])
  }

  // ---- the imperative logger refines it ----

  class OddsLogger {
    var oddsSeen: Cache
    ghost var rows: seq<Row>
    ghost var drops: map<Key, nat>

    ghost function View(): Log reads this { Log(oddsSeen, rows, drops) }

    constructor ()
      ensures View() == EMPTY
    {
      oddsSeen, rows, drops := map[], [], map[];
    }

    method SweepOddsSeen(now: int, maxSize: nat := ODDS_SEEN_MAX) returns (ghost evicted: set<Key>)
      modifies this
      ensures SweepMayEvict(old(oddsSeen), now, maxSize, evicted)
      ensures View() == Forget(old(View()), evicted)
    {
      evicted := {};
      if |oddsSeen| > maxSize {
        var stale := Stale(oddsSeen, now);
        evicted := stale;
        RemovedSize(oddsSeen, stale);
        oddsSeen := oddsSeen - stale;
        if |oddsSeen| > maxSize {
          var gone := OldestKeys(oddsSeen, |oddsSeen| - maxSize);
          RemovedSize(oddsSeen, gone);
          OverflowIsOldest(old(oddsSeen), now, maxSize, stale, gone);
          oddsSeen := oddsSeen - gone;
          evicted := stale + gone;
        }
      }
      drops := Forget(old(View()), evicted).drops;
      assert oddsSeen == old(oddsSeen) - evicted;
    }

    method PersistSnapshots(
      connected: bool, snapshots: seq<Snapshot>, resolvable: set<string>, now: int, write: WriteOutcome, maxSize: nat)
      returns (written: Option<nat>, ghost event: Event)
      modifies this
      ensures !connected ==> written.None? && View() == old(View())
      ensures connected ==>
                && event.Poll? && event.snapshots == snapshots && event.resolvable == resolvable
                && event.now == now && event.write == write
                && Legal(old(View()), event, maxSize)
                && View() == Next(old(View()), event)
                && (written.Some? <==> Succeeds(old(View()), event))
                && (written.Some? ==> written.value == CountKept(KeptBy(write), |BatchOf(old(View()), event).toWrite|))
    {
      event := Restart;
      if !connected {
        return None, event;
      }
      var toWrite: seq<Snapshot> := [];
      var updates: Cache := map[];
      for i := 0 to |snapshots|
        invariant Batch(toWrite, updates) == Collect(snapshots, resolvable, oddsSeen, now, i)
      {
        var s := snapshots[i];
        if s.event !in resolvable {
          continue;
        }
        var key := KeyOf(s);
        var last := if key in updates then Some(updates[key]) else if key in oddsSeen then Some(oddsSeen[key])
          else None;
        if last.Some? && last.value.odds == s.odds {
          updates := updates[key := Seen(s.odds, now)];
          continue;
        }
        toWrite := toWrite + [s];
        updates := updates[key := Seen(s.odds, now)];
      }
      event := Poll(snapshots, resolvable, now, write, {});
      if toWrite != [] && write.Raises? {
        return None, event;
      }
      written := Some(CountKept(KeptBy(write), |toWrite|));
      rows := rows + RowsFor(toWrite, KeptBy(write), drops);
      oddsSeen := oddsSeen + updates;
      ghost var evicted := SweepOddsSeen(now, maxSize);
      event := Poll(snapshots, resolvable, now, write, evicted);
    }
  }

  // ---- what the log means ----

  /** The latest row of a key, in a list of rows. */
  function LastRow(rows: seq<Row>, k: Key): Option<Row> {
    if rows == [] then None
    else if rows[|rows| - 1].key == k then Some(rows[|rows| - 1])
    else LastRow(rows[..|rows| - 1], k)
  }

  lemma LastRowSnoc(rows: seq<Row>, r: Row, k: Key)
    ensures LastRow(rows + [r], k) == if r.key == k then Some(r) else LastRow(rows, k)
  {
    assert (rows + [r])[..|rows|] == rows;
  }

  /** A row repeats the previous odds of its key only if the key left the cache in between. */
  ghost predicate ChangeOnly(rows: seq<Row>) {
    forall j :: 0 <= j < |rows| ==>
      var before := LastRow(rows[..j], rows[j].key);
      before.Some? && before.value.era == rows[j].era ==> before.value.odds != rows[j].odds
  }

  lemma ChangeOnlySnoc(rows: seq<Row>, r: Row)
    requires ChangeOnly(rows)
    requires var before := LastRow(rows, r.key);
             before.Some? && before.value.era == r.era ==> before.value.odds != r.odds
    ensures ChangeOnly(rows + [r])
  {
    forall j | 0 <= j < |rows + [r]|
      ensures var before := LastRow((rows + [r])[..j], (rows + [r])[j].key);
              before.Some? && before.value.era == (rows + [r])[j].era ==> before.value.odds != (rows + [r])[j].odds
    {
      assert (rows + [r])[..j] == rows[..j];
      assert j == |rows| ==> rows[..j] == rows;
    }
  }

  /** A cached price is the key's last written price; an uncached key's rows predate its last drop. */
  ghost predicate Mirrors(seen: Cache, last: Option<Row>, era: nat, k: Key) {
    && (k in seen ==> last.Some? && last.value.odds == seen[k].odds && last.value.era == era)
    && (k !in seen && last.Some? ==> last.value.era < era)
  }

  ghost predicate CacheMirrorsRows(seen: Cache, rows: seq<Row>, drops: map<Key, nat>) {
    forall k: Key :: Mirrors(seen, LastRow(rows, k), Era(drops, k), k)
  }

  ghost predicate Inv(log: Log) {
    CacheMirrorsRows(log.seen, log.rows, log.drops) && ChangeOnly(log.rows)
  }

  /** The invariant holds after every prefix of the batch, as if each row were written at once. */
  lemma {:induction false} CollectKeepsInv(
    log: Log, snapshots: seq<Snapshot>, resolvable: set<string>, now: int, kept: nat -> bool, n: nat)
    requires n <= |snapshots| && Inv(log)
    ensures Inv(Merge(log, Collect(snapshots, resolvable, log.seen, now, n), kept))
  {
    var b := Collect(snapshots, resolvable, log.seen, now, n);
    if n == 0 {
      assert Merge(log, b, kept) == log;
    } else {
      CollectKeepsInv(log, snapshots, resolvable, now, kept, n - 1);
      var b0 := Collect(snapshots, resolvable, log.seen, now, n - 1);
      var s := snapshots[n - 1];
      if s.event in resolvable {
        OneSnapshotKeepsInv(log, b0, s, now, kept, b);
      }
    }
  }

  /** Observing the cached price again only refreshes its recency. */
  lemma RefreshKeepsInv(log: Log, key: Key, odds: real, now: int)
    requires Inv(log) && key in log.seen && log.seen[key].odds == odds
    ensures Inv(log.(seen := log.seen[key := Seen(odds, now)]))
  {
    var after := log.(seen := log.seen[key := Seen(odds, now)]);
    forall k: Key ensures Mirrors(after.seen, LastRow(after.rows, k), Era(after.drops, k), k) {
      assert Mirrors(log.seen, LastRow(log.rows, k), Era(log.drops, k), k);
    }
  }

  /** Writing a row for a price that is not the cached one. */
  lemma WriteKeepsInv(log: Log, key: Key, odds: real, now: int, row: Row)
    requires Inv(log) && !(key in log.seen && log.seen[key].odds == odds)
    requires row.key == key && row.odds == odds && row.era == Era(log.drops, key)
    ensures Inv(Log(log.seen[key := Seen(odds, now)], log.rows + [row], log.drops))
  {
    var after := Log(log.seen[key := Seen(odds, now)], log.rows + [row], log.drops);
    assert Mirrors(log.seen, LastRow(log.rows, key), Era(log.drops, key), key);
    ChangeOnlySnoc(log.rows, row);
    forall k: Key ensures Mirrors(after.seen, LastRow(after.rows, k), Era(after.drops, k), k) {
      assert Mirrors(log.seen, LastRow(log.rows, k), Era(log.drops, k), k);
      LastRowSnoc(log.rows, row, k);
    }
  }

  /** Collecting one snapshot and merging is merging and then observing it. */
  lemma MergeOne(log: Log, b0: Batch, s: Snapshot, now: int, kept: nat -> bool)
    ensures var key, m0 := KeyOf(s), Merge(log, b0, kept);
            var updates := b0.updates[key := Seen(s.odds, now)];
            && Lookup(log.seen, b0.updates, key) == (if key in m0.seen then Some(m0.seen[key]) else None)
            && Merge(log, Batch(b0.toWrite, updates), kept) == m0.(seen := m0.seen[key := Seen(s.odds, now)])
            && Merge(log, Batch(b0.toWrite + [s], updates), kept)
               == Log(m0.seen[key := Seen(s.odds, now)],
                      m0.rows + [Row(key, s.odds, kept(|b0.toWrite|), Era(log.drops, key))], log.drops)
  {
    var key, m0 := KeyOf(s), Merge(log, b0, kept);
    var updates := b0.updates[key := Seen(s.odds, now)];
    assert log.seen + updates == m0.seen[key := Seen(s.odds, now)];
    RowsForSnoc(b0.toWrite, s, kept, log.drops);
  }

  lemma OneSnapshotKeepsInv(log: Log, b0: Batch, s: Snapshot, now: int, kept: nat -> bool, b: Batch)
    requires Inv(Merge(log, b0, kept))
    requires b.updates == b0.updates[KeyOf(s) := Seen(s.odds, now)]
    requires var last := Lookup(log.seen, b0.updates, KeyOf(s));
             b.toWrite == if last.Some? && last.value.odds == s.odds then b0.toWrite else b0.toWrite + [s]
    ensures Inv(Merge(log, b, kept))
  {
    var key, m0 := KeyOf(s), Merge(log, b0, kept);
    MergeOne(log, b0, s, now, kept);
    if key in m0.seen && m0.seen[key].odds == s.odds {
      RefreshKeepsInv(m0, key, s.odds, now);
    } else {
      WriteKeepsInv(m0, key, s.odds, now, Row(key, s.odds, kept(|b0.toWrite|), Era(log.drops, key)));
    }
  }

  lemma RowsForSnoc(toWrite: seq<Snapshot>, s: Snapshot, kept: nat -> bool, drops: map<Key, nat>)
    ensures RowsFor(toWrite + [s], kept, drops)
         == RowsFor(toWrite, kept, drops) + [Row(KeyOf(s), s.odds, kept(|toWrite|), Era(drops, KeyOf(s)))]
  {
    assert (toWrite + [s])[..|toWrite|] == toWrite;
  }

  lemma ForgetKeepsInv(log: Log, gone: set<Key>)
    requires Inv(log)
    ensures Inv(Forget(log, gone))
  {
    var after := Forget(log, gone);
    forall k: Key ensures Mirrors(after.seen, LastRow(after.rows, k), Era(after.drops, k), k) {
      assert Mirrors(log.seen, LastRow(log.rows, k), Era(log.drops, k), k);
    }
  }

  lemma NextKeepsInv(log: Log, e: Event)
    requires Inv(log)
    ensures Inv(Next(log, e))
  {
    if e.Restart? {
      ForgetKeepsInv(log, log.seen.Keys);
    } else if Succeeds(log, e) {
      CollectKeepsInv(log, e.snapshots, e.resolvable, e.now, KeptBy(e.write), |e.snapshots|);
      ForgetKeepsInv(Merge(log, BatchOf(log, e), KeptBy(e.write)), e.evicted);
    }
  }

  /** Over any run of polls, failed writes, evictions and restarts. */
  lemma {:induction false} EveryRunKeepsInv(events: seq<Event>, n: nat)
    requires n <= |events|
    ensures Inv(After(events, n))
  {
    if n > 0 {
      EveryRunKeepsInv(events, n - 1);
      NextKeepsInv(After(events, n - 1), events[n - 1]);
    }
  }

  lemma NextStaysBounded(log: Log, e: Event, maxSize: nat)
    requires |log.seen| <= maxSize && Legal(log, e, maxSize)
    ensures |Next(log, e).seen| <= maxSize
  {
    if e.Restart? {
      assert log.seen - log.seen.Keys == map[];
    } else if Succeeds(log, e) {
      SweepEndsWithinCap(log.seen + BatchOf(log, e).updates, e.now, maxSize, e.evicted);
    }
  }

  ghost predicate LegalAt(events: seq<Event>, maxSize: nat, i: nat)
    requires i < |events|
  {
    Legal(After(events, i), events[i], maxSize)
  }

  lemma {:induction false} EveryRunStaysBounded(events: seq<Event>, maxSize: nat, n: nat)
    requires n <= |events|
    requires forall i :: 0 <= i < n ==> LegalAt(events, maxSize, i)
    ensures |After(events, n).seen| <= maxSize
  {
    hide Next, Legal, Succeeds;
    if n > 0 {
      EveryRunStaysBounded(events, maxSize, n - 1);
      assert LegalAt(events, maxSize, n - 1);
      NextStaysBounded(After(events, n - 1), events[n - 1], maxSize);
    }
  }

  /** The last price observed for a key among the first `n` snapshots of resolvable events. */
  function LatestObservation(snapshots: seq<Snapshot>, resolvable: set<string>, k: Key, n: nat): Option<real>
    requires n <= |snapshots|
  {
    if n == 0 then None
    else if snapshots[n - 1].event in resolvable && KeyOf(snapshots[n - 1]) == k then Some(snapshots[n - 1].odds)
    else LatestObservation(snapshots, resolvable, k, n - 1)
  }

  lemma {:induction false} UpdatesHoldLatest(
    snapshots: seq<Snapshot>, resolvable: set<string>, seen: Cache, now: int, k: Key, n: nat)
    requires n <= |snapshots|
    ensures var u := Collect(snapshots, resolvable, seen, now, n).updates;
            LatestObservation(snapshots, resolvable, k, n) == if k in u then Some(u[k].odds) else None
  {
    if n > 0 {
      UpdatesHoldLatest(snapshots, resolvable, seen, now, k, n - 1);
    }
  }

  /** After a successful poll the last row submitted for every observed key is its latest observation. */
  lemma LogCatchesUp(events: seq<Event>, n: nat, k: Key)
    requires n < |events| && events[n].Poll?
    ensures var seenNow := LatestObservation(events[n].snapshots, events[n].resolvable, k, |events[n].snapshots|);
            var last := LastRow(After(events, n + 1).rows, k);
            Succeeds(After(events, n), events[n]) && seenNow.Some? ==> last.Some? && last.value.odds == seenNow.value
  {
    EveryRunKeepsInv(events, n);
    var log, e := After(events, n), events[n];
    CollectKeepsInv(log, e.snapshots, e.resolvable, e.now, KeptBy(e.write), |e.snapshots|);
    UpdatesHoldLatest(e.snapshots, e.resolvable, log.seen, e.now, k, |e.snapshots|);
    var merged := Merge(log, BatchOf(log, e), KeptBy(e.write));
    assert Mirrors(merged.seen, LastRow(merged.rows, k), Era(merged.drops, k), k);
    if k in BatchOf(log, e).updates {
      assert merged.seen[k] == BatchOf(log, e).updates[k];
    }
  }

  // ---- rows the repository did not store ----

  predicate IsStored(r: Row) { r.stored }

  lemma {:induction false} StoredLastRow(rows: seq<Row>, k: Key)
    requires LastRow(rows, k).Some? && LastRow(rows, k).value.stored
    ensures LastRow(Filter(IsStored, rows), k) == LastRow(rows, k)
  {
    var n := |rows| - 1;
    FilterSnoc(IsStored, rows, n);
    assert rows[..n + 1] == rows;
    LastRowSnoc(Filter(IsStored, rows[..n]), rows[n], k);
    if rows[n].key != k {
      StoredLastRow(rows[..n], k);
      assert Filter(IsStored, rows[..n]) + [] == Filter(IsStored, rows[..n]);
    }
  }

  lemma {:induction false} LastRowIsARow(rows: seq<Row>, k: Key)
    ensures LastRow(rows, k).Some? ==> LastRow(rows, k).value in rows
  {
    if rows != [] { LastRowIsARow(rows[..|rows| - 1], k); }
  }

  lemma {:induction false} LastRowAppend(a: seq<Row>, b: seq<Row>, k: Key)
    ensures LastRow(a + b, k) == if LastRow(b, k).Some? then LastRow(b, k) else LastRow(a, k)
  {
    if b == [] {
      assert a + b == a;
    } else {
      var n := |b| - 1;
      assert (a + b)[..|a + b| - 1] == a + b[..n];
      LastRowAppend(a, b[..n], k);
    }
  }

  lemma {:induction false} NoLastRow(rows: seq<Row>, k: Key)
    requires forall r :: r in rows ==> r.key != k
    ensures LastRow(rows, k).None? && LastRow(Filter(IsStored, rows), k).None?
  {
    if rows != [] {
      NoLastRow(rows[1..], k);
      assert rows == [rows[0]] + rows[1..];
      LastRowAppend([rows[0]], rows[1..], k);
      LastRowAppend(if rows[0].stored then [rows[0]] else [], Filter(IsStored, rows[1..]), k);
    }
  }

  /** Rows of which only the `i`-th is about `k`. */
  lemma OnlyRow(rows: seq<Row>, i: nat, k: Key)
    requires i < |rows| && rows[i].key == k && forall j :: 0 <= j < |rows| && j != i ==> rows[j].key != k
    ensures LastRow(rows, k) == Some(rows[i])
    ensures LastRow(Filter(IsStored, rows), k) == if rows[i].stored then Some(rows[i]) else None
  {
    var a, b := rows[..i], rows[i + 1..];
    assert rows == a + ([rows[i]] + b);
    NoLastRow(a, k);
    NoLastRow(b, k);
    LastRowAppend([rows[i]], b, k);
    LastRowAppend(a, [rows[i]] + b, k);
    FilterAppend(IsStored, a, [rows[i]] + b);
    LastRowAppend(if rows[i].stored then [rows[i]] else [], Filter(IsStored, b), k);
    LastRowAppend(Filter(IsStored, a), Filter(IsStored, [rows[i]] + b), k);
  }

  lemma {:induction false} RowsForAt(toWrite: seq<Snapshot>, kept: nat -> bool, drops: map<Key, nat>, i: nat)
    requires i < |toWrite|
    ensures RowsFor(toWrite, kept, drops)[i]
         == Row(KeyOf(toWrite[i]), toWrite[i].odds, kept(i), Era(drops, KeyOf(toWrite[i])))
  {
    if i < |toWrite| - 1 {
      RowsForAt(toWrite[..|toWrite| - 1], kept, drops, i);
    }
  }

  /** The odds log's last price of a key, as a reader of the table sees it. */
  function TablePrice(log: Log, k: Key): Option<real> {
    var last := LastRow(Filter(IsStored, log.rows), k);
    if last.Some? then Some(last.value.odds) else None
  }

  /** The cached price of a key is the one the table ends with. */
  predicate Agrees(log: Log, k: Key) {
    k in log.seen ==> TablePrice(log, k) == Some(log.seen[k].odds)
  }

  /** The write, if it succeeds, stores every row submitted for `k`. */
  ghost predicate StoresRowsOf(log: Log, e: Event, k: Key) {
    Succeeds(log, e) ==>
      var toWrite := BatchOf(log, e).toWrite;
      forall i :: 0 <= i < |toWrite| && KeyOf(toWrite[i]) == k ==> KeptBy(e.write)(i)
  }

  ghost predicate StoresRowsAt(events: seq<Event>, k: Key, i: nat)
    requires i < |events|
  {
    StoresRowsOf(After(events, i), events[i], k)
  }

  ghost predicate AllStored(rows: seq<Row>, k: Key) {
    forall r :: r in rows && r.key == k ==> r.stored
  }

  lemma {:induction false} RunStoresAll(events: seq<Event>, n: nat, k: Key)
    requires n <= |events| && forall i :: 0 <= i < n ==> StoresRowsAt(events, k, i)
    ensures AllStored(After(events, n).rows, k)
  {
    if n > 0 {
      RunStoresAll(events, n - 1, k);
      assert StoresRowsAt(events, k, n - 1);
      var log, e := After(events, n - 1), events[n - 1];
      if Succeeds(log, e) {
        var toWrite := BatchOf(log, e).toWrite;
        var added := RowsFor(toWrite, KeptBy(e.write), log.drops);
        forall r | r in added && r.key == k ensures r.stored {
          var i :| 0 <= i < |added| && added[i] == r;
          RowsForAt(toWrite, KeptBy(e.write), log.drops, i);
        }
      }
    }
  }

  /** With all of a key's rows stored, the table's last row of it is the last one submitted. */
  lemma TableEndsAsTheRows(rows: seq<Row>, k: Key)
    requires AllStored(rows, k)
    ensures LastRow(Filter(IsStored, rows), k) == LastRow(rows, k)
  {
    var stored := Filter(IsStored, rows);
    LastRowIsARow(rows, k);
    LastRowIsKeyed(rows, k);
    LastRowIsARow(stored, k);
    LastRowIsKeyed(stored, k);
    if LastRow(rows, k).Some? {
      StoredLastRow(rows, k);
    } else if LastRow(stored, k).Some? {
      FilterMember(IsStored, rows, LastRow(stored, k).value);
      RowHasLast(rows, LastRow(stored, k).value);
    }
  }

  lemma {:induction false} LastRowIsKeyed(rows: seq<Row>, k: Key)
    ensures LastRow(rows, k).Some? ==> LastRow(rows, k).value.key == k
  {
    if rows != [] { LastRowIsKeyed(rows[..|rows| - 1], k); }
  }

  lemma {:induction false} RowHasLast(rows: seq<Row>, r: Row)
    requires r in rows
    ensures LastRow(rows, r.key).Some?
  {
    if r != rows[|rows| - 1] { RowHasLast(rows[..|rows| - 1], r); }
  }

  /** If every successful write stores the rows of `k`, then at every point of every run the cached price of
      `k` is the price the table ends with. */
  lemma CacheMatchesTable(events: seq<Event>, n: nat, k: Key)
    requires n <= |events| && forall i :: 0 <= i < n ==> StoresRowsAt(events, k, i)
    ensures Agrees(After(events, n), k)
  {
    var log := After(events, n);
    EveryRunKeepsInv(events, n);
    RunStoresAll(events, n, k);
    TableEndsAsTheRows(log.rows, k);
    assert Mirrors(log.seen, LastRow(log.rows, k), Era(log.drops, k), k);
  }

  /** On such a run every successful poll leaves the table's last price of every observed key at its latest
      observation. */
  lemma TableCatchesUp(events: seq<Event>, n: nat, k: Key)
    requires n < |events| && events[n].Poll? && forall i :: 0 <= i <= n ==> StoresRowsAt(events, k, i)
    ensures var seenNow := LatestObservation(events[n].snapshots, events[n].resolvable, k, |events[n].snapshots|);
            Succeeds(After(events, n), events[n]) && seenNow.Some? ==> TablePrice(After(events, n + 1), k) == seenNow
  {
    LogCatchesUp(events, n, k);
    RunStoresAll(events, n + 1, k);
    TableEndsAsTheRows(After(events, n + 1).rows, k);
  }

  /** At any point of any run where cache and table agree on a cached key: a poll that submits one row for it
      and does not evict it keeps the agreement exactly when that row is stored. */
  lemma OneRowDecidesAgreement(events: seq<Event>, n: nat, k: Key, i: nat)
    requires n < |events| && Succeeds(After(events, n), events[n]) && k !in events[n].evicted
    requires k in After(events, n).seen && Agrees(After(events, n), k)
    requires var toWrite := BatchOf(After(events, n), events[n]).toWrite;
             && i < |toWrite| && KeyOf(toWrite[i]) == k
             && forall j :: 0 <= j < |toWrite| && j != i ==> KeyOf(toWrite[j]) != k
    ensures Agrees(After(events, n + 1), k) <==> KeptBy(events[n].write)(i)
  {
    var log, e := After(events, n), events[n];
    var b, kept := BatchOf(log, e), KeptBy(e.write);
    var merged, added := Merge(log, b, kept), RowsFor(b.toWrite, kept, log.drops);
    EveryRunKeepsInv(events, n);
    CollectKeepsInv(log, e.snapshots, e.resolvable, e.now, kept, |e.snapshots|);
    forall j | 0 <= j < |added| ensures added[j].key == KeyOf(b.toWrite[j]) {
      RowsForAt(b.toWrite, kept, log.drops, j);
    }
    RowsForAt(b.toWrite, kept, log.drops, i);
    OnlyRow(added, i, k);
    LastRowAppend(log.rows, added, k);
    FilterAppend(IsStored, log.rows, added);
    LastRowAppend(Filter(IsStored, log.rows), Filter(IsStored, added), k);
    assert Mirrors(merged.seen, LastRow(merged.rows, k), Era(merged.drops, k), k);
    assert After(events, n + 1) == Forget(merged, e.evicted);
    SubmittedPriceIsNew(log, merged, added, i, k);
  }

  /** A row submitted for a cached key, if the only one, carries a price other than the cached one. */
  lemma SubmittedPriceIsNew(log: Log, merged: Log, added: seq<Row>, i: nat, k: Key)
    requires Inv(log) && Inv(merged) && k in log.seen && merged.rows == log.rows + added
    requires i < |added| && added[i].key == k && added[i].era == Era(log.drops, k)
    requires forall j :: 0 <= j < |added| && j != i ==> added[j].key != k
    ensures added[i].odds != log.seen[k].odds
  {
    var at := |log.rows| + i;
    assert merged.rows[..at] == log.rows + added[..i] && merged.rows[at] == added[i];
    NoLastRow(added[..i], k);
    LastRowAppend(log.rows, added[..i], k);
    assert Mirrors(log.seen, LastRow(log.rows, k), Era(log.drops, k), k);
  }

  /** In a table, a row of `k` repeats the row of `k` before it only across an eviction or a restart. */
  ghost predicate ChangeOnlyOf(table: seq<Row>, k: Key) {
    forall j :: 0 <= j < |table| && table[j].key == k ==>
      var before := LastRow(table[..j], k);
      before.Some? && before.value.era == table[j].era ==> before.value.odds != table[j].odds
  }

  lemma {:induction false} StoredChangeOnly(rows: seq<Row>, k: Key)
    requires ChangeOnly(rows) && AllStored(rows, k)
    ensures ChangeOnlyOf(Filter(IsStored, rows), k)
  {
    if rows != [] {
      var n := |rows| - 1;
      var init, stored := rows[..n], Filter(IsStored, rows[..n]);
      assert ChangeOnly(init) by {
        assert forall j :: 0 <= j < n ==> init[..j] == rows[..j] && init[j] == rows[j];
      }
      StoredChangeOnly(init, k);
      TableEndsAsTheRows(init, k);
      FilterSnoc(IsStored, rows, n);
      assert rows[..n + 1] == rows;
      var table := Filter(IsStored, rows);
      forall j | 0 <= j < |table| ensures j < |stored| ==> table[..j] == stored[..j] {
      }
      assert table[..|stored|] == stored;
    }
  }

  /** If every successful write stores the rows of `k`, the table repeats a price of `k` only across an eviction
      or a restart. */
  lemma TableIsChangeOnly(events: seq<Event>, n: nat, k: Key)
    requires n <= |events| && forall i :: 0 <= i < n ==> StoresRowsAt(events, k, i)
    ensures ChangeOnlyOf(Filter(IsStored, After(events, n).rows), k)
  {
    EveryRunKeepsInv(events, n);
    RunStoresAll(events, n, k);
    StoredChangeOnly(After(events, n).rows, k);
  }

  /** Over any run whatever: two stored rows of a key at one price, with no other stored row of it between them,
      have an eviction, a restart or a dropped row of that key between them. */
  lemma RepeatNeedsADrop(events: seq<Event>, n: nat, i: nat, j: nat)
    requires n <= |events| && i < j < |After(events, n).rows|
    requires var rows := After(events, n).rows;
             && rows[i].key == rows[j].key && rows[i].odds == rows[j].odds && rows[i].era == rows[j].era
             && forall d :: i < d < j && rows[d].key == rows[j].key ==> !rows[d].stored
    ensures var rows := After(events, n).rows;
            exists d :: i < d < j && rows[d].key == rows[j].key && !rows[d].stored
  {
    EveryRunKeepsInv(events, n);
    var rows := After(events, n).rows;
    var k, head := rows[j].key, rows[..j];
    if forall d :: i < d < j ==> rows[d].key != k {
      assert head == head[..i + 1] + head[i + 1..] && head[..i + 1] == head[..i] + [rows[i]];
      NoLastRow(head[i + 1..], k);
      LastRowAppend(head[..i + 1], head[i + 1..], k);
      LastRowSnoc(head[..i], rows[i], k);
      assert false;
    }
  }

  /** And with a dropped row it happens: stored at 2.0, dropped at 3.0, stored at 2.0 again. */
  lemma DroppedRowHidesAChange(event: string)
    ensures var two, three := Snapshot(event, "b", "h2h", None, "x", 2.0), Snapshot(event, "b", "h2h", None, "x", 3.0);
            var keep, drop := Returns((i: nat) => true), Returns((i: nat) => false);
            var events := [Poll([two], {event}, 0, keep, {}), Poll([three], {event}, 1, drop, {}),
                           Poll([two], {event}, 2, keep, {})];
            && (forall i :: 0 <= i < 3 ==> LegalAt(events, ODDS_SEEN_MAX, i))
            && Filter(IsStored, After(events, 3).rows) == [Row(KeyOf(two), 2.0, true, 0), Row(KeyOf(two), 2.0, true, 0)]
  {
    var two, three := Snapshot(event, "b", "h2h", None, "x", 2.0), Snapshot(event, "b", "h2h", None, "x", 3.0);
    var keep, drop := Returns((i: nat) => true), Returns((i: nat) => false);
    var events := [Poll([two], {event}, 0, keep, {}), Poll([three], {event}, 1, drop, {}),
                   Poll([two], {event}, 2, keep, {})];
    hide Next, Legal, KeyOf;
    var k := KeyOf(two);
    assert KeyOf(three) == k by { KeyIgnoresOdds(two, three); }
    assert After(events, 0) == EMPTY;
    OneRowPoll(EMPTY, events[0]);
    OneRowPoll(After(events, 1), events[1]);
    OneRowPoll(After(events, 2), events[2]);
    hide After;
    StoredAroundADrop(After(events, 3).rows, k);
  }

  lemma KeyIgnoresOdds(a: Snapshot, b: Snapshot)
    requires a == b.(odds := a.odds)
    ensures KeyOf(a) == KeyOf(b)
  {
  }

  lemma StoredAroundADrop(rows: seq<Row>, k: Key)
    requires rows == [Row(k, 2.0, true, 0), Row(k, 3.0, false, 0), Row(k, 2.0, true, 0)]
    ensures Filter(IsStored, rows) == [rows[0], rows[2]]
  {
    assert rows == [rows[0]] + ([rows[1]] + [rows[2]]);
    FilterAppend(IsStored, [rows[0]], [rows[1]] + [rows[2]]);
    FilterAppend(IsStored, [rows[1]], [rows[2]]);
  }

  /** A poll of one new price by a process that has cached at most that key. */
  lemma OneRowPoll(log: Log, e: Event)
    requires e.Poll? && |e.snapshots| == 1 && e.snapshots[0].event in e.resolvable
    requires e.write.Returns? && e.evicted == {}
    requires var k := KeyOf(e.snapshots[0]);
             log.seen.Keys <= {k} && !(k in log.seen && log.seen[k].odds == e.snapshots[0].odds) && log.drops == map[]
    ensures var s := e.snapshots[0];
            && Next(log, e) == Log(map[KeyOf(s) := Seen(s.odds, e.now)],
                                   log.rows + [Row(KeyOf(s), s.odds, e.write.kept(0), 0)], map[])
            && Legal(log, e, ODDS_SEEN_MAX)
  {
    var s := e.snapshots[0];
    var k, seen := KeyOf(s), map[KeyOf(s) := Seen(s.odds, e.now)];
    assert Collect(e.snapshots, e.resolvable, log.seen, e.now, 0) == Batch([], map[]);
    assert BatchOf(log, e) == Batch([] + [s], map[][k := Seen(s.odds, e.now)]);
    RowsForSnoc([], s, e.write.kept, log.drops);
    assert log.seen + seen == seen && seen - {} == seen && |seen| == 1;
  }

  /** Otherwise the table can lag for good: a price whose row a returning write dropped is cached all the
      same, and observing it again submits nothing. */
  lemma DroppedRowIsNotRetried(s: Snapshot, now: int, later: int)
    ensures var first := Poll([s], {s.event}, now, Returns((i: nat) => false), {});
            var again := Poll([s], {s.event}, later, Returns((i: nat) => true), {});
            var log := After([first, again], 2);
            && Legal(EMPTY, first, 1) && Legal(After([first, again], 1), again, 1)
            && KeyOf(s) in log.seen && log.seen[KeyOf(s)].odds == s.odds
            && Filter(IsStored, log.rows) == []
  {
    var first := Poll([s], {s.event}, now, Returns((i: nat) => false), {});
    var again := Poll([s], {s.event}, later, Returns((i: nat) => true), {});
    var key := KeyOf(s);
    var b1 := Collect([s], {s.event}, map[], now, 1);
    assert Collect([s], {s.event}, map[], now, 0) == Batch([], map[]);
    assert b1 == Batch([] + [s], map[][key := Seen(s.odds, now)]);
    var row := Row(key, s.odds, false, 0);
    assert [s][..0] == [];
    assert RowsFor([s], KeptBy(first.write), map[]) == RowsFor([], KeptBy(first.write), map[]) + [row];
    var log1 := After([first, again], 1);
    assert After([first, again], 0) == EMPTY;
    assert log1.seen == map[key := Seen(s.odds, now)] && log1.rows == [row];
    assert Collect([s], {s.event}, log1.seen, later, 0) == Batch([], map[]);
    assert Collect([s], {s.event}, log1.seen, later, 1) == Batch([], map[][key := Seen(s.odds, later)]);
    assert log1.seen + map[key := Seen(s.odds, later)] == map[key := Seen(s.odds, later)];
    assert |map[key := Seen(s.odds, now)]| == 1 && |map[key := Seen(s.odds, later)]| == 1;
  }

  // ---- a poll, told over its snapshots ----

  /** The cache key of a snapshot: its line when it has one, else its market. */
  ghost predicate KeyFor(k: Key, s: Snapshot) {
    && k.event == s.event && k.bookmaker == s.bookmaker && k.selection == s.selection
    && k.market == match s.marketDetail
                   case None => s.market
                   case Some(line) => if |line| > 0 then line else s.market
  }

  /** Among the first `n` snapshots of resolvable events, the `j`-th is the last one of the key. */
  ghost predicate LastOf(snaps: seq<Snapshot>, resolvable: set<string>, k: Key, n: nat, j: int) {
    && 0 <= j < n <= |snaps| && snaps[j].event in resolvable && KeyFor(k, snaps[j])
    && forall l :: j < l < n && snaps[l].event in resolvable ==> !KeyFor(k, snaps[l])
  }

  ghost predicate NoneOf(snaps: seq<Snapshot>, resolvable: set<string>, k: Key, n: nat) {
    forall j :: 0 <= j < n <= |snaps| && snaps[j].event in resolvable ==> !KeyFor(k, snaps[j])
  }

  /** The `i`-th snapshot shows a price other than the one its key had just before: the one seen earlier in the poll,
      else the cached one, else none. */
  ghost predicate Novel(seen: Cache, snaps: seq<Snapshot>, resolvable: set<string>, i: nat) {
    && i < |snaps| && snaps[i].event in resolvable
    && forall k :: KeyFor(k, snaps[i]) ==>
         && (forall j :: LastOf(snaps, resolvable, k, i, j) ==> snaps[j].odds != snaps[i].odds)
         && (NoneOf(snaps, resolvable, k, i) && k in seen ==> seen[k].odds != snaps[i].odds)
  }

  /** `idx` are the submitted snapshots among the first `n`, in order. */
  ghost predicate Submits(
    seen: Cache, snaps: seq<Snapshot>, resolvable: set<string>, n: nat, idx: seq<nat>, toWrite: seq<Snapshot>)
  {
    && n <= |snaps| && |toWrite| == |idx|
    && (forall p :: 0 <= p < |idx| ==>
          idx[p] < n && Novel(seen, snaps, resolvable, idx[p]) && toWrite[p] == snaps[idx[p]])
    && (forall p, q :: 0 <= p < q < |idx| ==> idx[p] < idx[q])
    && (forall i: nat :: i < n && Novel(seen, snaps, resolvable, i) ==> i in idx)
  }

  /** The cache is to hold, as of now, the last price of every key among the first `n` snapshots. */
  ghost predicate Refreshes(snaps: seq<Snapshot>, resolvable: set<string>, now: int, n: nat, updates: Cache) {
    && n <= |snaps|
    && (forall k :: k !in updates ==> NoneOf(snaps, resolvable, k, n))
    && (forall k :: k in updates ==>
          updates[k].at == now && exists j :: LastOf(snaps, resolvable, k, n, j) && updates[k].odds == snaps[j].odds)
  }

  ghost predicate Collected(
    seen: Cache, snaps: seq<Snapshot>, resolvable: set<string>, now: int, n: nat, idx: seq<nat>, b: Batch)
  {
    Submits(seen, snaps, resolvable, n, idx, b.toWrite) && Refreshes(snaps, resolvable, now, n, b.updates)
  }

  lemma KeyMeans(s: Snapshot, k: Key)
    ensures KeyFor(k, s) <==> k == KeyOf(s)
  {
  }

  lemma OneLast(snaps: seq<Snapshot>, resolvable: set<string>, k: Key, n: nat, i: int, j: int)
    requires LastOf(snaps, resolvable, k, n, i) && LastOf(snaps, resolvable, k, n, j)
    ensures i == j && !NoneOf(snaps, resolvable, k, n)
  {
  }

  lemma LastStep(snaps: seq<Snapshot>, resolvable: set<string>, k: Key, n: nat)
    requires n < |snaps|
    ensures snaps[n].event in resolvable && k == KeyOf(snaps[n]) ==>
              LastOf(snaps, resolvable, k, n + 1, n)
    ensures !(snaps[n].event in resolvable && k == KeyOf(snaps[n])) ==>
              && (NoneOf(snaps, resolvable, k, n + 1) <==> NoneOf(snaps, resolvable, k, n))
              && forall j :: LastOf(snaps, resolvable, k, n + 1, j) <==> LastOf(snaps, resolvable, k, n, j)
  {
    KeyMeans(snaps[n], k);
    hide KeyFor;
  }

  lemma CollectUnfolds(snaps: seq<Snapshot>, resolvable: set<string>, seen: Cache, now: int, n: nat)
    requires n < |snaps|
    ensures var b0, b := Collect(snaps, resolvable, seen, now, n), Collect(snaps, resolvable, seen, now, n + 1);
            var s := snaps[n];
            var last := Lookup(seen, b0.updates, KeyOf(s));
            var isNew := s.event in resolvable && !(last.Some? && last.value.odds == s.odds);
            && b.toWrite == (if isNew then b0.toWrite + [s] else b0.toWrite)
            && b.updates == (if s.event in resolvable then b0.updates[KeyOf(s) := Seen(s.odds, now)] else b0.updates)
  {
    hide Lookup, KeyOf;
  }

  lemma {:induction false} CollectExactly(
    snaps: seq<Snapshot>, resolvable: set<string>, seen: Cache, now: int, n: nat) returns (idx: seq<nat>)
    requires n <= |snaps|
    ensures Collected(seen, snaps, resolvable, now, n, idx, Collect(snaps, resolvable, seen, now, n))
  {
    hide *;
    if n == 0 {
      idx := [];
      NothingCollected(snaps, resolvable, seen, now);
    } else {
      var idx0 := CollectExactly(snaps, resolvable, seen, now, n - 1);
      idx := CollectedNext(snaps, resolvable, seen, now, n - 1, idx0);
    }
  }

  lemma NothingCollected(snaps: seq<Snapshot>, resolvable: set<string>, seen: Cache, now: int)
    ensures Collected(seen, snaps, resolvable, now, 0, [], Collect(snaps, resolvable, seen, now, 0))
  {
    hide KeyFor, Novel;
  }

  lemma CollectedNext(
    snaps: seq<Snapshot>, resolvable: set<string>, seen: Cache, now: int, n: nat, idx0: seq<nat>)
    returns (idx: seq<nat>)
    requires n < |snaps| && Collected(seen, snaps, resolvable, now, n, idx0, Collect(snaps, resolvable, seen, now, n))
    ensures Collected(seen, snaps, resolvable, now, n + 1, idx, Collect(snaps, resolvable, seen, now, n + 1))
  {
    hide Collect, KeyOf, Lookup, Novel, Submits, Refreshes;
    var b0 := Collect(snaps, resolvable, seen, now, n);
    CollectUnfolds(snaps, resolvable, seen, now, n);
    NovelMeans(seen, snaps, resolvable, now, n, idx0, b0);
    SubmitsStep(seen, snaps, resolvable, n, idx0, b0.toWrite);
    RefreshesStep(snaps, resolvable, now, n, b0.updates);
    var last := Lookup(seen, b0.updates, KeyOf(snaps[n]));
    var isNew := snaps[n].event in resolvable && !(last.Some? && last.value.odds == snaps[n].odds);
    idx := if isNew then idx0 + [n] else idx0;
  }

  lemma NovelMeans(
    seen: Cache, snaps: seq<Snapshot>, resolvable: set<string>, now: int, n: nat, idx: seq<nat>, b: Batch)
    requires n < |snaps| && Collected(seen, snaps, resolvable, now, n, idx, b)
    ensures Novel(seen, snaps, resolvable, n) <==>
              && snaps[n].event in resolvable
              && !(Lookup(seen, b.updates, KeyOf(snaps[n])).Some?
                   && Lookup(seen, b.updates, KeyOf(snaps[n])).value.odds == snaps[n].odds)
  {
    var k := KeyOf(snaps[n]);
    forall k' ensures KeyFor(k', snaps[n]) <==> k' == k { KeyMeans(snaps[n], k'); }
    hide KeyFor, LastOf, NoneOf, Submits;
    if k in b.updates {
      var j :| LastOf(snaps, resolvable, k, n, j) && b.updates[k].odds == snaps[j].odds;
      forall l | LastOf(snaps, resolvable, k, n, l) ensures l == j && !NoneOf(snaps, resolvable, k, n) {
        OneLast(snaps, resolvable, k, n, l, j);
      }
      OneLast(snaps, resolvable, k, n, j, j);
    } else {
      forall l ensures !LastOf(snaps, resolvable, k, n, l) {
        if LastOf(snaps, resolvable, k, n, l) { OneLast(snaps, resolvable, k, n, l, l); }
      }
    }
  }

  lemma SubmitsStep(
    seen: Cache, snaps: seq<Snapshot>, resolvable: set<string>, n: nat, idx: seq<nat>, toWrite: seq<Snapshot>)
    requires n < |snaps| && Submits(seen, snaps, resolvable, n, idx, toWrite)
    ensures !Novel(seen, snaps, resolvable, n) ==> Submits(seen, snaps, resolvable, n + 1, idx, toWrite)
    ensures Novel(seen, snaps, resolvable, n) ==>
              Submits(seen, snaps, resolvable, n + 1, idx + [n], toWrite + [snaps[n]])
  {
    hide Novel;
    var idx' := idx + [n];
    assert forall i :: i in idx ==> i in idx';
    assert idx'[|idx|] == n && n in idx';
  }

  lemma RefreshesStep(snaps: seq<Snapshot>, resolvable: set<string>, now: int, n: nat, updates: Cache)
    requires n < |snaps| && Refreshes(snaps, resolvable, now, n, updates)
    ensures snaps[n].event !in resolvable ==> Refreshes(snaps, resolvable, now, n + 1, updates)
    ensures snaps[n].event in resolvable ==>
              Refreshes(snaps, resolvable, now, n + 1, updates[KeyOf(snaps[n]) := Seen(snaps[n].odds, now)])
  {
    var s := snaps[n];
    var k, after := KeyOf(s), if s.event in resolvable then updates[KeyOf(s) := Seen(s.odds, now)] else updates;
    hide LastOf, NoneOf, KeyOf;
    forall k' | k' !in after ensures NoneOf(snaps, resolvable, k', n + 1) {
      LastStep(snaps, resolvable, k', n);
    }
    forall k' | k' in after
      ensures after[k'].at == now
      ensures exists j :: LastOf(snaps, resolvable, k', n + 1, j) && after[k'].odds == snaps[j].odds
    {
      LastStep(snaps, resolvable, k', n);
      if s.event in resolvable && k' == k {
        assert LastOf(snaps, resolvable, k', n + 1, n);
      } else {
        var j :| LastOf(snaps, resolvable, k', n, j) && updates[k'].odds == snaps[j].odds;
        assert LastOf(snaps, resolvable, k', n + 1, j);
      }
    }
  }

  /** The rows a batch adds, one for each submitted snapshot. */
  ghost predicate AddsRows(before: seq<Row>, after: seq<Row>, snaps: seq<Snapshot>, idx: seq<nat>, kept: nat -> bool) {
    && |after| == |before| + |idx| && after[..|before|] == before
    && forall p :: 0 <= p < |idx| && idx[p] < |snaps| ==>
         var r := after[|before| + p];
         KeyFor(r.key, snaps[idx[p]]) && r.odds == snaps[idx[p]].odds && r.stored == kept(p)
  }

  lemma RowsAdded(
    before: seq<Row>, seen: Cache, snaps: seq<Snapshot>, resolvable: set<string>, idx: seq<nat>, toWrite: seq<Snapshot>,
    kept: nat -> bool, drops: map<Key, nat>)
    requires Submits(seen, snaps, resolvable, |snaps|, idx, toWrite)
    ensures AddsRows(before, before + RowsFor(toWrite, kept, drops), snaps, idx, kept)
  {
    hide Novel, KeyFor;
    var added := RowsFor(toWrite, kept, drops);
    forall p | 0 <= p < |idx|
      ensures added[p].odds == snaps[idx[p]].odds && added[p].stored == kept(p) && KeyFor(added[p].key, snaps[idx[p]])
    {
      RowsForAt(toWrite, kept, drops, p);
      KeyMeans(snaps[idx[p]], added[p].key);
    }
    hide RowsFor;
  }

  /** What the cache holds after a poll. */
  ghost predicate CacheAfter(
    seen: Cache, after: Cache, snaps: seq<Snapshot>, resolvable: set<string>, now: int, evicted: set<Key>)
  {
    && (forall k :: k in after <==> k !in evicted && (k in seen || !NoneOf(snaps, resolvable, k, |snaps|)))
    && (forall k, j :: k in after && LastOf(snaps, resolvable, k, |snaps|, j) ==> after[k] == Seen(snaps[j].odds, now))
    && (forall k :: k in after && NoneOf(snaps, resolvable, k, |snaps|) ==> k in seen && after[k] == seen[k])
  }

  lemma CacheUpdated(
    seen: Cache, snaps: seq<Snapshot>, resolvable: set<string>, now: int, updates: Cache, evicted: set<Key>)
    requires Refreshes(snaps, resolvable, now, |snaps|, updates)
    ensures CacheAfter(seen, seen + updates - evicted, snaps, resolvable, now, evicted)
  {
    var n := |snaps|;
    hide KeyFor;
    forall k, j | LastOf(snaps, resolvable, k, n, j) ensures k in updates && updates[k] == Seen(snaps[j].odds, now) {
      OneLast(snaps, resolvable, k, n, j, j);
      var l :| LastOf(snaps, resolvable, k, n, l) && updates[k].odds == snaps[l].odds;
      OneLast(snaps, resolvable, k, n, l, j);
    }
    forall k | k in updates ensures !NoneOf(snaps, resolvable, k, n) {
      var l :| LastOf(snaps, resolvable, k, n, l) && updates[k].odds == snaps[l].odds;
      OneLast(snaps, resolvable, k, n, l, l);
    }
  }

  /** A poll submits exactly the snapshots that show a new price, in order. If it has to write and the write raises,
      nothing changes; else a row is added for each of them, and the cache holds, but for what is evicted, the last
      price of every key observed and the old one of every other. */
  lemma PollExactly(log: Log, e: Event) returns (idx: seq<nat>)
    requires e.Poll?
    ensures Submits(log.seen, e.snapshots, e.resolvable, |e.snapshots|, idx, BatchOf(log, e).toWrite)
    ensures idx != [] && e.write == Raises ==> Next(log, e) == log
    ensures !(idx != [] && e.write == Raises) ==>
              && CacheAfter(log.seen, Next(log, e).seen, e.snapshots, e.resolvable, e.now, e.evicted)
              && AddsRows(log.rows, Next(log, e).rows, e.snapshots, idx,
                   (p: nat) => e.write == Raises || e.write.kept(p))
  {
    idx := CollectExactly(e.snapshots, e.resolvable, log.seen, e.now, |e.snapshots|);
    var b, kept := BatchOf(log, e), KeptBy(e.write);
    RowsAdded(log.rows, log.seen, e.snapshots, e.resolvable, idx, b.toWrite, kept, log.drops);
    CacheUpdated(log.seen, e.snapshots, e.resolvable, e.now, b.updates, e.evicted);
    SameAdds(log.rows, log.rows + RowsFor(b.toWrite, kept, log.drops), e.snapshots, idx, kept,
      (p: nat) => e.write == Raises || e.write.kept(p));
    assert |b.toWrite| == |idx|;
    hide Submits, Refreshes, CacheAfter, AddsRows, Collect, RowsFor;
  }

  lemma SameAdds(
    before: seq<Row>, after: seq<Row>, snaps: seq<Snapshot>, idx: seq<nat>, kept: nat -> bool, kept': nat -> bool)
    requires AddsRows(before, after, snaps, idx, kept) && forall p :: kept(p) == kept'(p)
    ensures AddsRows(before, after, snaps, idx, kept')
  {
    hide KeyFor;
  }

  /** The number of rows a poll reports as written is the number of those the write kept. */
  lemma {:induction false} WrittenExactly(kept: nat -> bool, n: nat)
    ensures CountKept(kept, n) == |set p: nat | p < n && kept(p)|
  {
    if n > 0 {
      WrittenExactly(kept, n - 1);
      assert (set p: nat | p < n && kept(p))
          == (set p: nat | p < n - 1 && kept(p)) + if kept(n - 1) then {n - 1} else {};
    }
  }

  /** A restart forgets the cache and nothing else. */
  lemma RestartExactly(log: Log)
    ensures Next(log, Restart).seen == map[] && Next(log, Restart).rows == log.rows
  {
    assert log.seen - log.seen.Keys == map[];
  }
}
