/** Daily exposure (app/risk/exposure.py, app/pipeline.py _reserve_for_outcome and the deferred
    reservation, app/scheduler.py seed_exposure_ledger): picks are persisted first, then the new
    premium ones reserve stake, highest raw Kelly first, under a daily and an optional per-event cap. */
module Exposure {
  import opened Prelude
  import StableSort

  // ---- the ledger ----

  datatype Caps = Caps(daily: real, event: Option<real>)

  datatype Ledger = Ledger(used: map<int, real>, byEvent: map<(int, string), real>)

  function UsedOn(l: Ledger, day: int): real { if day in l.used then l.used[day] else 0.0 }

  function EventUsed(l: Ledger, day: int, event: string): real {
    if (day, event) in l.byEvent then l.byEvent[(day, event)] else 0.0
  }

  function Room(caps: Caps, l: Ledger, day: int): real { Max(caps.daily - UsedOn(l, day), 0.0) }

  function EventRoom(caps: Caps, l: Ledger, day: int, event: string): real {
    if caps.event.None? then Room(caps, l, day) else Max(caps.event.value - EventUsed(l, day, event), 0.0)
  }

  function Grant(caps: Caps, l: Ledger, day: int, fraction: real, event: string): real {
    var granted := Min(fraction, Room(caps, l, day));
    if caps.event.None? then granted else Min(granted, EventRoom(caps, l, day, event))
  }

  function Charge(l: Ledger, day: int, event: string, amount: real): Ledger {
    if amount > 0.0 then
      Ledger(l.used[day := UsedOn(l, day) + amount], l.byEvent[(day, event) := EventUsed(l, day, event) + amount])
    else l
  }

  class DailyExposureLedger {
    const caps: Caps
    var used: map<int, real>
    var usedByEvent: map<(int, string), real>

    function View(): Ledger reads this { Ledger(used, usedByEvent) }

    constructor (caps: Caps)
      ensures View() == Ledger(map[], map[]) && this.caps == caps
    {
      this.caps := caps;
      used, usedByEvent := map[], map[];
    }

    /** None is the error for a negative request. */
    method Reserve(day: int, fraction: real, event: string) returns (granted: Option<real>)
      modifies this
      ensures fraction < 0.0 ==> granted.None? && View() == old(View())
      ensures fraction >= 0.0 ==>
                && granted == Some(Grant(caps, old(View()), day, fraction, event))
                && View() == Charge(old(View()), day, event, granted.value)
    {
      if fraction < 0.0 {
        return None;
      }
      var g := Min(fraction, Room(caps, View(), day));
      if caps.event.Some? {
        g := Min(g, EventRoom(caps, View(), day, event));
      }
      if g > 0.0 {
        var dayTotal, eventTotal := UsedOn(View(), day) + g, EventUsed(View(), day, event) + g;
        used := used[day := dayTotal];
        usedByEvent := usedByEvent[(day, event) := eventTotal];
      }
      granted := Some(g);
    }

    method Preload(day: int, fraction: real)
      requires fraction >= 0.0
      modifies this
      ensures View() == old(View()).(used := old(used)[day := fraction])
    {
      used := used[day := fraction];
    }

    method PreloadEvent(day: int, event: string, fraction: real)
      requires fraction >= 0.0
      modifies this
      ensures View() == old(View()).(byEvent := old(usedByEvent)[(day, event) := fraction])
    {
      usedByEvent := usedByEvent[(day, event) := fraction];
    }
  }

  // ---- the picks table ----

  datatype Tier = Premium | Volume

  datatype Key = Key(event: string, market: string, selection: string)

  datatype Row = Row(key: Key, tier: Tier, open: bool, day: int, stake: real)

  datatype Outcome = Inserted | Upgraded | Duplicate | Unpersisted

  /** Whether the write of a pick is confirmed; one that is not may have landed in the table all the same. */
  datatype Write = Confirmed | Unconfirmed(landed: bool)

  /** A candidate about to be persisted. */
  datatype Candidate = Candidate(
    key: Key, tier: Tier, stake: real, rawKelly: real, write: Write, clipReaches: bool)

  function Find(table: seq<Row>, key: Key): (i: Option<nat>)
    ensures i.Some? ==> i.value < |table| && table[i.value].key == key
    ensures i.None? ==> forall j :: 0 <= j < |table| ==> table[j].key != key
  {
    if table == [] then None
    else if table[0].key == key then Some(0)
    else
      var i := Find(table[1..], key);
      if i.None? then
        assert forall j :: 1 <= j < |table| ==> table[j] == table[1..][j - 1];
        None
      else Some(i.value + 1)
  }

  /** What a write that lands does to the table. */
  function WriteOutcome(table: seq<Row>, c: Candidate): Outcome {
    var at := Find(table, c.key);
    if at.None? then Inserted
    else
      var row := table[at.value];
      if c.tier.Premium? && row.tier.Volume? && row.open then Upgraded else Duplicate
  }

  function Reported(c: Candidate, o: Outcome): Outcome { if c.write.Confirmed? then o else Unpersisted }

  function PersistOutcome(table: seq<Row>, c: Candidate): Outcome { Reported(c, WriteOutcome(table, c)) }

  /** Inserted and upgraded rows are dated the day they are written. */
  function PersistRows(table: seq<Row>, c: Candidate, today: int): seq<Row> {
    if c.write == Unconfirmed(false) then table
    else
      match WriteOutcome(table, c)
      case Inserted => table + [Row(c.key, c.tier, true, today, c.stake)]
      case Upgraded =>
        var at := Find(table, c.key).value;
        table[at := table[at].(tier := Premium, day := today, stake := c.stake)]
      case _ => table
  }

  function SetStake(table: seq<Row>, key: Key, stake: real): seq<Row> {
    var at := Find(table, key);
    if at.None? then table else table[at.value := table[at.value].(stake := stake)]
  }

  class PickTable {
    var rows: seq<Row>

    constructor ()
      ensures rows == []
    {
      rows := [];
    }

    method PersistPick(c: Candidate, today: int) returns (outcome: Outcome)
      modifies this
      ensures outcome == PersistOutcome(old(rows), c) && rows == PersistRows(old(rows), c, today)
    {
      if c.write == Unconfirmed(false) {
        return Unpersisted;
      }
      var at := Find(rows, c.key);
      if at.None? {
        rows := rows + [Row(c.key, c.tier, true, today, c.stake)];
        return Reported(c, Inserted);
      }
      var existing := rows[at.value];
      if c.tier.Premium? && existing.tier.Volume? && existing.open {
        rows := rows[at.value := Row(existing.key, Premium, existing.open, today, c.stake)];
        return Reported(c, Upgraded);
      }
      return Reported(c, Duplicate);
    }

    method UpdatePickStake(key: Key, stake: real) returns (updated: bool)
      modifies this
      ensures rows == SetStake(old(rows), key, stake)
      ensures updated <==> exists i :: 0 <= i < |old(rows)| && old(rows)[i].key == key
    {
      var at := Find(rows, key);
      if at.None? {
        return false;
      }
      rows := rows[at.value := rows[at.value].(stake := stake)];
      return true;
    }
  }

  /** Row `i` is the one of this key. */
  ghost predicate FirstOf(table: seq<Row>, key: Key, i: nat)
    requires i < |table|
  {
    table[i].key == key && forall k :: 0 <= k < i ==> table[k].key != key
  }

  lemma {:induction false} FindIsFirst(table: seq<Row>, key: Key, i: nat)
    requires i < |table|
    ensures FirstOf(table, key, i) <==> Find(table, key) == Some(i)
  {
    if i > 0 && table[0].key != key {
      FindIsFirst(table[1..], key, i - 1);
      assert forall k :: 1 <= k < i ==> table[k] == table[1..][k - 1];
    }
  }

  /** A write that may land appends a row for an unknown pick, promotes an open volume row in place for a premium
      one, and else leaves the table alone; what is reported says which, unless the write is not confirmed. */
  lemma PersistExactly(table: seq<Row>, c: Candidate, today: int, i: nat)
    ensures var o, after := PersistOutcome(table, c), PersistRows(table, c, today);
            && (c.write.Unconfirmed? ==> o == Unpersisted)
            && (c.write.Unconfirmed? && !c.write.landed ==> after == table)
            && (!(c.write.Unconfirmed? && !c.write.landed)
                && (forall k :: 0 <= k < |table| ==> table[k].key != c.key) ==>
                  && after == table + [Row(c.key, c.tier, true, today, c.stake)]
                  && (c.write.Confirmed? ==> o == Inserted))
            && (!(c.write.Unconfirmed? && !c.write.landed) && i < |table| && FirstOf(table, c.key, i) ==>
                  var promotes := c.tier == Premium && table[i].tier == Volume && table[i].open;
                  && after == (if promotes then table[i := Row(c.key, Premium, true, today, c.stake)] else table)
                  && (c.write.Confirmed? ==> o == if promotes then Upgraded else Duplicate))
  {
    if i < |table| { FindIsFirst(table, c.key, i); }
    if Find(table, c.key).Some? {
      assert table[Find(table, c.key).value].key == c.key;
    }
  }

  // ---- reserving the deferred premium candidates ----

  /** A deferred premium candidate, with its persistence outcome. */
  datatype Ticket = Ticket(key: Key, outcome: Outcome, stake: real, rawKelly: real, clipReaches: bool)

  predicate New(o: Outcome) { o.Inserted? || o.Upgraded? }

  function GrantFor(caps: Caps, l: Ledger, day: int, t: Ticket): real {
    if New(t.outcome) then Grant(caps, l, day, t.stake, t.key.event) else 0.0
  }

  function LedgerAfter(caps: Caps, l: Ledger, day: int, t: Ticket): Ledger {
    Charge(l, day, t.key.event, GrantFor(caps, l, day, t))
  }

  /** A brand-new pick without room is skipped; an upgraded one is kept at whatever was granted. */
  predicate Skipped(caps: Caps, l: Ledger, day: int, t: Ticket) {
    t.outcome.Inserted? && GrantFor(caps, l, day, t) <= 0.0
  }

  function RowsAfter(caps: Caps, l: Ledger, day: int, table: seq<Row>, t: Ticket): seq<Row> {
    var granted := GrantFor(caps, l, day, t);
    if New(t.outcome) && !Skipped(caps, l, day, t) && granted < t.stake && t.clipReaches
    then SetStake(table, t.key, granted)
    else table
  }

  /** The recommended stake the alert quotes; None when the pick is skipped. */
  function QuotedStake(caps: Caps, l: Ledger, day: int, t: Ticket): Option<real> {
    if Skipped(caps, l, day, t) then None
    else if New(t.outcome) then Some(GrantFor(caps, l, day, t))
    else Some(t.stake)
  }

  method ReserveForOutcome(ledger: DailyExposureLedger, table: PickTable, day: int, t: Ticket)
    returns (quoted: Option<real>)
    requires t.stake >= 0.0
    modifies ledger, table
    ensures quoted == QuotedStake(ledger.caps, old(ledger.View()), day, t)
    ensures ledger.View() == LedgerAfter(ledger.caps, old(ledger.View()), day, t)
    ensures table.rows == RowsAfter(ledger.caps, old(ledger.View()), day, old(table.rows), t)
  {
    if t.outcome.Duplicate? || t.outcome.Unpersisted? {
      return Some(t.stake);
    }
    var reserved := ledger.Reserve(day, t.stake, t.key.event);
    var granted := reserved.value;
    if granted <= 0.0 && t.outcome.Inserted? {
      return None;
    }
    if granted < t.stake {
      if t.clipReaches {
        var _ := table.UpdatePickStake(t.key, granted);
      }
      return Some(granted);
    }
    return Some(t.stake);
  }

  predicate KellyFirst(a: Ticket, b: Ticket) { a.rawKelly >= b.rawKelly }

  /** Reservations of the first `n` tickets of a queue. */
  function LedgerAfterAll(caps: Caps, l: Ledger, day: int, queue: seq<Ticket>, n: nat): Ledger
    requires n <= |queue|
  {
    if n == 0 then l else
      LedgerAfter(caps, LedgerAfterAll(caps, l, day, queue, n - 1), day, queue[n - 1])
  }

  function RowsAfterAll(caps: Caps, l: Ledger, day: int, table: seq<Row>, queue: seq<Ticket>, n: nat): seq<Row>
    requires n <= |queue|
  {
    if n == 0 then table else
      RowsAfter(caps, LedgerAfterAll(caps, l, day, queue, n - 1), day,
        RowsAfterAll(caps, l, day, table, queue, n - 1), queue[n - 1])
  }

  function GrantAt(caps: Caps, l: Ledger, day: int, queue: seq<Ticket>, i: nat): real
    requires i < |queue|
  {
    GrantFor(caps, LedgerAfterAll(caps, l, day, queue, i), day, queue[i])
  }

  method ReserveDeferred(ledger: DailyExposureLedger, table: PickTable, day: int, deferred: seq<Ticket>)
    returns (quoted: seq<Option<real>>)
    requires forall i :: 0 <= i < |deferred| ==> deferred[i].stake >= 0.0
    modifies ledger, table
    ensures var queue := StableSort.Sort(KellyFirst, deferred);
            && ledger.View() == LedgerAfterAll(ledger.caps, old(ledger.View()), day, queue, |queue|)
            && table.rows == RowsAfterAll(ledger.caps, old(ledger.View()), day, old(table.rows), queue, |queue|)
            && |quoted| == |queue|
            && forall i :: 0 <= i < |queue| ==>
                 quoted[i] == QuotedStake(ledger.caps, LedgerAfterAll(ledger.caps, old(ledger.View()), day, queue, i),
                   day, queue[i])
    ensures var queue := StableSort.Sort(KellyFirst, deferred);
            forall sc ::
              NewQuotes(queue, quoted, sc) == Used(ledger.View(), day, sc) - Used(old(ledger.View()), day, sc)
  {
    hide StableSort.Sort, QuotedStake, LedgerAfter, RowsAfter;
    var queue := StableSort.Sort(KellyFirst, deferred);
    quoted := [];
    for i := 0 to |queue|
      invariant ledger.View() == LedgerAfterAll(ledger.caps, old(ledger.View()), day, queue, i)
      invariant table.rows == RowsAfterAll(ledger.caps, old(ledger.View()), day, old(table.rows), queue, i)
      invariant |quoted| == i
      invariant forall k :: 0 <= k < i ==>
                  quoted[k] == QuotedStake(ledger.caps,
                    LedgerAfterAll(ledger.caps, old(ledger.View()), day, queue, k), day, queue[k])
    {
      StableSort.SortMembers(KellyFirst, deferred, queue[i]);
      var q := ReserveForOutcome(ledger, table, day, queue[i]);
      quoted := quoted + [q];
    }
    QueueStakes(deferred);
    forall sc
      ensures NewQuotes(queue, quoted, sc) == Used(ledger.View(), day, sc) - Used(old(ledger.View()), day, sc)
    {
      QuotesAreCharges(ledger.caps, old(ledger.View()), day, queue, quoted, sc);
    }
  }

  lemma QueueStakes(deferred: seq<Ticket>)
    requires forall i :: 0 <= i < |deferred| ==> deferred[i].stake >= 0.0
    ensures var queue := StableSort.Sort(KellyFirst, deferred);
            forall i :: 0 <= i < |queue| ==> queue[i].stake >= 0.0
  {
    var queue := StableSort.Sort(KellyFirst, deferred);
    forall i | 0 <= i < |queue| ensures queue[i].stake >= 0.0 {
      StableSort.SortMembers(KellyFirst, deferred, queue[i]);
    }
  }

  // ---- one ticket, told in amounts ----

  /** The grant: the least of the request and of what the day, and the event if it is capped, have left. */
  ghost predicate LeastRoom(caps: Caps, l: Ledger, day: int, event: string, request: real, g: real) {
    var left := caps.daily - UsedOn(l, day);
    && g <= request && g >= 0.0
    && (g > 0.0 ==> g <= left)
    && (caps.event.Some? && g > 0.0 ==> g <= caps.event.value - EventUsed(l, day, event))
    && (|| g == request || g == left || (g == 0.0 && left <= 0.0)
        || (caps.event.Some? && g == caps.event.value - EventUsed(l, day, event))
        || (caps.event.Some? && g == 0.0 && caps.event.value <= EventUsed(l, day, event)))
  }

  /** The two ledgers differ by `g` on the day and on the event's day, and nowhere else. */
  ghost predicate Charged(l: Ledger, l': Ledger, day: int, event: string, g: real) {
    && (forall d :: UsedOn(l', d) == UsedOn(l, d) + if d == day then g else 0.0)
    && (forall d, e :: EventUsed(l', d, e) == EventUsed(l, d, e) + if d == day && e == event then g else 0.0)
  }

  lemma GrantIsLeastRoom(caps: Caps, l: Ledger, day: int, event: string, request: real)
    requires request >= 0.0
    ensures LeastRoom(caps, l, day, event, request, Grant(caps, l, day, request, event))
    ensures var g := Grant(caps, l, day, request, event); Charged(l, Charge(l, day, event, g), day, event, g)
  {
  }

  /** The queue: highest raw Kelly first, and as deferred among equals. */
  lemma QueueExactly(deferred: seq<Ticket>) returns (at: seq<nat>)
    ensures var queue := StableSort.Sort(KellyFirst, deferred);
            && StableSort.Reorders(at, |deferred|)
            && (forall x :: 0 <= x < |queue| ==> queue[x] == deferred[at[x]])
            && forall x, y :: 0 <= x < y < |queue| ==>
                 queue[x].rawKelly > queue[y].rawKelly || (queue[x].rawKelly == queue[y].rawKelly && at[x] < at[y])
  {
    at := StableSort.SortPositions(KellyFirst, deferred);
    StableSort.SortOrdered(KellyFirst, deferred);
    var queue := StableSort.Sort(KellyFirst, deferred);
    forall x, y | 0 <= x < y < |queue|
      ensures queue[x].rawKelly > queue[y].rawKelly || (queue[x].rawKelly == queue[y].rawKelly && at[x] < at[y]) {
      assert KellyFirst(queue[x], queue[y]);
      assert at[x] < at[y] || !KellyFirst(deferred[at[y]], deferred[at[x]]);
    }
  }

  /** How one ticket is taken. A new one is charged the least room and quoted exactly that; an inserted one that is
      granted nothing is not quoted at all; when the clipped stake reaches the table, the row ends at the quote. A
      duplicate or unconfirmed one is quoted as it came and charged nothing. */
  ghost predicate Taken(
    caps: Caps, day: int, t: Ticket, l: Ledger, l': Ledger, table: seq<Row>, table': seq<Row>, quoted: Option<real>)
  {
    if t.outcome.Duplicate? || t.outcome.Unpersisted? then
      quoted == Some(t.stake) && Charged(l, l', day, t.key.event, 0.0) && table' == table
    else
      var g := if quoted.Some? then quoted.value else 0.0;
      && LeastRoom(caps, l, day, t.key.event, t.stake, g) && Charged(l, l', day, t.key.event, g)
      && (quoted.None? <==> t.outcome.Inserted? && g == 0.0)
      && |table'| == |table|
      && (forall i ::
            0 <= i < |table| && FirstOf(table, t.key, i) && quoted.Some? && (t.clipReaches || g == t.stake) ==>
              table'[i] == table[i].(stake := if g < t.stake then g else table[i].stake))
      && (forall i :: 0 <= i < |table| && !(FirstOf(table, t.key, i) && quoted.Some? && t.clipReaches) ==>
            table'[i] == table[i])
  }

  lemma TicketTaken(caps: Caps, l: Ledger, day: int, table: seq<Row>, t: Ticket)
    requires t.stake >= 0.0
    ensures Taken(caps, day, t, l, LedgerAfter(caps, l, day, t), table, RowsAfter(caps, l, day, table, t),
              QuotedStake(caps, l, day, t))
  {
    hide Grant, Charge, LeastRoom, Charged, FirstOf;
    GrantIsLeastRoom(caps, l, day, t.key.event, t.stake);
    NothingCharged(l, day, t.key.event);
    GrantBounds(caps, l, day, t.key.event, t.stake);
    forall i | 0 <= i < |table| ensures FirstOf(table, t.key, i) <==> Find(table, t.key) == Some(i) {
      FindIsFirst(table, t.key, i);
    }
  }

  lemma GrantBounds(caps: Caps, l: Ledger, day: int, event: string, request: real)
    requires request >= 0.0
    ensures 0.0 <= Grant(caps, l, day, request, event) <= request
  {
  }

  lemma NothingCharged(l: Ledger, day: int, event: string)
    ensures Charge(l, day, event, 0.0) == l && Charged(l, l, day, event, 0.0)
  {
  }

  /** What a queue quotes for new tickets in a scope; a skipped one counts nothing. */
  ghost function NewQuotes(queue: seq<Ticket>, quoted: seq<Option<real>>, sc: Scope): real
    requires |queue| == |quoted|
  {
    if queue == [] then 0.0
    else
      var n := |queue| - 1;
      var own := if New(queue[n].outcome) && quoted[n].Some? && InScope(sc, queue[n].key.event)
                 then quoted[n].value else 0.0;
      NewQuotes(queue[..n], quoted[..n], sc) + own
  }

  /** The quotes of a queue, each against the ledger its predecessors left. */
  ghost predicate QuotesOf(caps: Caps, l: Ledger, day: int, queue: seq<Ticket>, quoted: seq<Option<real>>) {
    && |quoted| == |queue|
    && forall i :: 0 <= i < |queue| ==>
         quoted[i] == QuotedStake(caps, LedgerAfterAll(caps, l, day, queue, i), day, queue[i])
  }

  lemma LedgerOfPrefix(caps: Caps, l: Ledger, day: int, queue: seq<Ticket>, k: nat, n: nat)
    requires n <= k <= |queue|
    ensures LedgerAfterAll(caps, l, day, queue[..k], n) == LedgerAfterAll(caps, l, day, queue, n)
  {
    if n > 0 { LedgerOfPrefix(caps, l, day, queue, k, n - 1); }
  }

  lemma {:induction false} RowsOfPrefix(
    caps: Caps, l: Ledger, day: int, table: seq<Row>, queue: seq<Ticket>, k: nat, n: nat)
    requires n <= k <= |queue|
    ensures RowsAfterAll(caps, l, day, table, queue[..k], n) == RowsAfterAll(caps, l, day, table, queue, n)
  {
    if n > 0 {
      RowsOfPrefix(caps, l, day, table, queue, k, n - 1);
      LedgerOfPrefix(caps, l, day, queue, k, n - 1);
    }
  }

  /** Every ticket of a queue is taken as told, against what its predecessors left. */
  lemma TicketOfQueue(
    caps: Caps, l: Ledger, day: int, table: seq<Row>, queue: seq<Ticket>, quoted: seq<Option<real>>, i: nat)
    requires QuotesOf(caps, l, day, queue, quoted) && i < |queue| && queue[i].stake >= 0.0
    ensures var before, after := LedgerAfterAll(caps, l, day, queue, i), LedgerAfterAll(caps, l, day, queue, i + 1);
            Taken(caps, day, queue[i], before, after, RowsAfterAll(caps, l, day, table, queue, i),
              RowsAfterAll(caps, l, day, table, queue, i + 1), quoted[i])
  {
    hide Taken;
    var before := LedgerAfterAll(caps, l, day, queue, i);
    TicketTaken(caps, before, day, RowsAfterAll(caps, l, day, table, queue, i), queue[i]);
  }

  /** The stakes quoted for new tickets are what the ledger was charged, per day and per event. */
  lemma {:induction false} QuotesAreCharges(
    caps: Caps, l: Ledger, day: int, queue: seq<Ticket>, quoted: seq<Option<real>>, sc: Scope)
    requires QuotesOf(caps, l, day, queue, quoted) && forall i :: 0 <= i < |queue| ==> queue[i].stake >= 0.0
    ensures NewQuotes(queue, quoted, sc) ==
              Used(LedgerAfterAll(caps, l, day, queue, |queue|), day, sc) - Used(l, day, sc)
  {
    hide LedgerAfter, QuotedStake, Taken, Used;
    if queue != [] {
      var n := |queue| - 1;
      forall i | 0 <= i < n
        ensures quoted[..n][i] == QuotedStake(caps, LedgerAfterAll(caps, l, day, queue[..n], i), day, queue[..n][i])
      {
        LedgerOfPrefix(caps, l, day, queue, n, i);
      }
      QuotesAreCharges(caps, l, day, queue[..n], quoted[..n], sc);
      LedgerOfPrefix(caps, l, day, queue, n, n);
      TicketOfQueue(caps, l, day, [], queue, quoted, n);
      TakenCharges(caps, day, queue[n], LedgerAfterAll(caps, l, day, queue, n),
        LedgerAfterAll(caps, l, day, queue, n + 1), RowsAfterAll(caps, l, day, [], queue, n),
        RowsAfterAll(caps, l, day, [], queue, n + 1), quoted[n], sc);
    }
  }

  lemma TakenCharges(
    caps: Caps, day: int, t: Ticket, l: Ledger, l': Ledger, table: seq<Row>, table': seq<Row>, quoted: Option<real>,
    sc: Scope)
    requires Taken(caps, day, t, l, l', table, table', quoted)
    ensures Used(l', day, sc) - Used(l, day, sc) ==
            if New(t.outcome) && InScope(sc, t.key.event) && quoted.Some? then quoted.value else 0.0
  {
    hide LeastRoom;
  }

  lemma TicketFits(caps: Caps, l: Ledger, day: int, t: Ticket, sc: Scope)
    requires t.stake >= 0.0 && CapOf(caps, sc).Some?
    ensures var used := Used(l, day, sc);
            used <= Used(LedgerAfter(caps, l, day, t), day, sc) <= Max(CapOf(caps, sc).value, used)
  {
  }

  lemma {:induction false} UsedFits(caps: Caps, l: Ledger, day: int, queue: seq<Ticket>, sc: Scope, n: nat)
    requires n <= |queue| && CapOf(caps, sc).Some? && forall i :: 0 <= i < |queue| ==> queue[i].stake >= 0.0
    ensures var after := Used(LedgerAfterAll(caps, l, day, queue, n), day, sc);
            Used(l, day, sc) <= after <= Max(CapOf(caps, sc).value, Used(l, day, sc))
  {
    hide LedgerAfter, Used;
    if n > 0 {
      UsedFits(caps, l, day, queue, sc, n - 1);
      TicketFits(caps, LedgerAfterAll(caps, l, day, queue, n - 1), day, queue[n - 1], sc);
    }
  }

  /** So they fit in the room there was. */
  lemma QuotesFitTheRoom(
    caps: Caps, l: Ledger, day: int, queue: seq<Ticket>, quoted: seq<Option<real>>, sc: Scope)
    requires QuotesOf(caps, l, day, queue, quoted) && forall i :: 0 <= i < |queue| ==> queue[i].stake >= 0.0
    requires CapOf(caps, sc).Some?
    ensures 0.0 <= NewQuotes(queue, quoted, sc) <= Max(CapOf(caps, sc).value - Used(l, day, sc), 0.0)
  {
    hide QuotesOf, Used, LedgerAfterAll;
    QuotesAreCharges(caps, l, day, queue, quoted, sc);
    UsedFits(caps, l, day, queue, sc, |queue|);
  }

  /** The row of a new ticket, persisted at the ticket's stake, ends at the stake quoted for it, if the clip reaches
      the table; the row of a skipped ticket keeps its stake. */
  lemma {:induction false} RowsEndAtTheQuote(
    caps: Caps, l: Ledger, day: int, table: seq<Row>, queue: seq<Ticket>, quoted: seq<Option<real>>, i: nat, r: nat)
    requires QuotesOf(caps, l, day, queue, quoted) && forall k :: 0 <= k < |queue| ==> queue[k].stake >= 0.0
    requires i < |queue| && New(queue[i].outcome) && r < |table| && FirstOf(table, queue[i].key, r)
    requires table[r].stake == queue[i].stake && queue[i].clipReaches
    requires forall k :: 0 <= k < |queue| && k != i && New(queue[k].outcome) ==> queue[k].key != queue[i].key
    ensures var after := RowsAfterAll(caps, l, day, table, queue, |queue|);
            && |after| == |table|
            && after[r] == table[r].(stake := if quoted[i].Some? then quoted[i].value else table[r].stake)
  {
    RowsUpTo(caps, l, day, table, queue, quoted, i, r, |queue|);
  }

  lemma {:induction false} RowsUpTo(
    caps: Caps, l: Ledger, day: int, table: seq<Row>, queue: seq<Ticket>, quoted: seq<Option<real>>, i: nat, r: nat,
    n: nat)
    requires QuotesOf(caps, l, day, queue, quoted) && forall k :: 0 <= k < |queue| ==> queue[k].stake >= 0.0
    requires i < |queue| && New(queue[i].outcome) && r < |table| && FirstOf(table, queue[i].key, r) && n <= |queue|
    requires table[r].stake == queue[i].stake && queue[i].clipReaches
    requires forall k :: 0 <= k < |queue| && k != i && New(queue[k].outcome) ==> queue[k].key != queue[i].key
    ensures var after := RowsAfterAll(caps, l, day, table, queue, n);
            && |after| == |table| && (forall k :: 0 <= k < |table| ==> after[k].key == table[k].key)
            && after[r] == table[r].(stake := if i < n && quoted[i].Some? then quoted[i].value else table[r].stake)
  {
    hide LedgerAfter, RowsAfter, QuotedStake, Taken;
    if n > 0 {
      RowsUpTo(caps, l, day, table, queue, quoted, i, r, n - 1);
      TicketOfQueue(caps, l, day, table, queue, quoted, n - 1);
      TakenRow(caps, day, queue[n - 1], LedgerAfterAll(caps, l, day, queue, n - 1),
        LedgerAfterAll(caps, l, day, queue, n), RowsAfterAll(caps, l, day, table, queue, n - 1),
        RowsAfterAll(caps, l, day, table, queue, n), quoted[n - 1], queue[i].key, r);
    }
  }

  lemma TakenRow(
    caps: Caps, day: int, t: Ticket, l: Ledger, l': Ledger, table: seq<Row>, table': seq<Row>, quoted: Option<real>,
    key: Key, r: nat)
    requires Taken(caps, day, t, l, l', table, table', quoted) && r < |table| && FirstOf(table, key, r)
    ensures |table'| == |table| && forall k :: 0 <= k < |table| ==> table'[k].key == table[k].key
    ensures !New(t.outcome) || t.key != key ==> table'[r] == table[r]
    ensures New(t.outcome) && t.key == key && t.clipReaches && table[r].stake == t.stake ==>
              table'[r] == table[r].(stake := if quoted.Some? then quoted.value else table[r].stake)
  {
    hide Charged;
  }

  // ---- who is funded first ----

  lemma {:induction false} RoomStaysShut(caps: Caps, l: Ledger, day: int, queue: seq<Ticket>, i: nat, j: nat)
    requires i <= j <= |queue| && forall k :: 0 <= k < |queue| ==> queue[k].stake >= 0.0
    ensures UsedOn(LedgerAfterAll(caps, l, day, queue, i), day) <= UsedOn(LedgerAfterAll(caps, l, day, queue, j), day)
    ensures forall e :: EventUsed(LedgerAfterAll(caps, l, day, queue, i), day, e)
                        <= EventUsed(LedgerAfterAll(caps, l, day, queue, j), day, e)
  {
    if i < j {
      RoomStaysShut(caps, l, day, queue, i, j - 1);
    }
  }

  /** A granted candidate proves every new candidate ahead of it was funded in full, unless the
      per-event cap, and nothing else, held that one back on another event. */
  lemma FundedInOrder(caps: Caps, l: Ledger, day: int, queue: seq<Ticket>, i: nat, j: nat)
    requires i < j < |queue| && forall k :: 0 <= k < |queue| ==> queue[k].stake >= 0.0
    requires New(queue[i].outcome) && GrantAt(caps, l, day, queue, j) > 0.0
    ensures GrantAt(caps, l, day, queue, i) == queue[i].stake
         || (caps.event.Some? && queue[i].key.event != queue[j].key.event
             && GrantAt(caps, l, day, queue, i)
                == EventRoom(caps, LedgerAfterAll(caps, l, day, queue, i), day, queue[i].key.event))
  {
    RoomStaysShut(caps, l, day, queue, i + 1, j);
    var before, after := LedgerAfterAll(caps, l, day, queue, i), LedgerAfterAll(caps, l, day, queue, i + 1);
    var g := GrantAt(caps, l, day, queue, i);
    assert after == Charge(before, day, queue[i].key.event, g);
  }

  /** The exact condition: ahead of a granted candidate, a new one was funded in full iff the event cap is off
      or its own event still had room for it. */
  lemma FundedExactly(caps: Caps, l: Ledger, day: int, queue: seq<Ticket>, i: nat, j: nat)
    requires i < j < |queue| && forall k :: 0 <= k < |queue| ==> queue[k].stake >= 0.0
    requires New(queue[i].outcome) && GrantAt(caps, l, day, queue, j) > 0.0
    ensures GrantAt(caps, l, day, queue, i) == queue[i].stake <==>
              || caps.event.None?
              || EventRoom(caps, LedgerAfterAll(caps, l, day, queue, i), day, queue[i].key.event) >= queue[i].stake
  {
    FundedInOrder(caps, l, day, queue, i, j);
  }

  /** With the event cap off: raw Kelly order is funding order. */
  lemma HigherKellyFundedInFull(caps: Caps, l: Ledger, day: int, deferred: seq<Ticket>, i: nat, j: nat)
    requires caps.event.None? && i < |deferred| && j < |deferred|
    requires forall k :: 0 <= k < |deferred| ==> deferred[k].stake >= 0.0
    requires var queue := StableSort.Sort(KellyFirst, deferred);
             New(queue[i].outcome) && queue[i].rawKelly > queue[j].rawKelly && GrantAt(caps, l, day, queue, j) > 0.0
    ensures var queue := StableSort.Sort(KellyFirst, deferred);
            GrantAt(caps, l, day, queue, i) == queue[i].stake
  {
    var queue := StableSort.Sort(KellyFirst, deferred);
    StableSort.SortOrdered(KellyFirst, deferred);
    assert j < i ==> KellyFirst(queue[j], queue[i]);
    forall k | 0 <= k < |queue| ensures queue[k].stake >= 0.0 {
      StableSort.SortMembers(KellyFirst, deferred, queue[k]);
    }
    FundedInOrder(caps, l, day, queue, i, j);
  }

  /** With the event cap on, a later candidate on another event can be funded past a refused one. */
  lemma EventCapBreaksKellyOrder()
    ensures var caps := Caps(0.10, Some(0.02));
            var a, b, c := Ticket(Key("e1", "h2h", "x"), Inserted, 0.02, 0.9, true),
                           Ticket(Key("e1", "h2h", "y"), Inserted, 0.02, 0.8, true),
                           Ticket(Key("e2", "h2h", "x"), Inserted, 0.02, 0.7, true);
            var l := Ledger(map[], map[]);
            StableSort.Sort(KellyFirst, [a, b, c]) == [a, b, c]
            && GrantAt(caps, l, 0, [a, b, c], 1) == 0.0 && GrantAt(caps, l, 0, [a, b, c], 2) == 0.02
  {
    var caps := Caps(0.10, Some(0.02));
    var a, b, c := Ticket(Key("e1", "h2h", "x"), Inserted, 0.02, 0.9, true),
                   Ticket(Key("e1", "h2h", "y"), Inserted, 0.02, 0.8, true),
                   Ticket(Key("e2", "h2h", "x"), Inserted, 0.02, 0.7, true);
    var l := Ledger(map[], map[]);
    StableSort.SortFixesOrdered(KellyFirst, [a, b, c]);
    assert "e1"[1] != "e2"[1];
    assert GrantFor(caps, l, 0, a) == 0.02;
    assert LedgerAfterAll(caps, l, 0, [a, b, c], 0) == l;
    var l1 := LedgerAfterAll(caps, l, 0, [a, b, c], 1);
    assert l1 == Charge(l, 0, "e1", 0.02);
    var l2 := LedgerAfterAll(caps, l, 0, [a, b, c], 2);
    assert l2 == l1;
  }

  // ---- restarts never under-count ----

  datatype Scope = Daily | OnEvent(event: string)

  predicate InScope(sc: Scope, event: string) { sc.Daily? || sc.event == event }

  function Used(l: Ledger, day: int, sc: Scope): real {
    match sc case Daily => UsedOn(l, day) case OnEvent(e) => EventUsed(l, day, e)
  }

  function StakeIn(day: int, sc: Scope): Row -> real {
    (r: Row) => if r.tier.Premium? && r.day == day && InScope(sc, r.key.event) then r.stake else 0.0
  }

  /** What the table says was recommended today in a scope: the query of seed_exposure_ledger. */
  function Persisted(table: seq<Row>, day: int, sc: Scope): real { Sum(StakeIn(day, sc), table) }

  function PremiumEvents(table: seq<Row>, day: int): set<string> {
    set r | r in table && r.tier.Premium? && r.day == day :: r.key.event
  }

  function Reseeded(caps: Caps, table: seq<Row>, day: int): Ledger {
    Ledger(map[day := Persisted(table, day, Daily)],
           if caps.event.None? then map[]
           else map e | e in PremiumEvents(table, day) :: (day, e) := Persisted(table, day, OnEvent(e)))
  }

  method SeedExposureLedger(caps: Caps, table: PickTable, today: int) returns (ledger: DailyExposureLedger)
    requires forall i :: 0 <= i < |table.rows| ==> table.rows[i].stake >= 0.0
    ensures fresh(ledger) && ledger.caps == caps
    ensures ledger.View() == Reseeded(caps, table.rows, today)
  {
    hide Persisted, PremiumEvents;
    ledger := new DailyExposureLedger(caps);
    PersistedNonNegative(table.rows, today, Daily);
    ledger.Preload(today, Persisted(table.rows, today, Daily));
    if caps.event.Some? {
      var events := PremiumEvents(table.rows, today);
      var todo := events;
      while todo != {}
        invariant todo <= events && ledger.used == map[today := Persisted(table.rows, today, Daily)]
        invariant ledger.usedByEvent == map e
                  | e in events - todo :: (today, e) := Persisted(table.rows, today, OnEvent(e))
        decreases todo
      {
        var e :| e in todo;
        PersistedNonNegative(table.rows, today, OnEvent(e));
        ledger.PreloadEvent(today, e, Persisted(table.rows, today, OnEvent(e)));
        todo := todo - {e};
      }
    }
  }

  lemma {:induction false} PersistedNonNegative(table: seq<Row>, day: int, sc: Scope)
    requires forall i :: 0 <= i < |table| ==> table[i].stake >= 0.0
    ensures Persisted(table, day, sc) >= 0.0
  {
    if table != [] { PersistedNonNegative(table[1..], day, sc); }
  }

  lemma {:induction false} PersistedNothing(table: seq<Row>, day: int, e: string)
    requires e !in PremiumEvents(table, day)
    ensures Persisted(table, day, OnEvent(e)) == 0.0
  {
    if table != [] {
      assert table[0] in table && forall r :: r in table[1..] ==> r in table;
      PersistedNothing(table[1..], day, e);
    }
  }

  /** The stake of a premium row of the day, and of the event if one is named. */
  ghost function PremiumStake(day: int, event: Option<string>): Row -> real {
    (r: Row) =>
      if r.tier == Premium && r.day == day && (event == None || event == Some(r.key.event)) then r.stake else 0.0
  }

  /** A re-seeded ledger has used, of its day and of each event, the stakes of the premium rows of that day; nothing of
      any other day, and nothing of any event when the event cap is off. */
  lemma SeedExactly(caps: Caps, table: seq<Row>, day: int)
    ensures var l := Reseeded(caps, table, day);
            && Used(l, day, Daily) == Sum(PremiumStake(day, None), table)
            && (forall e :: Used(l, day, OnEvent(e)) ==
                            if caps.event == None then 0.0 else Sum(PremiumStake(day, Some(e)), table))
            && (forall d, sc :: d != day ==> Used(l, d, sc) == 0.0)
  {
    var l := Reseeded(caps, table, day);
    SumSame(StakeIn(day, Daily), PremiumStake(day, None), table);
    forall e
      ensures Used(l, day, OnEvent(e)) ==
              if caps.event == None then 0.0 else Sum(PremiumStake(day, Some(e)), table) {
      SumSame(StakeIn(day, OnEvent(e)), PremiumStake(day, Some(e)), table);
      if e !in PremiumEvents(table, day) { PersistedNothing(table, day, e); }
    }
  }

  // ---- a process over days ----

  /** A ticket with the day its cycle charges, fixed when the cycle began, and the day its row was written. */
  datatype Held = Held(ticket: Ticket, day: int, rowDay: int)

  /** The process: the clock, the day it booted, the days its running cycles charge, the ledger it keeps in
      memory, the table, the tickets still to be reserved, and all grants ever made per charged day. */
  datatype World = World(
    today: int, boot: int, cycles: seq<int>, ledger: Ledger, table: seq<Row>, held: seq<Held>,
    granted: map<(int, Scope), real>)

  datatype Step =
    | Tick(days: nat)
    | Begin
    | Persist(cycle: nat, c: Candidate)
    | Rank
    | Reserve(i: nat)
    | Restart
    | Settle(key: Key)

  function TicketOf(table: seq<Row>, c: Candidate): Ticket {
    Ticket(c.key, PersistOutcome(table, c), c.stake, c.rawKelly, c.clipReaches)
  }

  function GrantedIn(granted: map<(int, Scope), real>, day: int, sc: Scope): real {
    if (day, sc) in granted then granted[(day, sc)] else 0.0
  }

  function AddGrant(granted: map<(int, Scope), real>, day: int, event: string, g: real): map<(int, Scope), real> {
    granted[(day, Daily) := GrantedIn(granted, day, Daily) + g]
           [(day, OnEvent(event)) := GrantedIn(granted, day, OnEvent(event)) + g]
  }

  function Without<T>(s: seq<T>, i: nat): seq<T>
    requires i < |s|
  {
    s[..i] + s[i + 1..]
  }

  function Closed(table: seq<Row>, key: Key): seq<Row> {
    var at := Find(table, key);
    if at.None? then table else table[at.value := table[at.value].(open := false)]
  }

  predicate HeldFirst(a: Held, b: Held) { KellyFirst(a.ticket, b.ticket) }

  /** A process start: the ledger is seeded from the table, for the current day alone. */
  function Started(caps: Caps, table: seq<Row>, today: int, granted: map<(int, Scope), real>): World {
    World(today, today, [], Reseeded(caps, table, today), table, [], granted)
  }

  function AfterReserve(caps: Caps, w: World, i: nat): World
    requires i < |w.held|
  {
    var h := w.held[i];
    w.(ledger := LedgerAfter(caps, w.ledger, h.day, h.ticket),
       table := RowsAfter(caps, w.ledger, h.day, w.table, h.ticket),
       held := Without(w.held, i),
       granted := AddGrant(w.granted, h.day, h.ticket.key.event, GrantFor(caps, w.ledger, h.day, h.ticket)))
  }

  function AfterPersist(w: World, day: int, c: Candidate): World {
    w.(table := PersistRows(w.table, c, w.today),
       held := if c.tier.Premium? then w.held + [Held(TicketOf(w.table, c), day, w.today)] else w.held)
  }

  /** Any interleaving is allowed: cycles overlap and run past midnight, reservations are made in any order,
      and a restart loses cycles and tickets. */
  function Next(caps: Caps, w: World, s: Step): World {
    match s
    case Tick(days) => w.(today := w.today + days)
    case Begin => w.(cycles := w.cycles + [w.today])
    case Persist(cycle, c) => if cycle < |w.cycles| then AfterPersist(w, w.cycles[cycle], c) else w
    case Rank => w.(held := StableSort.Sort(HeldFirst, w.held))
    case Reserve(i) => if i < |w.held| then AfterReserve(caps, w, i) else w
    case Restart => Started(caps, w.table, w.today, w.granted)
    case Settle(key) => w.(table := Closed(w.table, key))
  }

  /** Stakes are not negative. */
  predicate Legal(s: Step) { s.Persist? ==> s.c.stake >= 0.0 }

  ghost predicate TableOk(table: seq<Row>, today: int) {
    && (forall i :: 0 <= i < |table| ==> table[i].stake >= 0.0 && table[i].day <= today)
    && (forall i, j :: 0 <= i < j < |table| ==> table[i].key != table[j].key)
  }

  /** The row a new ticket was persisted as, still premium and at its pre-clip stake. */
  ghost predicate Backed(table: seq<Row>, h: Held) {
    New(h.ticket.outcome) ==>
      var at := Find(table, h.ticket.key);
      at.Some? && table[at.value].tier.Premium? && table[at.value].day == h.rowDay
        && table[at.value].stake == h.ticket.stake
  }

  ghost predicate Distinct(held: seq<Held>) {
    forall i, j :: 0 <= i < j < |held| && New(held[i].ticket.outcome) && New(held[j].ticket.outcome) ==>
      held[i].ticket.key != held[j].ticket.key
  }

  ghost predicate HeldOk(w: World) {
    && (forall i :: 0 <= i < |w.held| ==>
          var h := w.held[i]; h.ticket.stake >= 0.0 && w.boot <= h.day <= h.rowDay <= w.today && Backed(w.table, h))
    && Distinct(w.held)
  }

  function HeldIn(day: int, sc: Scope): Held -> real {
    (h: Held) => if New(h.ticket.outcome) && h.rowDay == day && InScope(sc, h.ticket.key.event) then h.ticket.stake
      else 0.0
  }

  /** Stakes of rows dated `day` that may still be clipped. */
  function Pending(held: seq<Held>, day: int, sc: Scope): real { Sum(HeldIn(day, sc), held) }

  /** Today's ledger and the rows of today that may still be clipped are covered by the table. */
  ghost predicate Covered(w: World, sc: Scope) {
    Used(w.ledger, w.today, sc) + Pending(w.held, w.today, sc) <= Persisted(w.table, w.today, sc)
  }

  function CapOf(caps: Caps, sc: Scope): Option<real> { if sc.Daily? then Some(caps.daily) else caps.event }

  /** All grants charged to a day fit under the cap, and are still in the ledger while they can grow. */
  ghost predicate WithinCap(caps: Caps, w: World, day: int, sc: Scope) {
    CapOf(caps, sc).Some? ==>
      && GrantedIn(w.granted, day, sc) <= CapOf(caps, sc).value
      && (w.boot <= day ==> GrantedIn(w.granted, day, sc) <= Used(w.ledger, day, sc))
  }

  /** Nothing has been charged to a day that has not come. */
  ghost predicate FutureIsEmpty(w: World) {
    forall day, sc :: day > w.today ==> Used(w.ledger, day, sc) == 0.0 && GrantedIn(w.granted, day, sc) == 0.0
  }

  ghost predicate Inv(caps: Caps, w: World) {
    && w.boot <= w.today
    && (forall k :: 0 <= k < |w.cycles| ==> w.boot <= w.cycles[k] <= w.today)
    && TableOk(w.table, w.today)
    && HeldOk(w)
    && FutureIsEmpty(w)
    && (forall sc :: Covered(w, sc))
    && (forall day, sc :: WithinCap(caps, w, day, sc))
  }

  lemma {:induction false} SumWithout<T>(f: T -> real, s: seq<T>, i: nat)
    requires i < |s|
    ensures Sum(f, Without(s, i)) == Sum(f, s) - f(s[i])
  {
    if i == 0 {
      assert Without(s, 0) == s[1..];
    } else {
      SumWithout(f, s[1..], i - 1);
      var rest := Without(s, i);
      assert rest[0] == s[0] && rest[1..] == Without(s[1..], i - 1);
    }
  }

  lemma {:induction false} SumInsert(f: Held -> real, x: Held, s: seq<Held>)
    ensures Sum(f, StableSort.Insert(HeldFirst, x, s)) == f(x) + Sum(f, s)
  {
    if s != [] && !HeldFirst(x, s[0]) { SumInsert(f, x, s[1..]); }
  }

  lemma {:induction false} SumSort(f: Held -> real, s: seq<Held>)
    ensures Sum(f, StableSort.Sort(HeldFirst, s)) == Sum(f, s)
  {
    if s != [] {
      SumSort(f, s[1..]);
      SumInsert(f, s[0], StableSort.Sort(HeldFirst, s[1..]));
    }
  }

  lemma FindUnique(table: seq<Row>, i: nat)
    requires i < |table| && forall j, k :: 0 <= j < k < |table| ==> table[j].key != table[k].key
    ensures Find(table, table[i].key) == Some(i)
  {
    var at := Find(table, table[i].key);
    assert at.Some?;
    assert forall j :: 0 <= j < |table| && j != i ==> table[j].key != table[i].key;
  }

  lemma SumOne<T>(f: T -> real, x: T)
    ensures Sum(f, [x]) == f(x)
  {
    assert [x][1..] == [];
  }

  // ---- every step keeps the invariant ----

  lemma TickKeepsInv(caps: Caps, w: World, days: nat)
    requires Inv(caps, w)
    ensures Inv(caps, Next(caps, w, Tick(days)))
  {
    var w' := Next(caps, w, Tick(days));
    if days > 0 {
      forall sc ensures Covered(w', sc) {
        assert Used(w.ledger, w'.today, sc) == 0.0;
        PersistedNonNegative(w.table, w'.today, sc);
        NothingPending(w.held, w'.today, sc);
      }
    } else {
      assert w' == w;
    }
    assert HeldOk(w');
    forall day, sc ensures WithinCap(caps, w', day, sc) {
      assert WithinCap(caps, w, day, sc);
    }
  }

  lemma {:induction false} NothingPending(held: seq<Held>, day: int, sc: Scope)
    requires forall i :: 0 <= i < |held| ==> held[i].rowDay < day
    ensures Pending(held, day, sc) == 0.0
  {
    if held != [] { NothingPending(held[1..], day, sc); }
  }

  lemma {:induction false} PendingNonNegative(held: seq<Held>, day: int, sc: Scope)
    requires forall i :: 0 <= i < |held| ==> held[i].ticket.stake >= 0.0
    ensures Pending(held, day, sc) >= 0.0
  {
    if held != [] { PendingNonNegative(held[1..], day, sc); }
  }

  lemma BeginKeepsInv(caps: Caps, w: World)
    requires Inv(caps, w)
    ensures Inv(caps, Next(caps, w, Begin))
  {
    var w' := Next(caps, w, Begin);
    forall sc ensures Covered(w', sc) {
      assert Covered(w, sc);
    }
    forall day, sc ensures WithinCap(caps, w', day, sc) {
      assert WithinCap(caps, w, day, sc);
    }
  }

  lemma PersistTable(w: World, c: Candidate)
    requires TableOk(w.table, w.today) && c.stake >= 0.0
    ensures var after := PersistRows(w.table, c, w.today);
            && TableOk(after, w.today)
            && (c.tier.Premium? ==> forall day :: Backed(after, Held(TicketOf(w.table, c), day, w.today)))
            && forall h: Held :: Backed(w.table, h) ==> Backed(after, h)
    ensures New(PersistOutcome(w.table, c)) && c.tier.Premium? ==>
              var at := Find(w.table, c.key); at.None? || !w.table[at.value].tier.Premium?
  {
    var table, after := w.table, PersistRows(w.table, c, w.today);
    var o := WriteOutcome(table, c);
    if after != table && o.Inserted? {
      FindUnique(after, |table|);
    }
    assert TableOk(after, w.today);
    forall h: Held | Backed(table, h) ensures Backed(after, h) {
      var at := Find(table, h.ticket.key);
      if at.Some? {
        FindUnique(after, at.value);
      }
    }
    if after != table && o.Upgraded? {
      FindUnique(after, Find(table, c.key).value);
    }
  }

  lemma PersistSum(w: World, c: Candidate, day: int, sc: Scope)
    requires TableOk(w.table, w.today) && c.stake >= 0.0
    ensures Persisted(PersistRows(w.table, c, w.today), w.today, sc)
         >= Persisted(w.table, w.today, sc)
            + if c.tier.Premium? then HeldIn(w.today, sc)(Held(TicketOf(w.table, c), day, w.today)) else 0.0
  {
    var table, today := w.table, w.today;
    var o := WriteOutcome(table, c);
    if c.write == Unconfirmed(false) {
    } else if o.Inserted? {
      var row := Row(c.key, c.tier, true, today, c.stake);
      SumAppend(StakeIn(today, sc), table, [row]);
      SumOne(StakeIn(today, sc), row);
    } else if o.Upgraded? {
      var at := Find(table, c.key).value;
      SumUpdate(StakeIn(today, sc), table, at, table[at].(tier := Premium, day := today, stake := c.stake));
    }
  }

  lemma PersistHeld(w: World, day: int, c: Candidate)
    requires TableOk(w.table, w.today) && HeldOk(w) && c.stake >= 0.0 && w.boot <= day <= w.today
    ensures HeldOk(AfterPersist(w, day, c)) && TableOk(AfterPersist(w, day, c).table, w.today)
  {
    PersistTable(w, c);
    if c.tier.Premium? && New(PersistOutcome(w.table, c)) {
      forall i | 0 <= i < |w.held| && New(w.held[i].ticket.outcome) ensures w.held[i].ticket.key != c.key {
        assert Backed(w.table, w.held[i]);
      }
    }
  }

  lemma PersistKeepsInv(caps: Caps, w: World, day: int, c: Candidate)
    requires Inv(caps, w) && c.stake >= 0.0 && w.boot <= day <= w.today
    ensures Inv(caps, AfterPersist(w, day, c))
  {
    var w' := AfterPersist(w, day, c);
    PersistHeld(w, day, c);
    hide PersistRows, TableOk, HeldOk;
    forall sc ensures Covered(w', sc) {
      assert Covered(w, sc);
      PersistSum(w, c, day, sc);
      if c.tier.Premium? {
        var h := Held(TicketOf(w.table, c), day, w.today);
        SumAppend(HeldIn(w.today, sc), w.held, [h]);
        SumOne(HeldIn(w.today, sc), h);
      }
    }
    forall d, sc ensures WithinCap(caps, w', d, sc) {
      assert WithinCap(caps, w, d, sc);
    }
  }

  lemma {:induction false} InsertDistinct(x: Held, s: seq<Held>)
    requires Distinct(s)
    requires forall k :: 0 <= k < |s| && New(x.ticket.outcome) && New(s[k].ticket.outcome) ==>
             x.ticket.key != s[k].ticket.key
    ensures Distinct(StableSort.Insert(HeldFirst, x, s))
  {
    if s != [] && !HeldFirst(x, s[0]) {
      InsertDistinct(x, s[1..]);
      var rest := StableSort.Insert(HeldFirst, x, s[1..]);
      forall k | 0 <= k < |rest| && New(s[0].ticket.outcome) && New(rest[k].ticket.outcome)
        ensures s[0].ticket.key != rest[k].ticket.key
      {
        StableSort.InsertElements(HeldFirst, x, s[1..]);
        assert rest[k] in multiset(rest);
        assert rest[k] == x || rest[k] in s[1..];
      }
    }
  }

  lemma {:induction false} SortDistinct(s: seq<Held>)
    requires Distinct(s)
    ensures Distinct(StableSort.Sort(HeldFirst, s))
  {
    if s != [] {
      var rest := StableSort.Sort(HeldFirst, s[1..]);
      SortDistinct(s[1..]);
      forall k | 0 <= k < |rest| && New(s[0].ticket.outcome) && New(rest[k].ticket.outcome)
        ensures s[0].ticket.key != rest[k].ticket.key
      {
        StableSort.SortMembers(HeldFirst, s[1..], rest[k]);
      }
      InsertDistinct(s[0], rest);
    }
  }

  lemma RankKeepsInv(caps: Caps, w: World)
    requires Inv(caps, w)
    ensures Inv(caps, Next(caps, w, Rank))
  {
    var w' := Next(caps, w, Rank);
    forall i | 0 <= i < |w'.held| ensures w'.held[i] in w.held {
      StableSort.SortMembers(HeldFirst, w.held, w'.held[i]);
    }
    SortDistinct(w.held);
    forall sc ensures Covered(w', sc) {
      assert Covered(w, sc);
      SumSort(HeldIn(w.today, sc), w.held);
    }
    forall day, sc ensures WithinCap(caps, w', day, sc) {
      assert WithinCap(caps, w, day, sc);
    }
  }

  lemma ReserveHeld(caps: Caps, w: World, i: nat)
    requires TableOk(w.table, w.today) && HeldOk(w) && i < |w.held|
    ensures var w' := AfterReserve(caps, w, i); TableOk(w'.table, w'.today) && HeldOk(w')
  {
    hide LedgerAfter;
    var h := w.held[i];
    var w' := AfterReserve(caps, w, i);
    assert Backed(w.table, h);
    var rest := w'.held;
    forall k | 0 <= k < |rest|
      ensures rest[k].ticket.stake >= 0.0 && w.boot <= rest[k].day <= rest[k].rowDay <= w.today
              && Backed(w'.table, rest[k])
    {
      var k0 := if k < i then k else k + 1;
      assert rest[k] == w.held[k0] && Backed(w.table, w.held[k0]);
      if New(rest[k].ticket.outcome) {
        var at := Find(w.table, rest[k].ticket.key);
        FindUnique(w'.table, at.value);
      }
    }
  }

  /** A reservation moves at most the granted part of a ticket from pending to used; one that charges an earlier
      day than its row is dated leaves today's ledger alone. */
  lemma ReserveSum(caps: Caps, w: World, i: nat, sc: Scope)
    requires TableOk(w.table, w.today) && HeldOk(w) && Covered(w, sc) && i < |w.held|
    ensures Covered(AfterReserve(caps, w, i), sc)
  {
    var h := w.held[i];
    assert Backed(w.table, h);
    SumWithout(HeldIn(w.today, sc), w.held, i);
    var g := GrantFor(caps, w.ledger, h.day, h.ticket);
    if RowsAfter(caps, w.ledger, h.day, w.table, h.ticket) != w.table {
      var at := Find(w.table, h.ticket.key).value;
      SumUpdate(StakeIn(w.today, sc), w.table, at, w.table[at].(stake := g));
    }
  }

  lemma ReserveWithinCap(caps: Caps, w: World, i: nat, day: int, sc: Scope)
    requires i < |w.held| && WithinCap(caps, w, day, sc) && w.held[i].ticket.stake >= 0.0 && w.boot <= w.held[i].day
    ensures WithinCap(caps, AfterReserve(caps, w, i), day, sc)
  {
  }

  lemma ReserveKeepsInv(caps: Caps, w: World, i: nat)
    requires Inv(caps, w) && i < |w.held|
    ensures Inv(caps, AfterReserve(caps, w, i))
  {
    var w' := AfterReserve(caps, w, i);
    ReserveHeld(caps, w, i);
    forall day, sc | day > w'.today
      ensures Used(w'.ledger, day, sc) == 0.0 && GrantedIn(w'.granted, day, sc) == 0.0
    {
      assert Used(w.ledger, day, sc) == 0.0 && GrantedIn(w.granted, day, sc) == 0.0;
    }
    hide TableOk, RowsAfter, LedgerAfter, FutureIsEmpty, Backed;
    forall sc ensures Covered(w', sc) {
      assert Covered(w, sc);
      ReserveSum(caps, w, i, sc);
    }
    forall day, sc ensures WithinCap(caps, w', day, sc) {
      assert WithinCap(caps, w, day, sc);
      ReserveWithinCap(caps, w, i, day, sc);
    }
  }

  lemma SeededDay(caps: Caps, table: seq<Row>, today: int, sc: Scope)
    requires TableOk(table, today)
    ensures CapOf(caps, sc).Some? ==> Used(Reseeded(caps, table, today), today, sc) == Persisted(table, today, sc)
    ensures Used(Reseeded(caps, table, today), today, sc) <= Persisted(table, today, sc)
    ensures forall day :: day != today ==> Used(Reseeded(caps, table, today), day, sc) == 0.0
  {
    PersistedNonNegative(table, today, sc);
    if sc.OnEvent? && sc.event !in PremiumEvents(table, today) {
      PersistedNothing(table, today, sc.event);
    }
  }

  /** A restart at any moment, also in the middle of a cycle that began the day before. */
  lemma RestartKeepsInv(caps: Caps, w: World)
    requires Inv(caps, w)
    ensures Inv(caps, Next(caps, w, Restart))
    ensures forall sc :: CapOf(caps, sc).Some? ==>
            Used(w.ledger, w.today, sc) <= Used(Reseeded(caps, w.table, w.today), w.today, sc)
  {
    var w' := Next(caps, w, Restart);
    forall sc
      ensures Covered(w', sc)
      ensures CapOf(caps, sc).Some? ==> Used(w.ledger, w.today, sc) <= Used(w'.ledger, w.today, sc)
      ensures forall day :: WithinCap(caps, w', day, sc)
      ensures forall day :: day > w.today ==> Used(w'.ledger, day, sc) == 0.0
    {
      assert Covered(w, sc);
      SeededDay(caps, w.table, w.today, sc);
      PendingNonNegative(w.held, w.today, sc);
      forall day ensures WithinCap(caps, w', day, sc) {
        assert WithinCap(caps, w, day, sc);
      }
    }
  }

  lemma SettleKeepsInv(caps: Caps, w: World, key: Key)
    requires Inv(caps, w)
    ensures Inv(caps, Next(caps, w, Settle(key)))
  {
    var w' := Next(caps, w, Settle(key));
    var at := Find(w.table, key);
    if at.Some? {
      forall h: Held | Backed(w.table, h) ensures Backed(w'.table, h) {
        var i := Find(w.table, h.ticket.key);
        if i.Some? { FindUnique(w'.table, i.value); }
      }
    }
    forall sc ensures Covered(w', sc) {
      assert Covered(w, sc);
      if at.Some? { SumUpdate(StakeIn(w.today, sc), w.table, at.value, w.table[at.value].(open := false)); }
    }
    forall day, sc ensures WithinCap(caps, w', day, sc) {
      assert WithinCap(caps, w, day, sc);
    }
  }

  function Run(caps: Caps, w: World, steps: seq<Step>): World {
    if steps == [] then w else Next(caps, Run(caps, w, steps[..|steps| - 1]), steps[|steps| - 1])
  }

  /** Over any interleaving, across any number of days, of cycles, reservations, restarts and settlements. */
  lemma {:induction false} EveryRunKeepsInv(caps: Caps, w: World, steps: seq<Step>)
    requires Inv(caps, w) && forall i :: 0 <= i < |steps| ==> Legal(steps[i])
    ensures Inv(caps, Run(caps, w, steps))
  {
    if steps != [] {
      var n := |steps| - 1;
      EveryRunKeepsInv(caps, w, steps[..n]);
      NextKeepsInv(caps, Run(caps, w, steps[..n]), steps[n]);
    }
  }

  lemma NextKeepsInv(caps: Caps, w: World, s: Step)
    requires Inv(caps, w) && Legal(s)
    ensures Inv(caps, Next(caps, w, s))
  {
    match s {
      case Tick(days) => TickKeepsInv(caps, w, days);
      case Begin => BeginKeepsInv(caps, w);
      case Persist(cycle, c) =>
        if cycle < |w.cycles| { PersistKeepsInv(caps, w, w.cycles[cycle], c); }
      case Rank => RankKeepsInv(caps, w);
      case Reserve(i) =>
        if i < |w.held| { ReserveKeepsInv(caps, w, i); }
      case Restart => RestartKeepsInv(caps, w);
      case Settle(key) => SettleKeepsInv(caps, w, key);
    }
  }

  /** A first process start on any table. */
  lemma StartKeepsInv(caps: Caps, table: seq<Row>, today: int)
    requires TableOk(table, today) && caps.daily >= 0.0 && (caps.event.Some? ==> caps.event.value >= 0.0)
    ensures Inv(caps, Started(caps, table, today, map[]))
  {
    var w := Started(caps, table, today, map[]);
    forall sc ensures Covered(w, sc) && forall day :: day > today ==> Used(w.ledger, day, sc) == 0.0 {
      SeededDay(caps, table, today, sc);
    }
    forall day, sc ensures WithinCap(caps, w, day, sc) {
      SeededDay(caps, table, today, sc);
      PersistedNonNegative(table, today, sc);
    }
  }

  /** No run, however many midnights and restarts it crosses, grants more than a cap for any day; and re-seeding
      at any of its moments counts at least what the ledger had used that day. */
  lemma CapsHoldEveryDay(caps: Caps, table: seq<Row>, today: int, steps: seq<Step>, day: int, sc: Scope)
    requires TableOk(table, today) && caps.daily >= 0.0 && (caps.event.Some? ==> caps.event.value >= 0.0)
    requires forall i :: 0 <= i < |steps| ==> Legal(steps[i])
    ensures var w := Run(caps, Started(caps, table, today, map[]), steps);
            && (CapOf(caps, sc).Some? ==> GrantedIn(w.granted, day, sc) <= CapOf(caps, sc).value)
            && (CapOf(caps, sc).Some? ==>
                  Used(w.ledger, w.today, sc) <= Used(Reseeded(caps, w.table, w.today), w.today, sc))
  {
    var w0 := Started(caps, table, today, map[]);
    StartKeepsInv(caps, table, today);
    EveryRunKeepsInv(caps, w0, steps);
    var w := Run(caps, w0, steps);
    assert WithinCap(caps, w, day, sc);
    RestartKeepsInv(caps, w);
  }

  function Drain(n: nat): seq<Step> { seq(n, _ => Reserve(0)) }

  function Tickets(held: seq<Held>): (ts: seq<Ticket>)
    ensures |ts| == |held| && forall i :: 0 <= i < |held| ==> ts[i] == held[i].ticket
  {
    seq(|held|, i requires 0 <= i < |held| => held[i].ticket)
  }

  lemma DrainStep(caps: Caps, w: World, n: nat)
    requires n > 0 && Run(caps, w, Drain(n - 1)).held != []
    ensures Run(caps, w, Drain(n)) == AfterReserve(caps, Run(caps, w, Drain(n - 1)), 0)
  {
    hide AfterReserve;
    assert Drain(n)[..n - 1] == Drain(n - 1) && Drain(n)[n - 1] == Reserve(0);
  }

  /** The queue of ReserveDeferred is a run: reserving the head ticket of a cycle again and again. */
  lemma {:induction false} DrainIsARun(caps: Caps, w: World, day: int, n: nat)
    requires n <= |w.held| && forall i :: 0 <= i < |w.held| ==> w.held[i].day == day
    ensures var after, queue := Run(caps, w, Drain(n)), Tickets(w.held);
            && after.ledger == LedgerAfterAll(caps, w.ledger, day, queue, n)
            && after.table == RowsAfterAll(caps, w.ledger, day, w.table, queue, n)
            && after.held == w.held[n..]
  {
    hide LedgerAfter, RowsAfter, GrantFor, AddGrant;
    if n > 0 {
      DrainIsARun(caps, w, day, n - 1);
      DrainStep(caps, w, n);
      hide Run, Drain;
      var before := Run(caps, w, Drain(n - 1));
      assert before.held[0] == w.held[n - 1];
      assert Without(before.held, 0) == w.held[n..];
    }
  }

  lemma {:induction false} InsertTickets(x: Held, s: seq<Held>)
    ensures Tickets(StableSort.Insert(HeldFirst, x, s)) == StableSort.Insert(KellyFirst, x.ticket, Tickets(s))
  {
    if s != [] && !HeldFirst(x, s[0]) {
      assert Tickets(s)[1..] == Tickets(s[1..]);
      InsertTickets(x, s[1..]);
    }
  }

  /** Ranking the held tickets gives the queue ReserveDeferred works through. */
  lemma {:induction false} RankIsTheQueue(held: seq<Held>)
    ensures Tickets(StableSort.Sort(HeldFirst, held)) == StableSort.Sort(KellyFirst, Tickets(held))
  {
    if held != [] {
      assert Tickets(held)[1..] == Tickets(held[1..]);
      RankIsTheQueue(held[1..]);
      InsertTickets(held[0], StableSort.Sort(HeldFirst, held[1..]));
    }
  }

  // ---- what the steps of a run do ----

  /** What a step changes, and nothing else: the clock, the running cycles, a written row and its ticket, the order of
      the tickets, one ticket taken and its charge recorded as granted, a re-seeded start, or a closed row. */
  ghost predicate Does(caps: Caps, w: World, s: Step, v: World) {
    match s
    case Tick(days) => v == w.(today := w.today + days)
    case Begin => v == w.(cycles := w.cycles + [w.today])
    case Persist(k, c) =>
      if k >= |w.cycles| then v == w
      else
        var t := Ticket(c.key, PersistOutcome(w.table, c), c.stake, c.rawKelly, c.clipReaches);
        v == w.(table := PersistRows(w.table, c, w.today),
                held := if c.tier == Premium then w.held + [Held(t, w.cycles[k], w.today)] else w.held)
    case Rank =>
      && v == w.(held := v.held) && multiset(v.held) == multiset(w.held)
      && forall a, b :: 0 <= a < b < |v.held| ==> v.held[a].ticket.rawKelly >= v.held[b].ticket.rawKelly
    case Reserve(i) =>
      if i >= |w.held| then v == w
      else
        && v == w.(ledger := v.ledger, table := v.table, held := w.held[..i] + w.held[i + 1..], granted := v.granted)
        && (exists quoted ::
              Taken(caps, w.held[i].day, w.held[i].ticket, w.ledger, v.ledger, w.table, v.table, quoted))
        && GrantsAre(w, v)
    case Restart =>
      && v == World(w.today, w.today, [], v.ledger, w.table, [], w.granted)
      && Used(v.ledger, w.today, Daily) == Sum(PremiumStake(w.today, None), w.table)
      && (caps.event.Some? ==>
            forall e :: Used(v.ledger, w.today, OnEvent(e)) == Sum(PremiumStake(w.today, Some(e)), w.table))
    case Settle(key) =>
      && v == w.(table := v.table) && |v.table| == |w.table|
      && forall i :: 0 <= i < |w.table| ==>
           v.table[i] == if FirstOf(w.table, key, i) then w.table[i].(open := false) else w.table[i]
  }

  /** What is recorded as granted is what the ledger was charged. */
  ghost predicate GrantsAre(w: World, v: World) {
    forall day, sc ::
      GrantedIn(v.granted, day, sc) - GrantedIn(w.granted, day, sc) == Used(v.ledger, day, sc) - Used(w.ledger, day, sc)
  }

  lemma StepExactly(caps: Caps, w: World, s: Step)
    requires forall i :: 0 <= i < |w.held| ==> w.held[i].ticket.stake >= 0.0
    ensures Does(caps, w, s, Next(caps, w, s))
  {
    hide PersistOutcome, PersistRows, LedgerAfter, RowsAfter, GrantFor, AddGrant, Reseeded, Taken, Used, GrantsAre;
    match s {
      case Tick(_) =>
      case Begin =>
      case Persist(_, _) =>
      case Rank =>
        StableSort.SortElements(HeldFirst, w.held);
        StableSort.SortOrdered(HeldFirst, w.held);
        var held := Next(caps, w, s).held;
        forall a, b | 0 <= a < b < |held| ensures held[a].ticket.rawKelly >= held[b].ticket.rawKelly {
          assert HeldFirst(held[a], held[b]);
        }
      case Reserve(i) =>
        if i < |w.held| {
          var h := w.held[i];
          TicketTaken(caps, w.ledger, h.day, w.table, h.ticket);
          ReserveGrants(caps, w, i);
        }
      case Restart => SeedExactly(caps, w.table, w.today);
      case Settle(key) =>
        forall i | 0 <= i < |w.table| ensures FirstOf(w.table, key, i) <==> Find(w.table, key) == Some(i) {
          FindIsFirst(w.table, key, i);
        }
    }
  }

  lemma ReserveGrants(caps: Caps, w: World, i: nat)
    requires i < |w.held| && w.held[i].ticket.stake >= 0.0
    ensures GrantsAre(w, AfterReserve(caps, w, i))
  {
    var t, day := w.held[i].ticket, w.held[i].day;
    var g := GrantFor(caps, w.ledger, day, t);
    GrantIsLeastRoom(caps, w.ledger, day, t.key.event, t.stake);
    NothingCharged(w.ledger, day, t.key.event);
    assert Charged(w.ledger, LedgerAfter(caps, w.ledger, day, t), day, t.key.event, g);
    hide Grant, Charge, LeastRoom, RowsAfter, GrantFor, LedgerAfter;
  }

  /** What the reservations of a run charge for a day, in all or for an event. */
  ghost function Charges(caps: Caps, w: World, steps: seq<Step>, day: int, sc: Scope): real {
    if steps == [] then 0.0
    else
      var n := |steps| - 1;
      Charges(caps, w, steps[..n], day, sc)
      + if steps[n].Reserve?
        then Used(Run(caps, w, steps).ledger, day, sc) - Used(Run(caps, w, steps[..n]).ledger, day, sc) else 0.0
  }

  lemma {:induction false} GrantedIsCharged(caps: Caps, w: World, steps: seq<Step>, day: int, sc: Scope)
    requires Inv(caps, w) && forall i :: 0 <= i < |steps| ==> Legal(steps[i])
    ensures GrantedIn(Run(caps, w, steps).granted, day, sc)
            == GrantedIn(w.granted, day, sc) + Charges(caps, w, steps, day, sc)
  {
    hide Inv, Next, Used, GrantedIn, Taken;
    if steps != [] {
      var n := |steps| - 1;
      GrantedIsCharged(caps, w, steps[..n], day, sc);
      EveryRunKeepsInv(caps, w, steps[..n]);
      var before := Run(caps, w, steps[..n]);
      StakesHeld(caps, before);
      StepExactly(caps, before, steps[n]);
    }
  }

  lemma StakesHeld(caps: Caps, w: World)
    requires Inv(caps, w)
    ensures forall i :: 0 <= i < |w.held| ==> w.held[i].ticket.stake >= 0.0
  {
  }

  /** So from a first start no run, whatever its midnights and restarts, charges more than a cap for any day. */
  lemma ChargesFitTheCaps(caps: Caps, table: seq<Row>, today: int, steps: seq<Step>, day: int, sc: Scope)
    requires TableOk(table, today) && caps.daily >= 0.0 && (caps.event.Some? ==> caps.event.value >= 0.0)
    requires (forall i :: 0 <= i < |steps| ==> Legal(steps[i])) && CapOf(caps, sc).Some?
    ensures Charges(caps, Started(caps, table, today, map[]), steps, day, sc) <= CapOf(caps, sc).value
  {
    hide Inv, Next, Used, Charges, Run, Started, TableOk;
    StartKeepsInv(caps, table, today);
    CapsHoldEveryDay(caps, table, today, steps, day, sc);
    NothingGranted(caps, table, today, day, sc);
    GrantedIsCharged(caps, Started(caps, table, today, map[]), steps, day, sc);
  }

  lemma NothingGranted(caps: Caps, table: seq<Row>, today: int, day: int, sc: Scope)
    ensures GrantedIn(Started(caps, table, today, map[]).granted, day, sc) == 0.0
  {
  }
}
