/** The Betfair historical stream reader (app/ingestion/betfair_bsp.py): a fold over market changes that
    snapshots the prices once at the in-play turn, and what a runner's close means. */
module BetfairStream {
  import opened Prelude
  import opened StableSort

  /** One runner of a market definition; an entry without an integer id is unusable. */
  datatype RunnerDef = RunnerDef(
    id: Option<int>, name: Option<string>, sortPriority: Option<int>, status: string, bsp: Option<real>)

  datatype MarketDef = MarketDef(
    inPlay: bool, closed: bool, reconciled: bool, marketTime: Option<int>, eventName: string, runners: seq<RunnerDef>)

  /** A runner price change: level-0 prices of the two back ladders and the last traded price. */
  datatype RunnerChange = RunnerChange(id: Option<int>, bdatb: Option<real>, batb: Option<real>, ltp: Option<real>)

  datatype MarketChange = MarketChange(id: string, def: Option<MarketDef>, rcs: seq<RunnerChange>)

  datatype Message = Message(mcm: bool, pt: Option<int>, mc: seq<MarketChange>)

  /** A market change with the publish time of its message. */
  datatype Change = Change(pt: Option<int>, mc: MarketChange)

  datatype Runner = Runner(
    id: int, name: Option<string>, sortPriority: Option<int>, status: string,
    close: Option<real>, bsp: Option<real>, won: Option<bool>)

  datatype MarketClose = MarketClose(
    marketId: string, eventName: string, kickoff: Option<int>, inPlayAt: Option<int>,
    settled: bool, reconciled: bool, runners: seq<Runner>)

  function ToDecimal(value: Option<real>): Option<real> {
    if value.Some? && value.value > 1.0 then value else None
  }

  function BestBack(rc: RunnerChange): Option<real> {
    if ToDecimal(rc.bdatb).Some? then rc.bdatb
    else if ToDecimal(rc.batb).Some? then rc.batb
    else ToDecimal(rc.ltp)
  }

  function Won(status: string): Option<bool> {
    if status == "WINNER" then Some(true) else if status == "LOSER" then Some(false) else None
  }

  // ---- what a close means ----

  function Tagged(m: Message): seq<Change> {
    if m.mcm then seq(|m.mc|, i requires 0 <= i < |m.mc| => Change(m.pt, m.mc[i])) else []
  }

  /** The changes of a file, in order, ignoring everything that is not a market-change message. */
  function Changes(msgs: seq<Message>): seq<Change> {
    if msgs == [] then []
    else Changes(msgs[..|msgs| - 1]) + Tagged(msgs[|msgs| - 1])
  }

  /** The last valid price of a runner among these price changes. */
  function LastOf(rcs: seq<RunnerChange>, sid: int): Option<real> {
    if rcs == [] then None
    else
      var rc := rcs[|rcs| - 1];
      if rc.id == Some(sid) && BestBack(rc).Some? then BestBack(rc) else LastOf(rcs[..|rcs| - 1], sid)
  }

  /** The last valid price of a runner over whole changes. */
  function LastSeen(cs: seq<Change>, sid: int): Option<real> {
    if cs == [] then None
    else
      var here := LastOf(cs[|cs| - 1].mc.rcs, sid);
      if here.Some? then here else LastSeen(cs[..|cs| - 1], sid)
  }

  predicate TurnsInPlay(c: Change) { c.mc.def.Some? && c.mc.def.value.inPlay }

  /** The position of the first in-play definition; past the end when the market never went in-play. */
  function Turn(cs: seq<Change>): (t: nat)
    ensures t <= |cs|
    ensures forall i :: 0 <= i < t ==> !TurnsInPlay(cs[i])
    ensures t < |cs| ==> TurnsInPlay(cs[t])
  {
    if cs == [] then 0
    else
      var before := Turn(cs[..|cs| - 1]);
      assert forall i :: 0 <= i < before ==> cs[i] == cs[..|cs| - 1][i];
      if before < |cs| - 1 then before else if TurnsInPlay(cs[|cs| - 1]) then |cs| - 1 else |cs|
  }

  function LatestDef(cs: seq<Change>): Option<MarketDef> {
    if cs == [] then None
    else if cs[|cs| - 1].mc.def.Some? then cs[|cs| - 1].mc.def
    else LatestDef(cs[..|cs| - 1])
  }

  function LatestId(cs: seq<Change>): string {
    if cs == [] then ""
    else if cs[|cs| - 1].mc.id != "" then cs[|cs| - 1].mc.id
    else LatestId(cs[..|cs| - 1])
  }

  /** A runner closes at its reconciled starting price, else at the last price seen before the turn. */
  function CloseOf(cs: seq<Change>, sid: int, bsp: Option<real>): Option<real> {
    if ToDecimal(bsp).Some? then bsp else LastSeen(cs[..Turn(cs)], sid)
  }

  function RunnerOf(cs: seq<Change>, rd: RunnerDef): Runner
    requires rd.id.Some?
  {
    Runner(rd.id.value, rd.name, rd.sortPriority, rd.status, CloseOf(cs, rd.id.value, rd.bsp), ToDecimal(rd.bsp),
      Won(rd.status))
  }

  function RunnersOf(cs: seq<Change>, rds: seq<RunnerDef>): seq<Runner> {
    if rds == [] then []
    else
      var rd := rds[|rds| - 1];
      RunnersOf(cs, rds[..|rds| - 1]) + if rd.id.Some? then [RunnerOf(cs, rd)] else []
  }

  function Priority(r: Runner): int { if r.sortPriority.Some? then r.sortPriority.value else 99 }

  predicate RunnerLe(a: Runner, b: Runner) {
    Priority(a) < Priority(b) || (Priority(a) == Priority(b) && a.id <= b.id)
  }

  function ClosedMarket(cs: seq<Change>): Option<MarketClose> {
    var def := LatestDef(cs);
    if def.None? || RunnersOf(cs, def.value.runners) == [] then None
    else Some(MarketClose(
      LatestId(cs), def.value.eventName, def.value.marketTime, if Turn(cs) < |cs| then cs[Turn(cs)].pt else None,
      def.value.closed, def.value.reconciled, Sort(RunnerLe, RunnersOf(cs, def.value.runners))))
  }

  // ---- the streaming reader ----

  /** The map holds each runner's latest valid price. */
  ghost predicate Holds(prices: map<int, real>, cs: seq<Change>) {
    forall sid: int :: (sid in prices <==> LastSeen(cs, sid).Some?)
      && (sid in prices ==> LastSeen(cs, sid) == Some(prices[sid]))
  }

  /** The state the loop carries from change to change. */
  datatype Reader = Reader(
    marketId: string, latestDef: Option<MarketDef>, running: map<int, real>,
    preInplay: Option<map<int, real>>, inPlayAt: Option<int>)

  ghost predicate Reads(r: Reader, cs: seq<Change>) {
    && r.marketId == LatestId(cs)
    && r.latestDef == LatestDef(cs)
    && Holds(r.running, cs)
    && (r.preInplay.Some? <==> Turn(cs) < |cs|)
    && (r.preInplay.Some? ==> Holds(r.preInplay.value, cs[..Turn(cs)]) && r.inPlayAt == cs[Turn(cs)].pt)
    && (r.preInplay.None? ==> r.inPlayAt == None)
  }

  /** One market change: the snapshot is taken before the change's own prices are applied. */
  method ReadChange(r0: Reader, ghost cs: seq<Change>, c: Change) returns (r: Reader)
    requires Reads(r0, cs)
    ensures Reads(r, cs + [c])
  {
    r := r0;
    if c.mc.id != "" {
      r := r.(marketId := c.mc.id);
    }
    if c.mc.def.Some? {
      r := r.(latestDef := c.mc.def);
      if c.mc.def.value.inPlay && r.preInplay.None? {
        r := r.(preInplay := Some(r.running), inPlayAt := c.pt);
      }
    }
    var running := ApplyPrices(r.running, cs, c);
    r := r.(running := running);
    assert (cs + [c])[..|cs|] == cs;
    assert (cs + [c])[..Turn(cs)] == cs[..Turn(cs)];
  }

  method ApplyPrices(running0: map<int, real>, ghost cs: seq<Change>, c: Change) returns (running: map<int, real>)
    requires Holds(running0, cs)
    ensures Holds(running, cs + [c])
  {
    running := running0;
    var rcs := c.mc.rcs;
    for i := 0 to |rcs|
      invariant forall sid: int :: LastOf(rcs[..i], sid).Some? ==>
                sid in running && Some(running[sid]) == LastOf(rcs[..i], sid)
      invariant forall sid: int :: LastOf(rcs[..i], sid).None? ==>
                  (sid in running <==> sid in running0) && (sid in running ==> running[sid] == running0[sid])
    {
      var rc := rcs[i];
      assert rcs[..i + 1][..i] == rcs[..i];
      var price := BestBack(rc);
      if rc.id.Some? && price.Some? {
        running := running[rc.id.value := price.value];
      }
    }
    assert rcs[..|rcs|] == rcs;
    assert (cs + [c])[..|cs|] == cs;
  }

  /** The market changes of one message, in order. */
  method ReadMessage(r0: Reader, ghost before: seq<Change>, m: Message) returns (r: Reader)
    requires Reads(r0, before)
    ensures Reads(r, before + Tagged(m))
  {
    hide Reads;
    r := r0;
    assert before + [] == before;
    if m.mcm {
      ghost var own := Tagged(m);
      assert own[..0] == [];
      for j := 0 to |m.mc|
        invariant Reads(r, before + own[..j])
      {
        r := ReadChange(r, before + own[..j], Change(m.pt, m.mc[j]));
        assert before + own[..j] + [own[j]] == before + own[..j + 1];
      }
      assert own[..|m.mc|] == own;
    }
  }

  method BuildRunners(ghost cs: seq<Change>, snapshot: map<int, real>, rds: seq<RunnerDef>)
    returns (runners: seq<Runner>)
    requires Holds(snapshot, cs[..Turn(cs)])
    ensures runners == RunnersOf(cs, rds)
  {
    runners := [];
    for i := 0 to |rds|
      invariant runners == RunnersOf(cs, rds[..i])
    {
      var rd := rds[i];
      assert rds[..i + 1][..i] == rds[..i];
      if rd.id.Some? {
        var bsp := ToDecimal(rd.bsp);
        var close := if bsp.Some? then bsp else if rd.id.value in snapshot then Some(snapshot[rd.id.value]) else None;
        runners := runners + [Runner(rd.id.value, rd.name, rd.sortPriority, rd.status, close, bsp, Won(rd.status))];
      }
    }
    assert rds[..|rds|] == rds;
  }

  method ParseMarketStream(msgs: seq<Message>) returns (result: Option<MarketClose>)
    ensures result == ClosedMarket(Changes(msgs))
  {
    hide Turn, LatestDef, LatestId, LastSeen, RunnersOf;
    var r := Reader("", None, map[], None, None);
    NothingRead(r);
    for i := 0 to |msgs|
      invariant Reads(r, Changes(msgs[..i]))
    {
      assert msgs[..i + 1][..i] == msgs[..i];
      r := ReadMessage(r, Changes(msgs[..i]), msgs[i]);
    }
    assert msgs[..|msgs|] == msgs;
    if r.latestDef.None? {
      return None;
    }
    var snapshot := if r.preInplay.Some? then r.preInplay.value else r.running;
    ghost var cs := Changes(msgs);
    assert cs[..|cs|] == cs;
    var runners := BuildRunners(cs, snapshot, r.latestDef.value.runners);
    if runners == [] {
      return None;
    }
    var def := r.latestDef.value;
    result := Some(MarketClose(r.marketId, def.eventName, def.marketTime, r.inPlayAt, def.closed, def.reconciled,
      Sort(RunnerLe, runners)));
  }

  lemma NothingRead(r: Reader)
    requires r == Reader("", None, map[], None, None)
    ensures Reads(r, [])
  {
  }

  // ---- what the snapshot guarantees ----

  lemma {:induction false} LatestAppend(a: seq<Change>, b: seq<Change>)
    ensures LatestDef(a + b) == if LatestDef(b).Some? then LatestDef(b) else LatestDef(a)
    ensures LatestId(a + b) == if LatestId(b) != "" then LatestId(b) else LatestId(a)
  {
    if b == [] {
      assert a + b == a;
    } else {
      assert (a + b)[..|a + b| - 1] == a + b[..|b| - 1];
      LatestAppend(a, b[..|b| - 1]);
    }
  }

  lemma TurnIsFirst(cs: seq<Change>, t: nat)
    requires t < |cs| && TurnsInPlay(cs[t]) && forall i :: 0 <= i < t ==> !TurnsInPlay(cs[i])
    ensures Turn(cs) == t
  {
  }

  /** After the in-play turn prices do not matter: two streams that agree up to the turn, on the turning
      definition and on the final definition and id close the market alike, whatever prices they carry from the
      turn on. */
  lemma LatePricesChangeNoClose(cs: seq<Change>, ds: seq<Change>)
    requires var t := Turn(cs);
             t < |cs| && t < |ds| && cs[..t] == ds[..t] && cs[t].mc.def == ds[t].mc.def && cs[t].pt == ds[t].pt
    requires LatestDef(cs) == LatestDef(ds) && LatestId(cs) == LatestId(ds)
    ensures ClosedMarket(cs) == ClosedMarket(ds)
  {
    var t := Turn(cs);
    forall i | 0 <= i < t ensures !TurnsInPlay(ds[i]) {
      assert ds[i] == ds[..t][i] == cs[..t][i] == cs[i];
    }
    TurnIsFirst(ds, t);
    if LatestDef(cs).Some? {
      SamePricesSameRunners(cs, ds, LatestDef(cs).value.runners);
    }
    hide Turn, LatestDef, LatestId, RunnersOf;
  }

  /** Price changes as the stream sends them: without a definition, under the market's own id or under none. */
  ghost predicate QuotesOnly(quotes: seq<Change>, id: string) {
    forall i :: 0 <= i < |quotes| ==> quotes[i].mc.def.None? && (quotes[i].mc.id == id || quotes[i].mc.id == "")
  }

  lemma {:induction false} QuotesCarryNoHeader(quotes: seq<Change>, id: string)
    requires QuotesOnly(quotes, id)
    ensures LatestDef(quotes).None? && (LatestId(quotes) == id || LatestId(quotes) == "")
  {
    if quotes != [] { QuotesCarryNoHeader(quotes[..|quotes| - 1], id); }
  }

  /** Any runner price changes inserted anywhere after the turn leave the closed market as it was. */
  lemma QuotesAfterTheTurnChangeNoClose(cs: seq<Change>, at: nat, quotes: seq<Change>)
    requires Turn(cs) < at <= |cs| && QuotesOnly(quotes, LatestId(cs))
    ensures ClosedMarket(cs[..at] + quotes + cs[at..]) == ClosedMarket(cs)
  {
    hide LatestDef, LatestId, ClosedMarket, QuotesOnly;
    var t, ds := Turn(cs), cs[..at] + quotes + cs[at..];
    assert cs == cs[..at] + cs[at..];
    QuotesKeepHeaders(cs[..at], quotes, cs[at..]);
    assert ds[..t] == cs[..t] && ds[t] == cs[t];
    LatePricesChangeNoClose(cs, ds);
  }

  lemma QuotesKeepHeaders(a: seq<Change>, quotes: seq<Change>, b: seq<Change>)
    requires QuotesOnly(quotes, LatestId(a + b))
    ensures LatestDef(a + quotes + b) == LatestDef(a + b) && LatestId(a + quotes + b) == LatestId(a + b)
  {
    QuotesCarryNoHeader(quotes, LatestId(a + b));
    hide LatestDef, LatestId, QuotesOnly;
    LatestAppend(a, b);
    LatestAppend(a + quotes, b);
    LatestAppend(a, quotes);
  }

  lemma {:induction false} SamePricesSameRunners(cs: seq<Change>, ds: seq<Change>, rds: seq<RunnerDef>)
    requires cs[..Turn(cs)] == ds[..Turn(ds)]
    ensures RunnersOf(cs, rds) == RunnersOf(ds, rds)
  {
    if rds != [] {
      SamePricesSameRunners(cs, ds, rds[..|rds| - 1]);
    }
  }

  /** The last price before the turn is the close of a runner without a starting price, even when the very
      change that turns the market in-play quotes that runner again. */
  lemma {:induction false} TurnOwnPricesAreExcluded(before: seq<Change>, turn: Change, after: seq<Change>, sid: int)
    requires forall i :: 0 <= i < |before| ==> !TurnsInPlay(before[i])
    requires TurnsInPlay(turn)
    ensures CloseOf(before + [turn] + after, sid, None) == LastSeen(before, sid)
  {
    var cs := before + [turn] + after;
    forall i | 0 <= i < |before| ensures !TurnsInPlay(cs[i]) {
      assert cs[i] == before[i];
    }
    TurnIsFirst(cs, |before|);
    assert cs[..|before|] == before;
  }

  lemma {:induction false} LastOfIsValid(rcs: seq<RunnerChange>, sid: int)
    ensures LastOf(rcs, sid).Some? ==> LastOf(rcs, sid).value > 1.0
  {
    if rcs != [] { LastOfIsValid(rcs[..|rcs| - 1], sid); }
  }

  lemma {:induction false} LastSeenIsValid(cs: seq<Change>, sid: int)
    ensures LastSeen(cs, sid).Some? ==> LastSeen(cs, sid).value > 1.0
  {
    if cs != [] {
      LastOfIsValid(cs[|cs| - 1].mc.rcs, sid);
      LastSeenIsValid(cs[..|cs| - 1], sid);
    }
  }

  lemma {:induction false} RunnersAreValid(cs: seq<Change>, rds: seq<RunnerDef>, r: Runner)
    requires r in RunnersOf(cs, rds)
    ensures exists i :: 0 <= i < |rds| && rds[i].id == Some(r.id) && r == RunnerOf(cs, rds[i])
    ensures r.close.Some? ==> r.close.value > 1.0
  {
    var n := |rds| - 1;
    if rds[n].id.Some? && r == RunnerOf(cs, rds[n]) {
      LastSeenIsValid(cs[..Turn(cs)], r.id);
    } else {
      RunnersAreValid(cs, rds[..n], r);
      var i :| 0 <= i < n && rds[..n][i].id == Some(r.id) && r == RunnerOf(cs, rds[..n][i]);
      assert rds[i] == rds[..n][i];
    }
  }

  lemma RunnerOrderIsTotal()
    ensures TotalPreorder(RunnerLe)
  {
  }

  /** The runners of a closed market come in priority order, each with a close that is a real price or none. */
  lemma ClosedRunnersAreOrdered(cs: seq<Change>)
    requires ClosedMarket(cs).Some?
    ensures var rs := ClosedMarket(cs).value.runners;
            Ordered(RunnerLe, rs) && rs != [] && forall r :: r in rs && r.close.Some? ==> r.close.value > 1.0
  {
    var rds := LatestDef(cs).value.runners;
    var all := RunnersOf(cs, rds);
    RunnerOrderIsTotal();
    SortOrdered(RunnerLe, all);
    forall r | r in Sort(RunnerLe, all) && r.close.Some? ensures r.close.value > 1.0 {
      SortMembers(RunnerLe, all, r);
      RunnersAreValid(cs, rds, r);
    }
  }

  /** Runner ids are unique in the definition. */
  ghost predicate DistinctIds(rds: seq<RunnerDef>) {
    forall i, j :: 0 <= i < |rds| && 0 <= j < |rds| && rds[i].id.Some? && rds[i].id == rds[j].id ==> rds[i] == rds[j]
  }

  lemma {:induction false} RunnersAppend(cs: seq<Change>, a: seq<RunnerDef>, b: seq<RunnerDef>)
    ensures RunnersOf(cs, a + b) == RunnersOf(cs, a) + RunnersOf(cs, b)
  {
    if b == [] {
      assert a + b == a;
    } else {
      assert (a + b)[..|a + b| - 1] == a + b[..|b| - 1];
      RunnersAppend(cs, a, b[..|b| - 1]);
    }
  }

  lemma RunnersWithout(cs: seq<Change>, a: seq<RunnerDef>, i: nat)
    requires i < |a|
    ensures multiset(RunnersOf(cs, a)) == multiset(RunnersOf(cs, a[..i] + a[i + 1..])) + multiset(RunnersOf(cs, [a[i]]))
  {
    hide RunnersOf;
    assert a == a[..i] + [a[i]] + a[i + 1..];
    RunnersAppend(cs, a[..i] + [a[i]], a[i + 1..]);
    RunnersAppend(cs, a[..i], [a[i]]);
    RunnersAppend(cs, a[..i], a[i + 1..]);
  }

  lemma {:induction false} RunnersOfPermutation(cs: seq<Change>, a: seq<RunnerDef>, b: seq<RunnerDef>)
    requires multiset(a) == multiset(b)
    ensures multiset(RunnersOf(cs, a)) == multiset(RunnersOf(cs, b))
    decreases |a|
  {
    hide RunnersOf;
    if a == [] {
      assert |b| == |multiset(b)| == 0;
    } else {
      var k, rest := TakeOut(a, b);
      RunnersOfPermutation(cs, a[1..], rest);
      RunnersWithout(cs, b, k);
      assert a[..0] + a[1..] == a[1..];
      RunnersWithout(cs, a, 0);
    }
  }

  /** The order in which the definition lists its runners does not matter. */
  lemma ListingOrderDoesNotMatter(cs: seq<Change>, a: seq<RunnerDef>, b: seq<RunnerDef>)
    requires multiset(a) == multiset(b) && DistinctIds(a)
    ensures Sort(RunnerLe, RunnersOf(cs, a)) == Sort(RunnerLe, RunnersOf(cs, b))
  {
    var rs := RunnersOf(cs, a);
    RunnersOfPermutation(cs, a, b);
    RunnerOrderIsTotal();
    forall i, j | 0 <= i < |rs| && 0 <= j < |rs| && RunnerLe(rs[i], rs[j]) && RunnerLe(rs[j], rs[i])
      ensures rs[i] == rs[j] {
      RunnersAreValid(cs, a, rs[i]);
      RunnersAreValid(cs, a, rs[j]);
    }
    SortForgetsOrder(RunnerLe, rs, RunnersOf(cs, b));
  }

  // ---- the closed market, by position ----

  /** The price change quotes the runner validly at `x`: the display ladder first, then the raw one, then the last
      trade, each only above one. */
  ghost predicate Quotes(rc: RunnerChange, sid: int, x: real) {
    && rc.id == Some(sid) && x > 1.0
    && (|| rc.bdatb == Some(x)
        || (!Above(rc.bdatb) && rc.batb == Some(x))
        || (!Above(rc.bdatb) && !Above(rc.batb) && rc.ltp == Some(x)))
  }

  ghost predicate Above(o: Option<real>) { o.Some? && o.value > 1.0 }

  /** Position (i, j) is a price change of the stream. */
  ghost predicate IsPosition(cs: seq<Change>, i: int, j: int) { 0 <= i < |cs| && 0 <= j < |cs[i].mc.rcs| }

  ghost predicate Later(i: int, j: int, i': int, j': int) { i < i' || (i == i' && j < j') }

  ghost predicate QuotedAt(cs: seq<Change>, i: int, j: int, sid: int, x: real) {
    IsPosition(cs, i, j) && Quotes(cs[i].mc.rcs[j], sid, x)
  }

  /** `x` is the last valid quote of the runner in the stream. */
  ghost predicate LastQuote(cs: seq<Change>, sid: int, x: real) {
    exists i, j :: QuotedAt(cs, i, j, sid, x)
                   && forall i', j', y :: Later(i, j, i', j') ==> !QuotedAt(cs, i', j', sid, y)
  }

  ghost predicate NeverQuoted(cs: seq<Change>, sid: int) { forall i, j, y :: !QuotedAt(cs, i, j, sid, y) }

  /** The stream up to, not including, its first in-play definition; all of it when there is none. */
  ghost predicate BeforeInPlay(cs: seq<Change>, t: nat) {
    && t <= |cs|
    && (forall i :: 0 <= i < t && cs[i].mc.def.Some? ==> !cs[i].mc.def.value.inPlay)
    && (t < |cs| ==> cs[t].mc.def.Some? && cs[t].mc.def.value.inPlay)
  }

  /** The runner a definition entry closes as: at its own starting price when that is above one, else at its last
      valid quote before the turn, else without a close. */
  ghost predicate ClosesAs(before: seq<Change>, rd: RunnerDef, r: Runner) {
    && rd.id == Some(r.id) && r.name == rd.name && r.sortPriority == rd.sortPriority && r.status == rd.status
    && (r.won == Some(true) <==> rd.status == "WINNER") && (r.won == Some(false) <==> rd.status == "LOSER")
    && (Above(rd.bsp) ==> r.bsp == rd.bsp && r.close == rd.bsp)
    && (!Above(rd.bsp) ==>
          && r.bsp.None?
          && (r.close.Some? ==> LastQuote(before, r.id, r.close.value))
          && (r.close.None? ==> NeverQuoted(before, r.id)))
  }

  ghost function HasId(): RunnerDef -> bool { (rd: RunnerDef) => rd.id.Some? }

  /** The market a stream closes as. */
  ghost predicate ClosesAsMarket(cs: seq<Change>, def: MarketDef, t: nat, m: MarketClose)
    requires t <= |cs|
  {
    var entries := Filter(HasId(), def.runners);
    && IsLastId(cs, m.marketId)
    && m.eventName == def.eventName && m.kickoff == def.marketTime
    && m.settled == def.closed && m.reconciled == def.reconciled
    && m.inPlayAt == (if t < |cs| then cs[t].pt else None)
    && (exists built: seq<Runner> ::
          && |built| == |entries| && multiset(built) == multiset(m.runners)
          && forall k :: 0 <= k < |built| ==> ClosesAs(cs[..t], entries[k], built[k]))
    && forall a, b :: 0 <= a < b < |m.runners| ==> InOrder(m.runners[a], m.runners[b])
  }

  /** By sort priority, 99 without one, and then by id. */
  ghost predicate InOrder(a: Runner, b: Runner) {
    var p, q := if a.sortPriority.Some? then a.sortPriority.value else 99,
                if b.sortPriority.Some? then b.sortPriority.value else 99;
    p < q || (p == q && a.id <= b.id)
  }

  /** The last id a change carries, or none. */
  ghost predicate IsLastId(cs: seq<Change>, id: string) {
    || (exists i :: 0 <= i < |cs| && cs[i].mc.id == id != "" && forall j :: i < j < |cs| ==> cs[j].mc.id == "")
    || (id == "" && forall j :: 0 <= j < |cs| ==> cs[j].mc.id == "")
  }

  /** The last definition the stream carries. */
  ghost predicate IsLastDef(cs: seq<Change>, def: MarketDef) {
    exists i :: 0 <= i < |cs| && cs[i].mc.def == Some(def) && forall j :: i < j < |cs| ==> cs[j].mc.def.None?
  }

  lemma BestBackMeans(rc: RunnerChange, sid: int, x: real)
    ensures Quotes(rc, sid, x) <==> rc.id == Some(sid) && BestBack(rc) == Some(x)
  {
  }

  lemma {:induction false} LastOfByPosition(rcs: seq<RunnerChange>, sid: int)
    ensures LastOf(rcs, sid).Some? ==>
              exists j :: 0 <= j < |rcs| && Quotes(rcs[j], sid, LastOf(rcs, sid).value)
                && forall k, y :: j < k < |rcs| ==> !Quotes(rcs[k], sid, y)
    ensures LastOf(rcs, sid).None? ==> forall k, y :: 0 <= k < |rcs| ==> !Quotes(rcs[k], sid, y)
  {
    hide Quotes, BestBack;
    if rcs != [] {
      var n := |rcs| - 1;
      var init, last := rcs[..n], rcs[n];
      LastOfByPosition(init, sid);
      forall y ensures Quotes(last, sid, y) <==> last.id == Some(sid) && BestBack(last) == Some(y) {
        BestBackMeans(last, sid, y);
      }
      if LastOf(rcs, sid).Some? && !(last.id == Some(sid) && BestBack(last).Some?) {
        var j :| 0 <= j < n && Quotes(init[j], sid, LastOf(init, sid).value)
          && forall k, y :: j < k < n ==> !Quotes(init[k], sid, y);
        assert Quotes(rcs[j], sid, LastOf(rcs, sid).value);
        assert forall k, y :: j < k < n ==> !Quotes(rcs[k], sid, y) by {
          assert forall k :: j < k < n ==> rcs[k] == init[k];
        }
      }
      assert forall k :: 0 <= k < n ==> rcs[k] == init[k];
    }
  }

  lemma {:induction false} LastSeenByPosition(cs: seq<Change>, sid: int)
    ensures LastSeen(cs, sid).Some? ==> LastQuote(cs, sid, LastSeen(cs, sid).value)
    ensures LastSeen(cs, sid).None? ==> NeverQuoted(cs, sid)
  {
    hide Quotes, LastOf;
    if cs != [] {
      var n := |cs| - 1;
      var init, rcs := cs[..n], cs[n].mc.rcs;
      LastSeenByPosition(init, sid);
      LastOfByPosition(rcs, sid);
      forall i, j, y ensures i < n ==> QuotedAt(cs, i, j, sid, y) == QuotedAt(init, i, j, sid, y) {
      }
      if LastOf(rcs, sid).Some? {
        var j :| 0 <= j < |rcs| && Quotes(rcs[j], sid, LastOf(rcs, sid).value)
          && forall k, y :: j < k < |rcs| ==> !Quotes(rcs[k], sid, y);
        assert QuotedAt(cs, n, j, sid, LastOf(rcs, sid).value);
        forall i', j', y | Later(n, j, i', j') ensures !QuotedAt(cs, i', j', sid, y) {
        }
      } else {
        forall j, y ensures !QuotedAt(cs, n, j, sid, y) {
        }
        if LastSeen(init, sid).Some? {
          var x := LastSeen(init, sid).value;
          var i, j :| QuotedAt(init, i, j, sid, x)
            && forall i', j', y :: Later(i, j, i', j') ==> !QuotedAt(init, i', j', sid, y);
          assert QuotedAt(cs, i, j, sid, x);
          forall i', j', y | Later(i, j, i', j') ensures !QuotedAt(cs, i', j', sid, y) {
            assert i' < n ==> QuotedAt(cs, i', j', sid, y) == QuotedAt(init, i', j', sid, y);
          }
        }
      }
    }
  }

  lemma {:induction false} LatestDefByPosition(cs: seq<Change>)
    ensures LatestDef(cs).Some? ==> IsLastDef(cs, LatestDef(cs).value)
    ensures LatestDef(cs).None? ==> forall i :: 0 <= i < |cs| ==> cs[i].mc.def.None?
  {
    if cs != [] {
      var n := |cs| - 1;
      LatestDefByPosition(cs[..n]);
      assert forall i :: 0 <= i < n ==> cs[i] == cs[..n][i];
      if LatestDef(cs).Some? && cs[n].mc.def.None? {
        var i :| 0 <= i < n && cs[..n][i].mc.def == LatestDef(cs) && forall j :: i < j < n ==> cs[..n][j].mc.def.None?;
        assert cs[i].mc.def == LatestDef(cs);
      }
    }
  }

  lemma LatestIdByPosition(cs: seq<Change>)
    ensures IsLastId(cs, LatestId(cs))
  {
    var i := LatestIdPlace(cs);
    hide LatestId;
    if i >= 0 { assert cs[i].mc.id == LatestId(cs); }
  }

  lemma {:induction false} LatestIdPlace(cs: seq<Change>) returns (i: int)
    ensures -1 <= i < |cs| && (LatestId(cs) == "" <==> i == -1) && (i >= 0 ==> cs[i].mc.id == LatestId(cs))
    ensures forall j :: i < j < |cs| ==> cs[j].mc.id == ""
  {
    i := |cs| - 1;
    if cs != [] && cs[i].mc.id == "" {
      var init := cs[..i];
      assert forall j :: 0 <= j < i ==> cs[j] == init[j];
      i := LatestIdPlace(init);
    }
  }

  lemma RunnerByPosition(cs: seq<Change>, rd: RunnerDef)
    requires rd.id.Some?
    ensures ClosesAs(cs[..Turn(cs)], rd, RunnerOf(cs, rd))
  {
    hide LastSeen, LastQuote, NeverQuoted;
    LastSeenByPosition(cs[..Turn(cs)], rd.id.value);
  }

  lemma {:induction false} RunnersByPosition(cs: seq<Change>, rds: seq<RunnerDef>)
    ensures var entries, built := Filter(HasId(), rds), RunnersOf(cs, rds);
            && |built| == |entries|
            && forall k :: 0 <= k < |built| ==> ClosesAs(cs[..Turn(cs)], entries[k], built[k])
  {
    hide ClosesAs, RunnerOf;
    if rds != [] {
      var n := |rds| - 1;
      RunnersByPosition(cs, rds[..n]);
      FilterSnoc(HasId(), rds, n);
      assert rds[..n + 1] == rds;
      if rds[n].id.Some? { RunnerByPosition(cs, rds[n]); }
    }
  }

  /** What a stream closes as, read off its positions: a market of the last definition with the last id, each of
      its runners at its starting price or else at its last valid quote before the first in-play definition; and
      none without a definition that lists an identified runner. */
  lemma ClosedMarketByPosition(cs: seq<Change>) returns (t: nat)
    ensures BeforeInPlay(cs, t)
    ensures ClosedMarket(cs).None? <==>
              forall def :: IsLastDef(cs, def) ==> forall k :: 0 <= k < |def.runners| ==> def.runners[k].id.None?
    ensures ClosedMarket(cs).Some? ==>
              exists def :: IsLastDef(cs, def) && ClosesAsMarket(cs, def, t, ClosedMarket(cs).value)
  {
    hide ClosesAs, LatestDef, LatestId, RunnersOf, IsLastId;
    t := Turn(cs);
    LatestDefByPosition(cs);
    LatestIdByPosition(cs);
    var last := LatestDef(cs);
    forall def | IsLastDef(cs, def) ensures last == Some(def) {
      OneLastDef(cs, def, last);
    }
    if last.Some? {
      var def := last.value;
      RunnersByPosition(cs, def.runners);
      NoEntries(def.runners);
      var built := RunnersOf(cs, def.runners);
      if built != [] {
        RunnerOrderIsTotal();
        SortOrdered(RunnerLe, built);
        SortElements(RunnerLe, built);
        var m := ClosedMarket(cs).value;
        forall a, b | 0 <= a < b < |m.runners| ensures InOrder(m.runners[a], m.runners[b]) {
          assert RunnerLe(m.runners[a], m.runners[b]);
        }
        assert multiset(built) == multiset(m.runners);
        assert ClosesAsMarket(cs, def, t, m);
      }
    }
  }

  lemma OneLastDef(cs: seq<Change>, def: MarketDef, last: Option<MarketDef>)
    requires IsLastDef(cs, def)
    requires last.Some? ==> IsLastDef(cs, last.value)
    requires last.None? ==> forall i :: 0 <= i < |cs| ==> cs[i].mc.def.None?
    ensures last == Some(def)
  {
  }

  lemma {:induction false} NoEntries(rds: seq<RunnerDef>)
    ensures Filter(HasId(), rds) == [] <==> forall k :: 0 <= k < |rds| ==> rds[k].id.None?
  {
    if rds != [] {
      NoEntries(rds[1..]);
      assert forall k :: 1 <= k < |rds| ==> rds[k] == rds[1..][k - 1];
    }
  }

  /** The changes of message `k` follow those of the messages before it, in their own order and under its publish
      time; a message of another kind adds none. */
  lemma {:induction false} ChangesByMessage(msgs: seq<Message>, k: nat)
    requires k < |msgs|
    ensures var at, own := |Changes(msgs[..k])|, if msgs[k].mcm then |msgs[k].mc| else 0;
            && at + own <= |Changes(msgs)| && |Changes(msgs[..k + 1])| == at + own
            && forall j :: 0 <= j < own ==> Changes(msgs)[at + j] == Change(msgs[k].pt, msgs[k].mc[j])
  {
    hide Tagged;
    var n := |msgs| - 1;
    assert msgs[..k + 1][..k] == msgs[..k];
    TaggedExactly(msgs[k]);
    if k < n {
      ChangesByMessage(msgs[..n], k);
      assert msgs[..n][..k] == msgs[..k] && msgs[..n][..k + 1] == msgs[..k + 1];
    } else {
      assert msgs[..n + 1] == msgs;
    }
  }

  lemma TaggedExactly(m: Message)
    ensures |Tagged(m)| == if m.mcm then |m.mc| else 0
    ensures m.mcm ==> forall j :: 0 <= j < |m.mc| ==> Tagged(m)[j] == Change(m.pt, m.mc[j])
  {
  }
}
