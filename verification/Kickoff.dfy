/** The event registry and its kickoff precedence (app/ingestion/base.py). Instants are microseconds. */
module Kickoff {
  import opened Prelude

  const MICROSECONDS_PER_DAY := 86400000000

  datatype EventTeams = EventTeams(
    home: string, away: string, league: string, country: string, startsAt: Option<int>,
    homeScore: Option<int>, awayScore: Option<int>, finished: Option<bool>)

  datatype Registration = Registration(event: string, teams: EventTeams)

  /** Exactly midnight: the sentinel of a source that knows the day but not the time. */
  predicate IsDateOnlyMidnight(value: Option<int>) {
    value.Some? && value.value % MICROSECONDS_PER_DAY == 0
  }

  predicate IsRealTime(value: Option<int>) { value.Some? && !IsDateOnlyMidnight(value) }

  function PreferKickoff(existing: Option<int>, incoming: Option<int>): Option<int> {
    if incoming.None? then existing
    else if existing.None? then incoming
    else if IsDateOnlyMidnight(incoming) && !IsDateOnlyMidnight(existing) then existing
    else incoming
  }

  function Merged(existing: Option<EventTeams>, incoming: EventTeams): EventTeams {
    if existing.None? then incoming
    else
      var timed := incoming.(startsAt := PreferKickoff(existing.value.startsAt, incoming.startsAt));
      if existing.value.country != "" && incoming.country == "" then timed.(country := existing.value.country)
        else timed
  }

  function Known(events: map<string, EventTeams>, id: string): Option<EventTeams> {
    if id in events then Some(events[id]) else None
  }

  class EventDirectory {
    var events: map<string, EventTeams>

    constructor ()
      ensures events == map[]
    {
      events := map[];
    }

    method Register(eventId: string, incoming: EventTeams)
      modifies this
      ensures events == old(events)[eventId := Merged(Known(old(events), eventId), incoming)]
    {
      var teams := incoming;
      if eventId in events {
        var existing := events[eventId];
        var kickoff := PreferKickoff(existing.startsAt, teams.startsAt);
        if kickoff != teams.startsAt {
          teams := teams.(startsAt := kickoff);
        }
        if existing.country != "" && teams.country == "" {
          teams := teams.(country := existing.country);
        }
      }
      events := events[eventId := teams];
    }
  }

  /** The directory after a sequence of registrations, each one a call of Register. */
  function After(events: map<string, EventTeams>, rs: seq<Registration>): map<string, EventTeams> {
    if rs == [] then events
    else
      var before := After(events, rs[..|rs| - 1]);
      var r := rs[|rs| - 1];
      before[r.event := Merged(Known(before, r.event), r.teams)]
  }

  // ---- what a run of registrations leaves behind ----

  /** The last kickoff of this event that satisfies p. */
  function LastKickoff(p: Option<int> -> bool, id: string, rs: seq<Registration>): Option<int> {
    if rs == [] then None
    else
      var r := rs[|rs| - 1];
      if r.event == id && p(r.teams.startsAt) then r.teams.startsAt else LastKickoff(p, id, rs[..|rs| - 1])
  }

  function LastCountry(id: string, rs: seq<Registration>): string {
    if rs == [] then ""
    else
      var r := rs[|rs| - 1];
      if r.event == id && r.teams.country != "" then r.teams.country else LastCountry(id, rs[..|rs| - 1])
  }

  function LastTeams(id: string, rs: seq<Registration>): Option<EventTeams> {
    if rs == [] then None
    else if rs[|rs| - 1].event == id then Some(rs[|rs| - 1].teams)
    else LastTeams(id, rs[..|rs| - 1])
  }

  /** The last real time, else the last date-only midnight, else unknown. */
  function BestKickoff(id: string, rs: seq<Registration>): Option<int> {
    var timed := LastKickoff(IsRealTime, id, rs);
    if timed.Some? then timed else LastKickoff(IsDateOnlyMidnight, id, rs)
  }

  lemma {:induction false} LastKickoffSatisfies(p: Option<int> -> bool, id: string, rs: seq<Registration>)
    requires p(None) == false
    ensures LastKickoff(p, id, rs).Some? ==> p(LastKickoff(p, id, rs))
  {
    if rs != [] { LastKickoffSatisfies(p, id, rs[..|rs| - 1]); }
  }

  /** However the registrations arrive, an event ends up with the last real kickoff anyone reported, else the
      last date-only one, and with the last country that was not empty; everything else is last-write-wins. */
  lemma {:induction false} DirectoryKeepsTheBest(id: string, rs: seq<Registration>)
    ensures var e := Known(After(map[], rs), id);
            && (e.Some? <==> LastTeams(id, rs).Some?)
            && (e.Some? ==>
                  e.value == LastTeams(id, rs).value.(startsAt := BestKickoff(id, rs), country := LastCountry(id, rs)))
            && (e.None? ==> BestKickoff(id, rs) == None && LastCountry(id, rs) == "")
  {
    if rs != [] {
      DirectoryKeepsTheBest(id, rs[..|rs| - 1]);
      LastKickoffSatisfies(IsRealTime, id, rs[..|rs| - 1]);
      LastKickoffSatisfies(IsDateOnlyMidnight, id, rs[..|rs| - 1]);
    }
  }

  function Quality(kickoff: Option<int>): nat {
    if kickoff.None? then 0 else if IsDateOnlyMidnight(kickoff) then 1 else 2
  }

  function QualityIn(events: map<string, EventTeams>, id: string): nat {
    if id in events then Quality(events[id].startsAt) else 0
  }

  /** From any directory, no sequence of registrations makes a known kickoff worse or forgets a country, and
      an event nobody registers stays as it was. */
  lemma {:induction false} QualityNeverDrops(events: map<string, EventTeams>, rs: seq<Registration>, id: string)
    ensures QualityIn(After(events, rs), id) >= QualityIn(events, id)
    ensures id in events ==>
              && id in After(events, rs)
              && (events[id].country != "" ==> After(events, rs)[id].country != "")
              && (events[id].startsAt.Some? ==> After(events, rs)[id].startsAt.Some?)
              && (events[id].startsAt.Some? && events[id].startsAt.value % 86_400_000_000 != 0 ==>
                    After(events, rs)[id].startsAt.value % 86_400_000_000 != 0)
    ensures (forall i :: 0 <= i < |rs| ==> rs[i].event != id) ==> Known(After(events, rs), id) == Known(events, id)
  {
    if rs != [] { QualityNeverDrops(events, rs[..|rs| - 1], id); }
  }

  /** The order in which loaders report does not matter to a kickoff on whose real time they agree. */
  lemma {:induction false} AgreedKickoffWins(id: string, rs: seq<Registration>, kickoff: int)
    requires IsRealTime(Some(kickoff))
    requires exists i :: 0 <= i < |rs| && rs[i].event == id && rs[i].teams.startsAt == Some(kickoff)
    requires forall i :: 0 <= i < |rs| && rs[i].event == id && IsRealTime(rs[i].teams.startsAt) ==>
             rs[i].teams.startsAt == Some(kickoff)
    ensures id in After(map[], rs) && After(map[], rs)[id].startsAt == Some(kickoff)
  {
    DirectoryKeepsTheBest(id, rs);
    OnlyRealTime(id, rs, kickoff);
  }

  lemma {:induction false} OnlyRealTime(id: string, rs: seq<Registration>, kickoff: int)
    requires IsRealTime(Some(kickoff))
    requires exists i :: 0 <= i < |rs| && rs[i].event == id && rs[i].teams.startsAt == Some(kickoff)
    requires forall i :: 0 <= i < |rs| && rs[i].event == id && IsRealTime(rs[i].teams.startsAt) ==>
             rs[i].teams.startsAt == Some(kickoff)
    ensures LastKickoff(IsRealTime, id, rs) == Some(kickoff) && LastTeams(id, rs).Some?
  {
    var n := |rs| - 1;
    var i :| 0 <= i < |rs| && rs[i].event == id && rs[i].teams.startsAt == Some(kickoff);
    if i < n {
      assert rs[..n][i] == rs[i];
      OnlyRealTime(id, rs[..n], kickoff);
    }
  }

  // ---- the directory, told over the registrations ----

  /** Registration `i` is of this event and reports a time of day. */
  ghost predicate TimedAt(rs: seq<Registration>, id: string, i: int) {
    && 0 <= i < |rs| && rs[i].event == id
    && rs[i].teams.startsAt.Some? && rs[i].teams.startsAt.value % 86_400_000_000 != 0
  }

  /** Registration `i` is of this event and reports some kickoff. */
  ghost predicate DatedAt(rs: seq<Registration>, id: string, i: int) {
    0 <= i < |rs| && rs[i].event == id && rs[i].teams.startsAt.Some?
  }

  ghost predicate LocatedAt(rs: seq<Registration>, id: string, i: int) {
    0 <= i < |rs| && rs[i].event == id && |rs[i].teams.country| > 0
  }

  ghost predicate RegisteredAt(rs: seq<Registration>, id: string, i: int) { 0 <= i < |rs| && rs[i].event == id }

  /** What the directory holds of an event: the last registration's fields, but for the kickoff of the last one that
      reports a time of day, else of the last one that reports any, and the country of the last one that has one. */
  ghost predicate Remembers(rs: seq<Registration>, id: string, e: EventTeams) {
    && (forall i :: RegisteredAt(rs, id, i) && (forall j :: j > i ==> !RegisteredAt(rs, id, j)) ==>
          e == rs[i].teams.(startsAt := e.startsAt, country := e.country))
    && (forall i :: TimedAt(rs, id, i) && (forall j :: j > i ==> !TimedAt(rs, id, j)) ==>
          e.startsAt == rs[i].teams.startsAt)
    && ((forall i :: !TimedAt(rs, id, i)) ==>
          forall i :: DatedAt(rs, id, i) && (forall j :: j > i ==> !DatedAt(rs, id, j)) ==>
            e.startsAt == rs[i].teams.startsAt)
    && ((forall i :: !DatedAt(rs, id, i)) ==> e.startsAt == None)
    && (forall i :: LocatedAt(rs, id, i) && (forall j :: j > i ==> !LocatedAt(rs, id, j)) ==>
          e.country == rs[i].teams.country)
    && ((forall i :: !LocatedAt(rs, id, i)) ==> e.country == "")
  }

  lemma {:induction false} LastTeamsAt(rs: seq<Registration>, id: string, i: int)
    ensures LastTeams(id, rs).Some? <==> exists k :: RegisteredAt(rs, id, k)
    ensures RegisteredAt(rs, id, i) && (forall j :: j > i ==> !RegisteredAt(rs, id, j)) ==>
              LastTeams(id, rs) == Some(rs[i].teams)
  {
    if rs != [] {
      var n := |rs| - 1;
      forall k ensures k < n ==> RegisteredAt(rs[..n], id, k) == RegisteredAt(rs, id, k) {
      }
      LastTeamsAt(rs[..n], id, i);
      assert rs[n].event == id <==> RegisteredAt(rs, id, n);
    }
  }

  lemma {:induction false} LastKickoffAt(rs: seq<Registration>, id: string, p: Option<int> -> bool, i: int)
    requires !p(None)
    ensures LastKickoff(p, id, rs).Some? <==> exists k :: 0 <= k < |rs| && rs[k].event == id && p(rs[k].teams.startsAt)
    ensures 0 <= i < |rs| && rs[i].event == id && p(rs[i].teams.startsAt)
            && (forall j :: i < j < |rs| && rs[j].event == id ==> !p(rs[j].teams.startsAt)) ==>
              LastKickoff(p, id, rs) == rs[i].teams.startsAt
  {
    if rs != [] {
      var n := |rs| - 1;
      assert forall k :: 0 <= k < n ==> rs[..n][k] == rs[k];
      LastKickoffAt(rs[..n], id, p, i);
    }
  }

  lemma {:induction false} LastCountryAt(rs: seq<Registration>, id: string, i: int)
    ensures LastCountry(id, rs) != "" <==> exists k :: LocatedAt(rs, id, k)
    ensures LocatedAt(rs, id, i) && (forall j :: j > i ==> !LocatedAt(rs, id, j)) ==>
              LastCountry(id, rs) == rs[i].teams.country
  {
    if rs != [] {
      var n := |rs| - 1;
      forall k ensures k < n ==> LocatedAt(rs[..n], id, k) == LocatedAt(rs, id, k) {
      }
      LastCountryAt(rs[..n], id, i);
      assert rs[n].event == id && rs[n].teams.country != "" <==> LocatedAt(rs, id, n);
    }
  }

  lemma TeamsExactly(rs: seq<Registration>, id: string)
    ensures LastTeams(id, rs).Some? <==> exists i :: RegisteredAt(rs, id, i)
    ensures forall i :: RegisteredAt(rs, id, i) && (forall j :: j > i ==> !RegisteredAt(rs, id, j)) ==>
              LastTeams(id, rs) == Some(rs[i].teams)
  {
    LastTeamsAt(rs, id, 0);
    hide LastTeams;
    forall i | RegisteredAt(rs, id, i) && (forall j :: j > i ==> !RegisteredAt(rs, id, j))
      ensures LastTeams(id, rs) == Some(rs[i].teams)
    {
      LastTeamsAt(rs, id, i);
    }
  }

  /** After any registrations, in any order. */
  lemma DirectoryExactly(rs: seq<Registration>, id: string)
    ensures var events := After(map[], rs);
            && (id in events <==> exists i :: RegisteredAt(rs, id, i))
            && (id in events ==> Remembers(rs, id, events[id]))
  {
    hide LastTeams, LastKickoff, LastCountry, BestKickoff, After, TimedAt, DatedAt, LocatedAt;
    DirectoryKeepsTheBest(id, rs);
    TeamsExactly(rs, id);
    KickoffExactly(rs, id);
    CountryExactly(rs, id);
  }

  lemma KickoffExactly(rs: seq<Registration>, id: string)
    ensures var best := BestKickoff(id, rs);
            && (forall i :: TimedAt(rs, id, i) && (forall j :: j > i ==> !TimedAt(rs, id, j)) ==>
                  best == rs[i].teams.startsAt)
            && ((forall i :: !TimedAt(rs, id, i)) ==>
                  forall i :: DatedAt(rs, id, i) && (forall j :: j > i ==> !DatedAt(rs, id, j)) ==>
                    best == rs[i].teams.startsAt)
            && ((forall i :: !DatedAt(rs, id, i)) ==> best == None)
  {
    LastKickoffAt(rs, id, IsRealTime, 0);
    LastKickoffAt(rs, id, IsDateOnlyMidnight, 0);
    hide LastKickoff;
    forall i ensures TimedAt(rs, id, i) <==> 0 <= i < |rs| && rs[i].event == id && IsRealTime(rs[i].teams.startsAt) {
    }
    forall i | TimedAt(rs, id, i) && (forall j :: j > i ==> !TimedAt(rs, id, j))
      ensures BestKickoff(id, rs) == rs[i].teams.startsAt
    {
      forall j | i < j < |rs| && rs[j].event == id ensures !IsRealTime(rs[j].teams.startsAt) {
        assert !TimedAt(rs, id, j);
      }
      LastKickoffAt(rs, id, IsRealTime, i);
    }
    if forall i :: !TimedAt(rs, id, i) {
      forall i | DatedAt(rs, id, i) && (forall j :: j > i ==> !DatedAt(rs, id, j))
        ensures BestKickoff(id, rs) == rs[i].teams.startsAt
      {
        assert !TimedAt(rs, id, i);
        forall j | i < j < |rs| && rs[j].event == id ensures !IsDateOnlyMidnight(rs[j].teams.startsAt) {
          assert !DatedAt(rs, id, j);
        }
        LastKickoffAt(rs, id, IsDateOnlyMidnight, i);
      }
    }
    if forall i :: !DatedAt(rs, id, i) {
      forall k | 0 <= k < |rs| && rs[k].event == id ensures rs[k].teams.startsAt.None? {
        assert !DatedAt(rs, id, k);
      }
    }
  }

  lemma CountryExactly(rs: seq<Registration>, id: string)
    ensures forall i :: LocatedAt(rs, id, i) && (forall j :: j > i ==> !LocatedAt(rs, id, j)) ==>
              LastCountry(id, rs) == rs[i].teams.country
    ensures (forall i :: !LocatedAt(rs, id, i)) ==> LastCountry(id, rs) == ""
  {
    LastCountryAt(rs, id, 0);
    hide LastCountry;
    forall i | LocatedAt(rs, id, i) && (forall j :: j > i ==> !LocatedAt(rs, id, j))
      ensures LastCountry(id, rs) == rs[i].teams.country
    {
      LastCountryAt(rs, id, i);
    }
  }
}
