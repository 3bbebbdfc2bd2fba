/** Fixture bookkeeping: `addFixture`, `updateFixture`, `deleteFixture`, and the
    two derived lists the views read: completed results and the next match. */
module FixtureList {
  import opened ClubData
  import opened Seqs

  /** The add-fixture form; `venue` comes from a Home/Away select. */
  datatype FixtureForm = FixtureForm(opponent: string, date: string, time: string, venue: Venue)

  /** The add-form check: opponent, date and time non-empty (the venue always has a value). */
  predicate Filled(form: FixtureForm)
  {
    form.opponent != "" && form.date != "" && form.time != ""
  }

  /** A freshly scheduled fixture: no scores, no scorers, no awards, no votes. */
  predicate IsBlankUpcoming(f: Fixture)
  {
    && f.status == Upcoming
    && f.homeScore == None && f.awayScore == None
    && f.scorers == []
    && f.coachMotm == None && f.parentMotm == None
    && f.parentVotes == map[]
  }

  /** `addFixture`: a form with an empty required field leaves the state as it
      was (the alert path); otherwise exactly one blank upcoming fixture with the
      form's details and the fresh id is appended after the existing ones. */
  function AddFixture(s: ClubState, form: FixtureForm, freshId: Id): (t: ClubState)
    requires FreshFixtureId(s, freshId)
    ensures !Filled(form) ==> t == s
    ensures Filled(form) ==>
      && t.users == s.users && t.players == s.players && t.liveMatch == s.liveMatch
      && |t.fixtures| == |s.fixtures| + 1
      && t.fixtures[..|s.fixtures|] == s.fixtures
      && var f := t.fixtures[|s.fixtures|];
         && f.id == freshId && f.opponent == form.opponent && f.date == form.date
         && f.time == form.time && f.venue == form.venue
         && IsBlankUpcoming(f)
  {
    if !Filled(form) then s
    else
      var f := Fixture(freshId, form.opponent, form.date, form.time, form.venue,
                       None, None, [], Upcoming, None, None, map[]);
      s.(fixtures := s.fixtures + [f])
  }

  /** Adding with a fresh id keeps fixture ids unique. */
  lemma AddFixtureWellFormed(s: ClubState, form: FixtureForm, freshId: Id)
    requires WellFormed(s) && FreshFixtureId(s, freshId)
    ensures WellFormed(AddFixture(s, form, freshId))
  {
    var t := AddFixture(s, form, freshId);
    if Filled(form) {
      forall i, j | 0 <= i < j < |t.fixtures| ensures t.fixtures[i].id != t.fixtures[j].id {
        assert t.fixtures[i] == s.fixtures[i];
        if j == |s.fixtures| {
          assert s.fixtures[i] in s.fixtures;
        } else {
          assert t.fixtures[j] == s.fixtures[j];
        }
      }
    }
  }

  /** The fields an edit may carry (every field but the id); an absent field is
      not part of the update. */
  datatype FixturePatch = FixturePatch(
    opponent: Option<string>,
    date: Option<string>,
    time: Option<string>,
    venue: Option<Venue>,
    homeScore: Option<Option<int>>,
    awayScore: Option<Option<int>>,
    scorers: Option<seq<Id>>,
    status: Option<Status>,
    coachMotm: Option<Option<Id>>,
    parentMotm: Option<Option<Id>>,
    parentVotes: Option<map<Id, Id>>)

  /** `{ ...f, ...updates }`. */
  function Merge(f: Fixture, u: FixturePatch): (r: Fixture)
    ensures r.id == f.id
    ensures u == FixturePatch(None, None, None, None, None, None, None, None, None, None, None) ==> r == f
    ensures u.opponent.Some? ==> r.opponent == u.opponent.value
    ensures u.date.Some? ==> r.date == u.date.value
    ensures u.time.Some? ==> r.time == u.time.value
    ensures u.venue.Some? ==> r.venue == u.venue.value
    ensures u.homeScore.Some? ==> r.homeScore == u.homeScore.value
    ensures u.awayScore.Some? ==> r.awayScore == u.awayScore.value
    ensures u.scorers.Some? ==> r.scorers == u.scorers.value
    ensures u.status.Some? ==> r.status == u.status.value
    ensures u.coachMotm.Some? ==> r.coachMotm == u.coachMotm.value
    ensures u.parentMotm.Some? ==> r.parentMotm == u.parentMotm.value
    ensures u.parentVotes.Some? ==> r.parentVotes == u.parentVotes.value
  {
    Fixture(f.id, Pick(u.opponent, f.opponent), Pick(u.date, f.date), Pick(u.time, f.time),
            Pick(u.venue, f.venue), Pick(u.homeScore, f.homeScore), Pick(u.awayScore, f.awayScore),
            Pick(u.scorers, f.scorers), Pick(u.status, f.status), Pick(u.coachMotm, f.coachMotm),
            Pick(u.parentMotm, f.parentMotm), Pick(u.parentVotes, f.parentVotes))
  }

  /** `updateFixture`: every fixture whose id matches gets the patch merged in and
      keeps its id; every other fixture, the order and the other parts stay. */
  function UpdateFixture(s: ClubState, id: Id, u: FixturePatch): (t: ClubState)
    ensures t.users == s.users && t.players == s.players && t.liveMatch == s.liveMatch
    ensures |t.fixtures| == |s.fixtures|
    ensures forall i :: 0 <= i < |s.fixtures| && s.fixtures[i].id != id ==> t.fixtures[i] == s.fixtures[i]
    ensures forall i :: 0 <= i < |s.fixtures| && s.fixtures[i].id == id ==>
      && t.fixtures[i].id == id
      && t.fixtures[i].status == Pick(u.status, s.fixtures[i].status)
      && t.fixtures[i].scorers == Pick(u.scorers, s.fixtures[i].scorers)
      && t.fixtures[i].coachMotm == Pick(u.coachMotm, s.fixtures[i].coachMotm)
      && t.fixtures[i].parentVotes == Pick(u.parentVotes, s.fixtures[i].parentVotes)
      && t.fixtures[i] == Merge(s.fixtures[i], u)
  {
    s.(fixtures := seq(|s.fixtures|, i requires 0 <= i < |s.fixtures| =>
                         if s.fixtures[i].id == id then Merge(s.fixtures[i], u) else s.fixtures[i]))
  }

  /** An id no fixture has leaves the whole state unchanged. */
  lemma UpdateUnknownFixture(s: ClubState, id: Id, u: FixturePatch)
    requires forall f :: f in s.fixtures ==> f.id != id
    ensures UpdateFixture(s, id, u) == s
  {
    var t := UpdateFixture(s, id, u);
    assert forall i :: 0 <= i < |s.fixtures| ==> s.fixtures[i] in s.fixtures;
    assert t.fixtures == s.fixtures;
  }

  /** The `filter` callback of `deleteFixture`. */
  function OtherThan(id: Id): Fixture -> bool
  {
    (f: Fixture) => f.id != id
  }

  /** `deleteFixture` (once confirmed): the fixtures with a different id, in their
      order; the live slot is left as it is even when it holds that fixture. */
  function DeleteFixture(s: ClubState, id: Id): (t: ClubState)
    ensures t.users == s.users && t.players == s.players && t.liveMatch == s.liveMatch
    ensures forall f :: f in t.fixtures <==> f in s.fixtures && f.id != id
    ensures forall f :: multiset(t.fixtures)[f] == if f.id == id then 0 else multiset(s.fixtures)[f]
    ensures (forall f :: f in s.fixtures ==> f.id != id) ==> t == s
  {
    FilterElements(s.fixtures, OtherThan(id));
    if forall f :: f in s.fixtures ==> f.id != id then
      FilterKeepsAll(s.fixtures, OtherThan(id));
      s.(fixtures := Filter(s.fixtures, OtherThan(id)))
    else s.(fixtures := Filter(s.fixtures, OtherThan(id)))
  }

  /** Deleting keeps the order of the remaining fixtures. */
  lemma DeleteFixtureKeepsOrder(s: ClubState, id: Id, before: seq<Fixture>, after: seq<Fixture>)
    requires s.fixtures == before + after
    ensures DeleteFixture(s, id).fixtures
         == DeleteFixture(s.(fixtures := before), id).fixtures + DeleteFixture(s.(fixtures := after), id).fixtures
  {
    FilterConcat(before, after, OtherThan(id));
  }

  /** Deleting keeps fixture ids unique. */
  lemma DeleteFixtureWellFormed(s: ClubState, id: Id)
    requires WellFormed(s)
    ensures WellFormed(DeleteFixture(s, id))
  {
    FilterUniqueKeys(s.fixtures, OtherThan(id), (f: Fixture) => f.id);
  }

  function IsCompleted(f: Fixture): bool { f.status == Completed }

  function IsUpcoming(f: Fixture): bool { f.status == Upcoming }

  /** `completedFixtures`: the completed fixtures, each as many times as it
      occurs, and none other. */
  function CompletedFixtures(fs: seq<Fixture>): (r: seq<Fixture>)
    ensures forall f :: f in r <==> f in fs && f.status == Completed
    ensures forall f :: multiset(r)[f] == if f.status == Completed then multiset(fs)[f] else 0
  {
    var kept := Filter(fs, IsCompleted);
    FilterElements(fs, IsCompleted);
    ReverseSameElements(kept);
    Reverse(kept)
  }

  /** ... listed most recent first: a fixture completed after all others heads the list. */
  lemma {:induction false} CompletedFixturesNewestFirst(fs: seq<Fixture>, f: Fixture)
    requires f.status == Completed
    ensures CompletedFixtures(fs + [f]) == [f] + CompletedFixtures(fs)
  {
    FilterConcat(fs, [f], IsCompleted);
    assert Filter([f], IsCompleted) == [f];
    var a := Filter(fs, IsCompleted);
    assert Filter(fs + [f], IsCompleted) == a + [f];
    ReverseAppend(a, f);
  }

  /** Upcoming fixtures never appear among the results. */
  lemma CompletedIgnoresUpcoming(fs: seq<Fixture>, f: Fixture)
    requires f.status == Upcoming
    ensures CompletedFixtures(fs + [f]) == CompletedFixtures(fs)
  {
    FilterConcat(fs, [f], IsCompleted);
    assert Filter([f], IsCompleted) == [];
    assert Filter(fs, IsCompleted) + [] == Filter(fs, IsCompleted);
  }

  /** "Next match": the first upcoming fixture in list order, if there is one. */
  function NextMatch(fs: seq<Fixture>): (r: Option<Fixture>)
    ensures r.None? <==> forall f :: f in fs ==> f.status != Upcoming
    ensures r.Some? ==> exists k :: 0 <= k < |fs| && fs[k] == r.value && fs[k].status == Upcoming
                          && forall j :: 0 <= j < k ==> fs[j].status != Upcoming
  {
    var upcoming := Filter(fs, IsUpcoming);
    FilterHeadIsFind(fs, IsUpcoming);
    if upcoming != [] then Some(upcoming[0]) else None
  }
}
