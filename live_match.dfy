/** The live-match controller: `startLiveMatch`, `updateLiveScore`, `addScorer`,
    `endLiveMatch`. "Live" is structural: the `liveMatch` slot holds a working
    copy of one fixture; the copy's status is never set to a "live" value. */
module LiveMatch {
  import opened ClubData
  import opened Seqs

  /** `score || 0`: an unset score reads as nought. */
  function OrZero(score: Option<int>): (n: int)
    ensures score.Some? ==> n == score.value
    ensures score.None? ==> n == 0
  {
    if score.Some? then score.value else 0
  }

  /** The `find` callback of `startLiveMatch`. */
  function HasId(id: Id): Fixture -> bool
  {
    (f: Fixture) => f.id == id
  }

  /** `startLiveMatch`: the fixture list is untouched and the live slot holds a
      copy of the first fixture with that id, its scores set to the stored ones or
      to 0 where unset. Neither an occupied slot nor the fixture's status is
      checked by the handler. A missing fixture is excluded: the handler would
      dereference `undefined`. */
  function StartLiveMatch(s: ClubState, fixtureId: Id): (t: ClubState)
    requires exists f :: f in s.fixtures && f.id == fixtureId
    ensures t.users == s.users && t.players == s.players && t.fixtures == s.fixtures
    ensures t.liveMatch.Some? && t.liveMatch.value.id == fixtureId
    ensures exists k :: 0 <= k < |s.fixtures| && s.fixtures[k].id == fixtureId
              && (forall j :: 0 <= j < k ==> s.fixtures[j].id != fixtureId)
              && t.liveMatch.value == s.fixtures[k].(homeScore := Some(OrZero(s.fixtures[k].homeScore)),
                                                    awayScore := Some(OrZero(s.fixtures[k].awayScore)))
  {
    var k := FindIndex(s.fixtures, HasId(fixtureId));
    var f := s.fixtures[k];
    s.(liveMatch := Some(f.(homeScore := Some(OrZero(f.homeScore)), awayScore := Some(OrZero(f.awayScore)))))
  }

  /** `fixtures.map(f => f.id === id ? g : f)`: the write-back every live operation does. */
  function WriteBack(fs: seq<Fixture>, id: Id, g: Fixture): (r: seq<Fixture>)
    ensures |r| == |fs|
    ensures forall i :: 0 <= i < |fs| ==> r[i] == if fs[i].id == id then g else fs[i]
    ensures g.id == id ==> forall i :: 0 <= i < |r| ==> r[i].id == fs[i].id
  {
    seq(|fs|, i requires 0 <= i < |fs| => if fs[i].id == id then g else fs[i])
  }

  /** Every fixture with the live copy's id equals the live copy. */
  ghost predicate InSync(s: ClubState)
  {
    s.liveMatch.Some? ==>
      forall f :: f in s.fixtures && f.id == s.liveMatch.value.id ==> f == s.liveMatch.value
  }

  datatype Side = HomeSide | AwaySide

  /** `updateLiveScore`: the live copy takes the new score on that side, and
      every fixture with its id is replaced by the new copy; other fixtures stay.
      The value is not bounded. An empty slot is excluded: the handler would read
      `prev.liveMatch.id` of null. */
  function UpdateLiveScore(s: ClubState, side: Side, value: int): (t: ClubState)
    requires s.liveMatch.Some?
    ensures t.users == s.users && t.players == s.players
    ensures t.liveMatch.Some?
    ensures t.liveMatch.value == match side
      case HomeSide => s.liveMatch.value.(homeScore := Some(value))
      case AwaySide => s.liveMatch.value.(awayScore := Some(value))
    ensures |t.fixtures| == |s.fixtures|
    ensures forall i :: 0 <= i < |s.fixtures| ==>
      t.fixtures[i] == if s.fixtures[i].id == s.liveMatch.value.id then t.liveMatch.value else s.fixtures[i]
  {
    var live := s.liveMatch.value;
    var updated := match side
      case HomeSide => live.(homeScore := Some(value))
      case AwaySide => live.(awayScore := Some(value));
    s.(liveMatch := Some(updated), fixtures := WriteBack(s.fixtures, live.id, updated))
  }

  /** `addScorer`: the live copy's scorer list grows by the one player id at its
      end (a repeat is a second goal), and every fixture with its id is replaced by
      the new copy; other fixtures stay. */
  function AddScorer(s: ClubState, playerId: Id): (t: ClubState)
    requires s.liveMatch.Some?
    ensures t.users == s.users && t.players == s.players
    ensures t.liveMatch.Some?
    ensures |t.liveMatch.value.scorers| == |s.liveMatch.value.scorers| + 1
    ensures t.liveMatch.value.scorers[..|s.liveMatch.value.scorers|] == s.liveMatch.value.scorers
    ensures t.liveMatch.value.scorers[|s.liveMatch.value.scorers|] == playerId
    ensures t.liveMatch.value == s.liveMatch.value.(scorers := t.liveMatch.value.scorers)
    ensures |t.fixtures| == |s.fixtures|
    ensures forall i :: 0 <= i < |s.fixtures| ==>
      t.fixtures[i] == if s.fixtures[i].id == s.liveMatch.value.id then t.liveMatch.value else s.fixtures[i]
  {
    var live := s.liveMatch.value;
    var updated := live.(scorers := live.scorers + [playerId]);
    s.(liveMatch := Some(updated), fixtures := WriteBack(s.fixtures, live.id, updated))
  }

  /** After a score or scorer write the fixture list agrees with the live copy,
      whatever it held before. */
  lemma LiveWritesSync(s: ClubState, side: Side, value: int, playerId: Id)
    requires s.liveMatch.Some?
    ensures InSync(UpdateLiveScore(s, side, value))
    ensures InSync(AddScorer(s, playerId))
  {
    var t1, t2 := UpdateLiveScore(s, side, value), AddScorer(s, playerId);
    forall f | f in t1.fixtures && f.id == t1.liveMatch.value.id ensures f == t1.liveMatch.value {
      var i :| 0 <= i < |t1.fixtures| && t1.fixtures[i] == f;
    }
    forall f | f in t2.fixtures && f.id == t2.liveMatch.value.id ensures f == t2.liveMatch.value {
      var i :| 0 <= i < |t2.fixtures| && t2.fixtures[i] == f;
    }
  }

  /** `endLiveMatch`: every fixture with the live copy's id is replaced by the
      copy marked completed, other fixtures stay, and the slot is emptied. */
  function EndLiveMatch(s: ClubState): (t: ClubState)
    requires s.liveMatch.Some?
    ensures t.users == s.users && t.players == s.players
    ensures t.liveMatch == None
    ensures |t.fixtures| == |s.fixtures|
    ensures forall i :: 0 <= i < |s.fixtures| ==>
      t.fixtures[i] == if s.fixtures[i].id == s.liveMatch.value.id
                       then s.liveMatch.value.(status := Completed) else s.fixtures[i]
  {
    var live := s.liveMatch.value;
    s.(fixtures := WriteBack(s.fixtures, live.id, live.(status := Completed)), liveMatch := None)
  }

  /** A whole match on a well-formed state: going live on a fixture, recording
      a goal and ending the match leaves that fixture completed, with the scores
      defaulted, the scorer appended and the slot empty; every other fixture is
      as it was. */
  lemma {:induction false} MatchLifecycle(s: ClubState, k: nat, playerId: Id)
    requires WellFormed(s) && k < |s.fixtures|
    ensures var f := s.fixtures[k];
            var t := EndLiveMatch(AddScorer(StartLiveMatch(s, f.id), playerId));
            && t.liveMatch == None
            && |t.fixtures| == |s.fixtures|
            && t.fixtures[k] == f.(homeScore := Some(OrZero(f.homeScore)), awayScore := Some(OrZero(f.awayScore)),
                                   scorers := f.scorers + [playerId], status := Completed)
            && forall i :: 0 <= i < |s.fixtures| && i != k ==> t.fixtures[i] == s.fixtures[i]
  {
    var f := s.fixtures[k];
    assert f in s.fixtures;
    var s1 := StartLiveMatch(s, f.id);
    var j :| 0 <= j < |s.fixtures| && s.fixtures[j].id == f.id
              && (forall i :: 0 <= i < j ==> s.fixtures[i].id != f.id)
              && s1.liveMatch.value == s.fixtures[j].(homeScore := Some(OrZero(s.fixtures[j].homeScore)),
                                                      awayScore := Some(OrZero(s.fixtures[j].awayScore)));
    assert j == k;
    var s2 := AddScorer(s1, playerId);
    var t := EndLiveMatch(s2);
    assert s2.liveMatch.value.scorers == f.scorers + [playerId];
    forall i | 0 <= i < |s.fixtures| && i != k ensures t.fixtures[i] == s.fixtures[i] {
      assert s.fixtures[i].id != f.id;
    }
  }
}
