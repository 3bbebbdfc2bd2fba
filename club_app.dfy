/** The app's state slots (`data` and `currentUser`) and the handlers that
    replace them. Every handler other than voting is a pure transition of the
    club state, collected here as a command reducer. */
module ClubApp {
  import opened ClubData
  import Session
  import Roster
  import FixtureList
  import LiveMatch
  import MotmVoting

  datatype Command =
    | AddPlayer(playerForm: Roster.PlayerForm, newPlayerId: Id)
    | UpdatePlayer(playerId: Id, playerPatch: Roster.PlayerPatch)
    | DeletePlayer(playerId: Id)
    | AddFixture(fixtureForm: FixtureList.FixtureForm, newFixtureId: Id)
    | UpdateFixture(fixtureId: Id, fixturePatch: FixtureList.FixturePatch)
    | DeleteFixture(fixtureId: Id)
    | StartLiveMatch(fixtureId: Id)
    | UpdateLiveScore(side: LiveMatch.Side, value: int)
    | AddScorer(playerId: Id)
    | EndLiveMatch
    | Logout

  /** What each handler needs of the state: a clock-fresh id for the two adds,
      an existing fixture to go live on, and an occupied live slot for the three
      live operations (the handlers dereference it). */
  predicate Admissible(s: ClubState, c: Command)
  {
    match c
    case AddPlayer(_, id) => FreshPlayerId(s, id)
    case AddFixture(_, id) => FreshFixtureId(s, id)
    case StartLiveMatch(id) => exists f :: f in s.fixtures && f.id == id
    case UpdateLiveScore(_, _) => s.liveMatch.Some?
    case AddScorer(_) => s.liveMatch.Some?
    case EndLiveMatch => s.liveMatch.Some?
    case _ => true
  }

  /** The new club state a handler passes to `setData`. No handler touches the
      user accounts, and only the roster handlers touch the roster. */
  function Apply(s: ClubState, c: Command): (t: ClubState)
    requires Admissible(s, c)
    ensures t.users == s.users
    ensures !(c.AddPlayer? || c.UpdatePlayer? || c.DeletePlayer?) ==> t.players == s.players
  {
    match c
    case AddPlayer(form, id) => Roster.AddPlayer(s, form, id)
    case UpdatePlayer(id, u) => Roster.UpdatePlayer(s, id, u)
    case DeletePlayer(id) => Roster.DeletePlayer(s, id)
    case AddFixture(form, id) => FixtureList.AddFixture(s, form, id)
    case UpdateFixture(id, u) => FixtureList.UpdateFixture(s, id, u)
    case DeleteFixture(id) => FixtureList.DeleteFixture(s, id)
    case StartLiveMatch(id) => LiveMatch.StartLiveMatch(s, id)
    case UpdateLiveScore(side, v) => LiveMatch.UpdateLiveScore(s, side, v)
    case AddScorer(id) => LiveMatch.AddScorer(s, id)
    case EndLiveMatch => LiveMatch.EndLiveMatch(s)
    case Logout => Session.Logout(s)
  }

  /** The ids marked completed: of completed fixtures, and of the live copy when
      its status is completed. The live copy counts because a score or scorer
      write copies its status back over the fixture with its id. */
  ghost function CompletedIds(s: ClubState): set<Id>
  {
    (set f | f in s.fixtures && f.status == Completed :: f.id)
    + (if s.liveMatch.Some? && s.liveMatch.value.status == Completed then {s.liveMatch.value.id} else {})
  }

  lemma AddFixtureCompletes(s: ClubState, form: FixtureList.FixtureForm, id: Id)
    requires FreshFixtureId(s, id)
    ensures CompletedIds(FixtureList.AddFixture(s, form, id)) <= CompletedIds(s)
  {
    var t := FixtureList.AddFixture(s, form, id);
    forall f | f in t.fixtures && f.status == Completed ensures f.id in CompletedIds(s) {
      var i :| 0 <= i < |t.fixtures| && t.fixtures[i] == f;
      if !(FixtureList.Filled(form) && i == |s.fixtures|) {
        assert s.fixtures[i] == f;
      }
    }
  }

  lemma UpdateFixtureCompletes(s: ClubState, id: Id, u: FixtureList.FixturePatch)
    requires u.status != Some(Completed)
    ensures CompletedIds(FixtureList.UpdateFixture(s, id, u)) <= CompletedIds(s)
  {
    var t := FixtureList.UpdateFixture(s, id, u);
    forall f | f in t.fixtures && f.status == Completed ensures f.id in CompletedIds(s) {
      var i :| 0 <= i < |t.fixtures| && t.fixtures[i] == f;
      assert s.fixtures[i] in s.fixtures;
    }
  }

  lemma StartLiveMatchCompletes(s: ClubState, id: Id)
    requires exists f :: f in s.fixtures && f.id == id
    ensures CompletedIds(LiveMatch.StartLiveMatch(s, id)) <= CompletedIds(s)
  {
    var t := LiveMatch.StartLiveMatch(s, id);
    if t.liveMatch.value.status == Completed {
      var k :| 0 <= k < |s.fixtures| && s.fixtures[k].id == id
               && t.liveMatch.value == s.fixtures[k].(homeScore := t.liveMatch.value.homeScore,
                                                      awayScore := t.liveMatch.value.awayScore);
      assert s.fixtures[k] in s.fixtures;
    }
  }

  /** A score or scorer write: the live copy keeps its id and status and is written
      over every fixture with its id. */
  lemma LiveWriteCompletes(s: ClubState, t: ClubState)
    requires s.liveMatch.Some? && t.liveMatch.Some?
    requires t.liveMatch.value.id == s.liveMatch.value.id && t.liveMatch.value.status == s.liveMatch.value.status
    requires |t.fixtures| == |s.fixtures|
    requires forall i :: 0 <= i < |s.fixtures| ==>
      t.fixtures[i] == if s.fixtures[i].id == s.liveMatch.value.id then t.liveMatch.value else s.fixtures[i]
    ensures CompletedIds(t) <= CompletedIds(s)
  {
    forall f | f in t.fixtures && f.status == Completed ensures f.id in CompletedIds(s) {
      var i :| 0 <= i < |t.fixtures| && t.fixtures[i] == f;
      assert s.fixtures[i] in s.fixtures;
    }
  }

  /** Every handler but `endLiveMatch` (and an explicit completed status edit
      through `updateFixture`) adds no id to `CompletedIds`, which also counts
      the live copy's id. */
  lemma OnlyEndCompletes(s: ClubState, c: Command)
    requires Admissible(s, c)
    requires !c.EndLiveMatch?
    requires !(c.UpdateFixture? && c.fixturePatch.status == Some(Completed))
    ensures CompletedIds(Apply(s, c)) <= CompletedIds(s)
  {
    match c {
      case AddFixture(form, id) => AddFixtureCompletes(s, form, id);
      case UpdateFixture(id, u) => UpdateFixtureCompletes(s, id, u);
      case StartLiveMatch(id) => StartLiveMatchCompletes(s, id);
      case UpdateLiveScore(side, v) => LiveWriteCompletes(s, Apply(s, c));
      case AddScorer(id) => LiveWriteCompletes(s, Apply(s, c));
      case DeleteFixture(id) =>
        var t := Apply(s, c);
        assert forall f :: f in t.fixtures ==> f in s.fixtures;
      case _ =>
    }
  }

  /** `endLiveMatch` does mark the live fixture completed, and nothing besides it. */
  lemma EndCompletesLive(s: ClubState)
    requires s.liveMatch.Some?
    ensures var t := LiveMatch.EndLiveMatch(s);
            && (forall f :: f in t.fixtures && f.id == s.liveMatch.value.id ==> f.status == Completed)
            && CompletedIds(t) <= CompletedIds(s) + {s.liveMatch.value.id}
  {
    var t := LiveMatch.EndLiveMatch(s);
    forall f | f in t.fixtures && f.status == Completed ensures f.id in CompletedIds(s) + {s.liveMatch.value.id} {
      var i :| 0 <= i < |t.fixtures| && t.fixtures[i] == f;
      assert s.fixtures[i] in s.fixtures;
    }
  }

  /** A state whose records keep their ids position by position keeps them unique. */
  lemma SameIdsWellFormed(s: ClubState, t: ClubState)
    requires WellFormed(s)
    requires |t.players| == |s.players| && forall i :: 0 <= i < |s.players| ==> t.players[i].id == s.players[i].id
    requires |t.fixtures| == |s.fixtures| && forall i :: 0 <= i < |s.fixtures| ==> t.fixtures[i].id == s.fixtures[i].id
    ensures WellFormed(t)
  {
  }

  /** A state whose fixtures keep their ids and statuses position by position, and
      whose live slot is unchanged, marks the same ids completed. */
  lemma SameStatusesCompleted(s: ClubState, t: ClubState)
    requires t.liveMatch == s.liveMatch
    requires |t.fixtures| == |s.fixtures|
    requires forall i :: 0 <= i < |s.fixtures| ==>
      t.fixtures[i].id == s.fixtures[i].id && t.fixtures[i].status == s.fixtures[i].status
    ensures CompletedIds(t) == CompletedIds(s)
  {
    forall f | f in t.fixtures && f.status == Completed ensures f.id in CompletedIds(s) {
      var i :| 0 <= i < |t.fixtures| && t.fixtures[i] == f;
      assert s.fixtures[i] in s.fixtures;
    }
    forall f | f in s.fixtures && f.status == Completed ensures f.id in CompletedIds(t) {
      var i :| 0 <= i < |s.fixtures| && s.fixtures[i] == f;
      assert t.fixtures[i] in t.fixtures;
    }
  }

  /** Every handler keeps player ids and fixture ids unique. */
  lemma ApplyWellFormed(s: ClubState, c: Command)
    requires WellFormed(s) && Admissible(s, c)
    ensures WellFormed(Apply(s, c))
  {
    match c {
      case AddPlayer(form, id) => Roster.AddPlayerWellFormed(s, form, id);
      case DeletePlayer(id) => Roster.DeletePlayerWellFormed(s, id);
      case AddFixture(form, id) => FixtureList.AddFixtureWellFormed(s, form, id);
      case DeleteFixture(id) => FixtureList.DeleteFixtureWellFormed(s, id);
      case _ => SameIdsWellFormed(s, Apply(s, c));
    }
  }

  /** The component's two state slots. */
  class App {
    var data: ClubState
    var currentUser: Option<User>

    /** Nothing stored yet: the seed state, nobody logged in. */
    constructor ()
      ensures data == Seed && currentUser == None
      ensures WellFormed(data)
    {
      data := Seed;
      currentUser := None;
    }

    /** `login`: matching credentials make that user current; otherwise nothing changes. */
    method Login(username: string, password: string) returns (ok: bool)
      modifies this
      ensures data == old(data)
      ensures ok <==> Session.Login(data.users, username, password).Some?
      ensures ok ==> currentUser == Session.Login(data.users, username, password)
      ensures !ok ==> currentUser == old(currentUser)
    {
      var user := Session.Login(data.users, username, password);
      ok := user.Some?;
      if ok {
        currentUser := user;
      }
    }

    /** `logout`: nobody is current and the live slot is emptied. */
    method Logout()
      modifies this
      ensures currentUser == None
      ensures data == Session.Logout(old(data))
    {
      currentUser := None;
      data := Session.Logout(data);
    }

    /** Any handler but voting and `logout` (whose `setData` half is `Apply` of
        `Logout`, and whose whole effect is `Logout` above); the current user is
        neither consulted nor changed. */
    method Dispatch(c: Command)
      requires Admissible(data, c)
      requires !c.Logout?
      modifies this
      ensures data == Apply(old(data), c)
      ensures currentUser == old(currentUser)
      ensures WellFormed(old(data)) ==> WellFormed(data)
    {
      if WellFormed(data) {
        ApplyWellFormed(data, c);
      }
      data := Apply(data, c);
    }

    /** `voteMotm`, cast as the current user (the handler dereferences it). */
    method Vote(fixtureId: Id, playerId: Id)
      requires currentUser.Some?
      modifies this
      ensures currentUser == old(currentUser)
      ensures data.users == old(data.users) && data.players == old(data.players)
      ensures data.liveMatch == old(data.liveMatch)
      ensures |data.fixtures| == |old(data.fixtures)|
      ensures forall i :: 0 <= i < |data.fixtures| ==>
        if old(data.fixtures[i]).id == fixtureId
        then MotmVoting.VoteEffect(old(data.fixtures[i]), currentUser.value, playerId, data.fixtures[i])
        else data.fixtures[i] == old(data.fixtures[i])
      ensures CompletedIds(data) == CompletedIds(old(data))
      ensures WellFormed(old(data)) ==> WellFormed(data)
    {
      var before := data;
      data := MotmVoting.VoteMotm(data, currentUser.value, fixtureId, playerId);
      forall i | 0 <= i < |data.fixtures| ensures data.fixtures[i].id == before.fixtures[i].id
                                            && data.fixtures[i].status == before.fixtures[i].status {
        if before.fixtures[i].id == fixtureId {
          MotmVoting.VoteKeepsMatchRecord(before.fixtures[i], currentUser.value, playerId, data.fixtures[i]);
        }
      }
      SameStatusesCompleted(before, data);
      if WellFormed(before) {
        SameIdsWellFormed(before, data);
      }
    }
  }
}
