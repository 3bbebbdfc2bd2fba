/** Man-of-the-match voting (`voteMotm`): a coach's vote overwrites the coach
    award; a parent's vote is upserted into the fixture's vote map, which is then
    tallied, and the parents' award goes to a player with the most votes. */
module MotmVoting {
  import opened ClubData

  /** The parents who voted for `pid`. */
  function VotersFor(votes: map<Id, Id>, pid: Id): set<Id>
  {
    set u | u in votes && votes[u] == pid
  }

  /** How many parents voted for `pid`. */
  function Count(votes: map<Id, Id>, pid: Id): nat
  {
    |VotersFor(votes, pid)|
  }

  /** How many of the parents in `voters` voted for `pid`. */
  function CountAmong(votes: map<Id, Id>, voters: set<Id>, pid: Id): nat
  {
    |voters * VotersFor(votes, pid)|
  }

  /** `pid` has at least one vote and no player has more. */
  ghost predicate TopVoted(votes: map<Id, Id>, pid: Id)
  {
    Count(votes, pid) > 0 && forall q :: Count(votes, q) <= Count(votes, pid)
  }

  /** Counting one more voter adds one exactly when that voter chose `pid`. */
  lemma CountAmongAdd(votes: map<Id, Id>, voters: set<Id>, u: Id, pid: Id)
    requires u in votes && u !in voters
    ensures CountAmong(votes, voters + {u}, pid)
         == CountAmong(votes, voters, pid) + (if votes[u] == pid then 1 else 0)
  {
    var x := VotersFor(votes, pid);
    if votes[u] == pid {
      assert (voters + {u}) * x == voters * x + {u};
    } else {
      assert (voters + {u}) * x == voters * x;
    }
  }

  /** Counting all voters is counting the votes. */
  lemma CountAmongAll(votes: map<Id, Id>, pid: Id)
    ensures CountAmong(votes, votes.Keys, pid) == Count(votes, pid)
  {
    assert votes.Keys * VotersFor(votes, pid) == VotersFor(votes, pid);
  }

  /** A player nobody voted for has no votes. */
  lemma NoVoteNoCount(votes: map<Id, Id>, pid: Id)
    requires forall u :: u in votes ==> votes[u] != pid
    ensures Count(votes, pid) == 0
  {
    assert VotersFor(votes, pid) == {};
  }

  /** The parent's own entry gives the player they voted for at least one vote. */
  lemma VotedHasCount(votes: map<Id, Id>, u: Id)
    requires u in votes
    ensures Count(votes, votes[u]) > 0
  {
    assert u in VotersFor(votes, votes[u]);
  }

  /** `count[pid] = (count[pid] || 0) + 1`, the counting step of both the vote
      tally and the leaderboard. */
  function Increment(count: map<Id, nat>, pid: Id): (r: map<Id, nat>)
    ensures r.Keys == count.Keys + {pid}
    ensures r[pid] == (if pid in count then count[pid] else 0) + 1
    ensures forall q :: q in count && q != pid ==> r[q] == count[q]
  {
    count[pid := (if pid in count then count[pid] else 0) + 1]
  }

  /** `tally` holds, for the votes of the parents in `done`, one entry per
      voted-for player with its number of votes. */
  ghost predicate TallyOf(votes: map<Id, Id>, done: set<Id>, tally: map<Id, nat>)
  {
    forall pid :: (pid in tally <==> CountAmong(votes, done, pid) > 0)
               && (pid in tally ==> tally[pid] == CountAmong(votes, done, pid))
  }

  /** Before any parent is counted the tally is empty. */
  lemma TallyEmpty(votes: map<Id, Id>)
    ensures TallyOf(votes, {}, map[])
  {
    forall pid ensures CountAmong(votes, {}, pid) == 0 {
      assert {} * VotersFor(votes, pid) == {};
    }
  }

  /** Counting one more parent's vote extends the tally to that parent. */
  lemma TallyStep(votes: map<Id, Id>, done: set<Id>, tally: map<Id, nat>, u: Id)
    requires TallyOf(votes, done, tally) && u in votes && u !in done
    ensures TallyOf(votes, done + {u}, Increment(tally, votes[u]))
  {
    forall q ensures var t := Increment(tally, votes[u]);
                     (q in t <==> CountAmong(votes, done + {u}, q) > 0)
                     && (q in t ==> t[q] == CountAmong(votes, done + {u}, q))
    {
      CountAmongAdd(votes, done, u, q);
    }
  }

  /** The `forEach` tally of lines 203-206: one entry per voted-for player,
      holding that player's number of votes. Voters are visited in an unspecified
      order, as `Object.values` enumerates them. */
  method TallyVotes(votes: map<Id, Id>) returns (tally: map<Id, nat>)
    ensures forall pid :: pid in tally <==> Count(votes, pid) > 0
    ensures forall pid :: pid in tally ==> tally[pid] == Count(votes, pid)
  {
    tally := map[];
    var todo := votes.Keys;
    ghost var done: set<Id> := {};
    TallyEmpty(votes);
    while todo != {}
      invariant todo <= votes.Keys && done == votes.Keys - todo
      invariant TallyOf(votes, done, tally)
      decreases |todo|
    {
      var u :| u in todo;
      TallyStep(votes, done, tally, u);
      tally := Increment(tally, votes[u]);
      todo := todo - {u};
      done := done + {u};
    }
    assert done == votes.Keys;
    TallyComplete(votes, tally);
  }

  /** Having counted every parent, the tally holds each player's votes. */
  lemma TallyComplete(votes: map<Id, Id>, tally: map<Id, nat>)
    requires TallyOf(votes, votes.Keys, tally)
    ensures forall pid :: pid in tally <==> Count(votes, pid) > 0
    ensures forall pid :: pid in tally ==> tally[pid] == Count(votes, pid)
  {
    forall pid ensures CountAmong(votes, votes.Keys, pid) == Count(votes, pid) {
      CountAmongAll(votes, pid);
    }
  }

  /** `Object.entries(tally).sort((a, b) => b[1] - a[1])[0]`: None for an empty
      tally, otherwise a key with the largest count. Entries are visited in an
      unspecified order and the first maximal one is kept, as a stable sort does;
      which of several tied keys that is, is left open. */
  method TopEntry(tally: map<Id, nat>) returns (winner: Option<Id>)
    ensures winner.None? <==> tally == map[]
    ensures winner.Some? ==> winner.value in tally && forall pid :: pid in tally ==> tally[pid] <= tally[winner.value]
  {
    winner := None;
    var todo := tally.Keys;
    while todo != {}
      invariant todo <= tally.Keys
      invariant winner.None? <==> todo == tally.Keys
      invariant winner.Some? ==> winner.value in tally && winner.value !in todo
      invariant winner.Some? ==> forall pid :: pid in tally && pid !in todo ==> tally[pid] <= tally[winner.value]
      decreases |todo|
    {
      var pid :| pid in todo;
      if winner.None? || tally[winner.value] < tally[pid] {
        winner := Some(pid);
      }
      todo := todo - {pid};
    }
    if winner.None? {
      assert tally.Keys == {};
      assert tally == map[];
    }
  }

  /** What one vote does to one fixture with the voted-on id: a coach sets the
      coach award, nothing else; a parent replaces their own entry in the vote map
      and makes a top-voted player the parents' award, nothing else; any other role
      changes nothing. The fixture's status is not consulted. */
  ghost predicate VoteEffect(f: Fixture, voter: User, playerId: Id, g: Fixture)
  {
    match voter.role
    case Coach => g == f.(coachMotm := Some(playerId))
    case Parent =>
      && g == f.(parentVotes := f.parentVotes[voter.id := playerId], parentMotm := g.parentMotm)
      && g.parentMotm.Some? && TopVoted(g.parentVotes, g.parentMotm.value)
    case Admin => g == f
  }

  /** The `map` callback of `voteMotm` on a fixture whose id matches. */
  method CastVote(f: Fixture, voter: User, playerId: Id) returns (g: Fixture)
    ensures VoteEffect(f, voter, playerId, g)
  {
    if voter.role == Coach {
      g := f.(coachMotm := Some(playerId));
    } else if voter.role == Parent {
      var votes := f.parentVotes[voter.id := playerId];
      var tally := TallyVotes(votes);
      VotedHasCount(votes, voter.id);
      assert playerId in tally;
      var winner := TopEntry(tally);
      var w := winner.value;
      forall q ensures Count(votes, q) <= Count(votes, w) {
        if q in tally {
          assert tally[q] <= tally[w];
        }
      }
      g := f.(parentVotes := votes, parentMotm := Some(w));
    } else {
      g := f;
    }
  }

  /** `voteMotm`: every fixture with the voted-on id takes the vote; every other
      fixture and the rest of the state stay. */
  method VoteMotm(s: ClubState, voter: User, fixtureId: Id, playerId: Id) returns (t: ClubState)
    ensures t.users == s.users && t.players == s.players && t.liveMatch == s.liveMatch
    ensures |t.fixtures| == |s.fixtures|
    ensures forall i :: 0 <= i < |s.fixtures| && s.fixtures[i].id != fixtureId ==> t.fixtures[i] == s.fixtures[i]
    ensures forall i :: 0 <= i < |s.fixtures| && s.fixtures[i].id == fixtureId ==>
      VoteEffect(s.fixtures[i], voter, playerId, t.fixtures[i])
  {
    var fs: seq<Fixture> := [];
    for i := 0 to |s.fixtures|
      invariant |fs| == i
      invariant forall k :: 0 <= k < i && s.fixtures[k].id != fixtureId ==> fs[k] == s.fixtures[k]
      invariant forall k :: 0 <= k < i && s.fixtures[k].id == fixtureId ==> VoteEffect(s.fixtures[k], voter, playerId, fs[k])
    {
      var f := s.fixtures[i];
      if f.id == fixtureId {
        var g := CastVote(f, voter, playerId);
        fs := fs + [g];
      } else {
        fs := fs + [f];
      }
    }
    t := s.(fixtures := fs);
  }

  /** A vote never changes a fixture's id, status, scores or scorers, so voting
      cannot complete a fixture. */
  lemma VoteKeepsMatchRecord(f: Fixture, voter: User, playerId: Id, g: Fixture)
    requires VoteEffect(f, voter, playerId, g)
    ensures g.id == f.id && g.status == f.status && g.scorers == f.scorers
    ensures g.homeScore == f.homeScore && g.awayScore == f.awayScore
  {
  }

  /** A second coach vote overwrites the first. */
  lemma CoachVoteOverwrites(f: Fixture, coach: User, x: Id, y: Id, g: Fixture, h: Fixture)
    requires coach.role == Coach
    requires VoteEffect(f, coach, x, g) && VoteEffect(g, coach, y, h)
    ensures h == f.(coachMotm := Some(y))
  {
  }

  /** With one vote in the map, its player is the only top-voted one. */
  lemma SoleVoteWins(u: Id, b: Id, w: Id)
    requires TopVoted(map[u := b], w)
    ensures w == b
  {
    var votes: map<Id, Id> := map[u := b];
    if w != b {
      NoVoteNoCount(votes, w);
    }
  }

  /** A parent who re-votes, with no other parent having voted, leaves the
      parents' award on their latest choice. */
  lemma ParentRevoteReplaces(f: Fixture, parent: User, a: Id, b: Id, g: Fixture, h: Fixture)
    requires parent.role == Parent && f.parentVotes == map[]
    requires VoteEffect(f, parent, a, g) && VoteEffect(g, parent, b, h)
    ensures h.parentVotes == map[parent.id := b]
    ensures h.parentMotm == Some(b)
  {
    assert g.parentVotes == map[parent.id := a];
    assert map[parent.id := a][parent.id := b] == map[parent.id := b];
    SoleVoteWins(parent.id, b, h.parentMotm.value);
  }

  /** Votes {p1: A, p2: B, p3: A} make A the parents' award (two votes to one),
      whatever order the votes were cast in. */
  lemma MajorityExample(p1: Id, p2: Id, p3: Id, a: Id, b: Id, w: Id)
    requires p1 != p2 && p2 != p3 && p1 != p3 && a != b
    requires TopVoted(map[p1 := a, p2 := b, p3 := a], w)
    ensures w == a
  {
    var votes: map<Id, Id> := map[p1 := a, p2 := b, p3 := a];
    assert VotersFor(votes, a) == {p1, p3};
    assert VotersFor(votes, b) == {p2};
    assert Count(votes, a) == 2 && Count(votes, b) == 1;
    assert Count(votes, a) <= Count(votes, w);
    if w != a && w != b {
      NoVoteNoCount(votes, w);
    }
  }
}
