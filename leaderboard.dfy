/** The man-of-the-match leaderboard: the awards of every completed fixture are
    counted per player, then listed by count, highest first. */
module Leaderboard {
  import opened ClubData
  import opened Seqs
  import opened FixtureList
  import MotmVoting

  /** Reference definition: the awards `pid` holds over the completed fixtures
      of `fs`, one per coach award and one per parents' award. */
  function AwardCount(fs: seq<Fixture>, pid: Id): nat
  {
    if fs == [] then 0
    else
      var f := fs[0];
      (if f.status == Completed
       then (if f.coachMotm == Some(pid) then 1 else 0) + (if f.parentMotm == Some(pid) then 1 else 0)
       else 0)
      + AwardCount(fs[1..], pid)
  }

  /** Reference definition: the awards that are set over the completed fixtures of `fs`. */
  function TotalAwards(fs: seq<Fixture>): nat
  {
    if fs == [] then 0
    else
      var f := fs[0];
      (if f.status == Completed
       then (if f.coachMotm.Some? then 1 else 0) + (if f.parentMotm.Some? then 1 else 0)
       else 0)
      + TotalAwards(fs[1..])
  }

  /** The awards of one fixture, as the two `if (f.…Motm)` increments add them. */
  function FixtureAwards(f: Fixture): multiset<Id>
  {
    (if f.coachMotm.Some? then multiset{f.coachMotm.value} else multiset{})
    + (if f.parentMotm.Some? then multiset{f.parentMotm.value} else multiset{})
  }

  /** Every award of every fixture in `fs`, with repetition. */
  function Awards(fs: seq<Fixture>): multiset<Id>
  {
    if fs == [] then multiset{} else FixtureAwards(fs[0]) + Awards(fs[1..])
  }

  lemma {:induction false} AwardsConcat(a: seq<Fixture>, b: seq<Fixture>)
    ensures Awards(a + b) == Awards(a) + Awards(b)
  {
    if a == [] {
      assert a + b == b;
    } else {
      assert (a + b)[0] == a[0];
      assert (a + b)[1..] == a[1..] + b;
      AwardsConcat(a[1..], b);
    }
  }

  lemma {:induction false} AwardsReverse(fs: seq<Fixture>)
    ensures Awards(Reverse(fs)) == Awards(fs)
  {
    if fs != [] {
      AwardsReverse(fs[1..]);
      AwardsConcat(Reverse(fs[1..]), [fs[0]]);
      assert Awards([fs[0]]) == FixtureAwards(fs[0]);
    }
  }

  /** One fixture's awards, player by player and in total, as the reference counts them. */
  lemma FixtureAwardsCount(f: Fixture)
    ensures forall pid :: FixtureAwards(f)[pid]
                       == (if f.coachMotm == Some(pid) then 1 else 0) + (if f.parentMotm == Some(pid) then 1 else 0)
    ensures |FixtureAwards(f)| == (if f.coachMotm.Some? then 1 else 0) + (if f.parentMotm.Some? then 1 else 0)
  {
  }

  /** Over the kept fixtures, a player's awards are its reference count. */
  lemma {:induction false} AwardsOfFiltered(fs: seq<Fixture>, pid: Id)
    ensures Awards(Filter(fs, IsCompleted))[pid] == AwardCount(fs, pid)
  {
    if fs != [] {
      var f, rest := fs[0], Filter(fs[1..], IsCompleted);
      AwardsOfFiltered(fs[1..], pid);
      if IsCompleted(f) {
        assert Filter(fs, IsCompleted) == [f] + rest;
        AwardsConcat([f], rest);
        assert Awards([f]) == FixtureAwards(f);
        FixtureAwardsCount(f);
      } else {
        assert Filter(fs, IsCompleted) == rest;
      }
    }
  }

  /** Over the kept fixtures, the number of awards is the reference total. */
  lemma {:induction false} AwardsOfFilteredSize(fs: seq<Fixture>)
    ensures |Awards(Filter(fs, IsCompleted))| == TotalAwards(fs)
  {
    if fs != [] {
      var f, rest := fs[0], Filter(fs[1..], IsCompleted);
      AwardsOfFilteredSize(fs[1..]);
      if IsCompleted(f) {
        assert Filter(fs, IsCompleted) == [f] + rest;
        AwardsConcat([f], rest);
        assert Awards([f]) == FixtureAwards(f);
        FixtureAwardsCount(f);
      } else {
        assert Filter(fs, IsCompleted) == rest;
      }
    }
  }

  /** Counting the awards in `completedFixtures` is counting the awards of the
      completed fixtures, whatever their order. */
  lemma CompletedAwards(fs: seq<Fixture>)
    ensures forall pid :: Awards(CompletedFixtures(fs))[pid] == AwardCount(fs, pid)
    ensures |Awards(CompletedFixtures(fs))| == TotalAwards(fs)
  {
    AwardsReverse(Filter(fs, IsCompleted));
    forall pid ensures Awards(CompletedFixtures(fs))[pid] == AwardCount(fs, pid) {
      AwardsOfFiltered(fs, pid);
    }
    AwardsOfFilteredSize(fs);
  }

  /** `m` holds, for each element of `bag`, its multiplicity, and nothing else. */
  ghost predicate Represents(m: map<Id, nat>, bag: multiset<Id>)
  {
    forall pid :: (pid in m <==> bag[pid] > 0) && (pid in m ==> m[pid] == bag[pid])
  }

  /** Incrementing a player's entry records one more award for that player. */
  lemma IncrementRepresents(m: map<Id, nat>, bag: multiset<Id>, pid: Id)
    requires Represents(m, bag)
    ensures Represents(MotmVoting.Increment(m, pid), bag + multiset{pid})
  {
  }

  /** The awards of a prefix one fixture longer. */
  lemma AwardsPrefix(fs: seq<Fixture>, i: nat)
    requires i < |fs|
    ensures Awards(fs[..i + 1]) == Awards(fs[..i]) + FixtureAwards(fs[i])
  {
    assert fs[..i + 1] == fs[..i] + [fs[i]];
    AwardsConcat(fs[..i], [fs[i]]);
    assert Awards([fs[i]]) == FixtureAwards(fs[i]);
  }

  /** The `forEach` of lines 800-803: one entry per player holding an award,
      with that player's number of awards. */
  method CountAwards(completed: seq<Fixture>) returns (motmCount: map<Id, nat>)
    ensures Represents(motmCount, Awards(completed))
  {
    motmCount := map[];
    for i := 0 to |completed|
      invariant Represents(motmCount, Awards(completed[..i]))
    {
      var f := completed[i];
      ghost var bag := Awards(completed[..i]);
      AwardsPrefix(completed, i);
      if f.coachMotm.Some? {
        IncrementRepresents(motmCount, bag, f.coachMotm.value);
        motmCount := MotmVoting.Increment(motmCount, f.coachMotm.value);
        bag := bag + multiset{f.coachMotm.value};
      }
      if f.parentMotm.Some? {
        IncrementRepresents(motmCount, bag, f.parentMotm.value);
        motmCount := MotmVoting.Increment(motmCount, f.parentMotm.value);
        bag := bag + multiset{f.parentMotm.value};
      }
    }
    assert completed[..|completed|] == completed;
  }

  datatype Entry = Entry(playerId: Id, count: nat)

  /** Counts never increase along the board. */
  ghost predicate SortedByCount(board: seq<Entry>)
  {
    forall i, j :: 0 <= i < j < |board| ==> board[i].count >= board[j].count
  }

  /** No player has two entries. */
  ghost predicate DistinctPlayers(board: seq<Entry>)
  {
    forall i, j :: 0 <= i < j < |board| ==> board[i].playerId != board[j].playerId
  }

  /** `pid` has an entry on the board. */
  ghost predicate Listed(board: seq<Entry>, pid: Id)
  {
    exists k :: 0 <= k < |board| && board[k].playerId == pid
  }

  /** Every entry carries its player's count from `count`. */
  ghost predicate CountedFrom(count: map<Id, nat>, board: seq<Entry>)
  {
    forall k :: 0 <= k < |board| ==> board[k].playerId in count && board[k].count == count[board[k].playerId]
  }

  /** `board` lists each player of `count`'s domain once, with its count, by
      count, highest first. */
  ghost predicate Ranks(count: map<Id, nat>, board: seq<Entry>)
  {
    && SortedByCount(board)
    && DistinctPlayers(board)
    && CountedFrom(count, board)
    && (forall pid :: pid in count ==> Listed(board, pid))
  }

  /** The selection state of `RankEntries`: `board` ranks the entries taken out
      of `rest` so far, and every entry still in `rest` ranks below all of them. */
  ghost predicate PartlyRanked(count: map<Id, nat>, rest: map<Id, nat>, board: seq<Entry>)
  {
    && (forall pid :: pid in rest ==> pid in count && rest[pid] == count[pid])
    && (forall pid :: pid in count ==> pid in rest || Listed(board, pid))
    && CountedFrom(count, board)
    && (forall k :: 0 <= k < |board| ==> board[k].playerId !in rest)
    && SortedByCount(board)
    && DistinctPlayers(board)
    && (forall k, pid :: 0 <= k < |board| && pid in rest ==> rest[pid] <= board[k].count)
  }

  /** Appending an entry for a new player, counted from `count` and no higher than
      any entry so far, keeps the board sorted, distinct and counted, and lists
      exactly one more player. */
  lemma AppendEntry(count: map<Id, nat>, board: seq<Entry>, e: Entry)
    requires SortedByCount(board) && DistinctPlayers(board) && CountedFrom(count, board)
    requires e.playerId in count && e.count == count[e.playerId]
    requires forall k :: 0 <= k < |board| ==> e.count <= board[k].count && board[k].playerId != e.playerId
    ensures SortedByCount(board + [e]) && DistinctPlayers(board + [e]) && CountedFrom(count, board + [e])
    ensures forall q :: Listed(board + [e], q) <==> Listed(board, q) || q == e.playerId
  {
    var board' := board + [e];
    forall q ensures Listed(board', q) <==> Listed(board, q) || q == e.playerId {
      if Listed(board, q) {
        var k :| 0 <= k < |board| && board[k].playerId == q;
        assert board'[k] == board[k];
      }
      if q == e.playerId {
        assert board'[|board|] == e;
      }
      if Listed(board', q) && q != e.playerId {
        var k :| 0 <= k < |board'| && board'[k].playerId == q;
        assert board'[k] == board[k];
      }
    }
  }

  /** Moving a top entry of `rest` to the end of the board keeps it partly ranked. */
  lemma TakeTop(count: map<Id, nat>, rest: map<Id, nat>, board: seq<Entry>, pid: Id)
    requires PartlyRanked(count, rest, board)
    requires pid in rest && forall q :: q in rest ==> rest[q] <= rest[pid]
    ensures PartlyRanked(count, rest - {pid}, board + [Entry(pid, rest[pid])])
  {
    var e := Entry(pid, rest[pid]);
    var board', rest' := board + [e], rest - {pid};
    AppendEntry(count, board, e);
    forall k | 0 <= k < |board'| ensures board'[k].playerId !in rest' {
      if k < |board| {
        assert board'[k] == board[k];
      }
    }
    forall k, q | 0 <= k < |board'| && q in rest' ensures rest'[q] <= board'[k].count {
      if k < |board| {
        assert board'[k] == board[k];
      }
    }
  }

  /** `Object.entries(motmCount).sort((a, b) => b[1] - a[1])`: every entry, by
      count, highest first. Ties come out in an unspecified order. */
  method RankEntries(motmCount: map<Id, nat>) returns (board: seq<Entry>)
    ensures Ranks(motmCount, board)
  {
    board := [];
    var rest := motmCount;
    while rest != map[]
      invariant PartlyRanked(motmCount, rest, board)
      decreases rest.Keys
    {
      var top := MotmVoting.TopEntry(rest);
      var pid := top.value;
      TakeTop(motmCount, rest, board, pid);
      board := board + [Entry(pid, rest[pid])];
      rest := rest - {pid};
    }
  }

  /** Sum of the counts on a board. */
  function SumCounts(board: seq<Entry>): nat
  {
    if board == [] then 0 else board[0].count + SumCounts(board[1..])
  }

  /** Removing every copy of `pid` removes `m[pid]` elements. */
  lemma {:induction false} DropAll(m: multiset<Id>, pid: Id)
    ensures |m| == m[pid] + |m[pid := 0]|
    decreases m[pid]
  {
    if m[pid] > 0 {
      var less := m - multiset{pid};
      assert m == less + multiset{pid};
      assert less[pid := 0] == m[pid := 0];
      DropAll(less, pid);
    } else {
      assert m[pid := 0] == m;
    }
  }

  /** A board that lists every element of `m` once, with its multiplicity,
      sums to the size of `m`. */
  lemma {:induction false} SumIsSize(m: multiset<Id>, board: seq<Entry>)
    requires forall i, j :: 0 <= i < j < |board| ==> board[i].playerId != board[j].playerId
    requires forall k :: 0 <= k < |board| ==> board[k].count == m[board[k].playerId]
    requires forall pid :: m[pid] > 0 ==> exists k :: 0 <= k < |board| && board[k].playerId == pid
    ensures SumCounts(board) == |m|
  {
    if board == [] {
      assert m == multiset{};
    } else {
      var p := board[0].playerId;
      var rest := m[p := 0];
      forall k | 0 <= k < |board[1..]| ensures board[1..][k].count == rest[board[1..][k].playerId] {
        assert board[1..][k] == board[k + 1];
      }
      forall q | rest[q] > 0 ensures exists k :: 0 <= k < |board[1..]| && board[1..][k].playerId == q {
        var k :| 0 <= k < |board| && board[k].playerId == q;
        assert k != 0;
        assert board[1..][k - 1].playerId == q;
      }
      SumIsSize(rest, board[1..]);
      DropAll(m, p);
    }
  }

  /** The leaderboard of lines 798-806: for each player holding an award over
      the completed fixtures, its reference award count, listed highest first, the
      counts adding up to the number of awards set. */
  ghost predicate IsLeaderboard(fixtures: seq<Fixture>, board: seq<Entry>)
  {
    && SortedByCount(board)
    && DistinctPlayers(board)
    && (forall k :: 0 <= k < |board| ==> board[k].count == AwardCount(fixtures, board[k].playerId) > 0)
    && (forall pid :: AwardCount(fixtures, pid) > 0 ==> Listed(board, pid))
    && SumCounts(board) == TotalAwards(fixtures)
  }

  method Leaderboard(fixtures: seq<Fixture>) returns (board: seq<Entry>)
    ensures IsLeaderboard(fixtures, board)
  {
    var completed := CompletedFixtures(fixtures);
    var motmCount := CountAwards(completed);
    board := RankEntries(motmCount);
    CompletedAwards(fixtures);
    SumIsSize(Awards(completed), board);
  }

  /** A board with distinct players drawn from `players` has at most as many entries. */
  lemma {:induction false} DistinctBound(board: seq<Entry>, players: set<Id>)
    requires forall i, j :: 0 <= i < j < |board| ==> board[i].playerId != board[j].playerId
    requires forall k :: 0 <= k < |board| ==> board[k].playerId in players
    ensures |board| <= |players|
  {
    if board != [] {
      var rest := players - {board[0].playerId};
      forall k | 0 <= k < |board[1..]| ensures board[1..][k].playerId in rest {
        assert board[1..][k] == board[k + 1];
      }
      forall i, j | 0 <= i < j < |board[1..]| ensures board[1..][i].playerId != board[1..][j].playerId {
        assert board[1..][i] == board[i + 1] && board[1..][j] == board[j + 1];
      }
      DistinctBound(board[1..], rest);
    }
  }

  /** A player holding both awards of one completed fixture gains two. */
  lemma DoubleAward(f: Fixture, pid: Id)
    requires f.status == Completed && f.coachMotm == Some(pid) && f.parentMotm == Some(pid)
    ensures AwardCount([f], pid) == 2
  {
    assert [f][1..] == [];
  }

  /** Fixture 1 completed with coach award P1 and parents' award P2, fixture 2
      completed with both awards P1: the leaderboard is P1 with 3, then P2 with 1. */
  lemma LeaderboardExample(f1: Fixture, f2: Fixture, p1: Id, p2: Id, board: seq<Entry>)
    requires p1 != p2
    requires f1.status == Completed && f1.coachMotm == Some(p1) && f1.parentMotm == Some(p2)
    requires f2.status == Completed && f2.coachMotm == Some(p1) && f2.parentMotm == Some(p1)
    requires IsLeaderboard([f1, f2], board)
    ensures board == [Entry(p1, 3), Entry(p2, 1)]
  {
    var fs := [f1, f2];
    assert fs[1..] == [f2] && [f2][1..] == [];
    assert AwardCount([f2], p1) == 2 && AwardCount([f2], p2) == 0;
    assert AwardCount(fs, p1) == 3 && AwardCount(fs, p2) == 1;
    forall q | q != p1 && q != p2 ensures AwardCount(fs, q) == 0 {
      assert AwardCount([f2], q) == 0;
    }
    var i :| 0 <= i < |board| && board[i].playerId == p1;
    var j :| 0 <= j < |board| && board[j].playerId == p2;
    forall k | 0 <= k < |board| ensures board[k].playerId == p1 || board[k].playerId == p2 {
      assert AwardCount(fs, board[k].playerId) > 0;
    }
    assert board[i].count == 3 && board[j].count == 1;
    assert i < j;
    DistinctBound(board, {p1, p2});
    assert |board| == 2;
  }
}
