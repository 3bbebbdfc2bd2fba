/** Roster bookkeeping: `addPlayer`, `updatePlayer`, `deletePlayer`. */
module Roster {
  import opened ClubData
  import opened Seqs

  /** The add-player form; each field holds the text typed so far. */
  datatype PlayerForm = PlayerForm(name: string, position: string, number: string)

  /** The add-form check: every field non-empty. */
  predicate Filled(form: PlayerForm)
  {
    form.name != "" && form.position != "" && form.number != ""
  }

  /** `addPlayer`: a form with an empty field leaves the state as it was (the
      alert path); otherwise exactly one active player, stamped with the fresh
      id, is appended after the existing ones. */
  function AddPlayer(s: ClubState, form: PlayerForm, freshId: Id): (t: ClubState)
    requires FreshPlayerId(s, freshId)
    ensures !Filled(form) ==> t == s
    ensures Filled(form) ==>
      && t.users == s.users && t.fixtures == s.fixtures && t.liveMatch == s.liveMatch
      && |t.players| == |s.players| + 1
      && t.players[..|s.players|] == s.players
      && t.players[|s.players|] == Player(freshId, form.name, form.position, form.number, true)
  {
    if !Filled(form) then s
    else s.(players := s.players + [Player(freshId, form.name, form.position, form.number, true)])
  }

  /** The fields an edit may carry; an absent field is not part of the update. */
  datatype PlayerPatch = PlayerPatch(
    name: Option<string>,
    position: Option<string>,
    number: Option<string>,
    active: Option<bool>)

  /** `{ ...p, ...updates }`. */
  function Merge(p: Player, u: PlayerPatch): (r: Player)
    ensures r.id == p.id
    ensures u == PlayerPatch(None, None, None, None) ==> r == p
    ensures u.name.Some? ==> r.name == u.name.value
    ensures u.position.Some? ==> r.position == u.position.value
    ensures u.number.Some? ==> r.number == u.number.value
    ensures u.active.Some? ==> r.active == u.active.value
  {
    Player(p.id, Pick(u.name, p.name), Pick(u.position, p.position), Pick(u.number, p.number), Pick(u.active, p.active))
  }

  /** `updatePlayer`: every player whose id matches gets the patch merged in and
      keeps its id; every other player, the order and the other collections stay. */
  function UpdatePlayer(s: ClubState, id: Id, u: PlayerPatch): (t: ClubState)
    ensures t.users == s.users && t.fixtures == s.fixtures && t.liveMatch == s.liveMatch
    ensures |t.players| == |s.players|
    ensures forall i :: 0 <= i < |s.players| && s.players[i].id != id ==> t.players[i] == s.players[i]
    ensures forall i :: 0 <= i < |s.players| && s.players[i].id == id ==>
      && t.players[i].id == id
      && t.players[i].name == Pick(u.name, s.players[i].name)
      && t.players[i].position == Pick(u.position, s.players[i].position)
      && t.players[i].number == Pick(u.number, s.players[i].number)
      && t.players[i].active == Pick(u.active, s.players[i].active)
  {
    s.(players := seq(|s.players|, i requires 0 <= i < |s.players| =>
                        if s.players[i].id == id then Merge(s.players[i], u) else s.players[i]))
  }

  /** An id no player has leaves the whole state unchanged. */
  lemma UpdateUnknownPlayer(s: ClubState, id: Id, u: PlayerPatch)
    requires FreshPlayerId(s, id)
    ensures UpdatePlayer(s, id, u) == s
  {
    var t := UpdatePlayer(s, id, u);
    assert forall i :: 0 <= i < |s.players| ==> s.players[i] in s.players;
    assert t.players == s.players;
  }

  /** Submitting the same edit twice is the same as submitting it once. */
  lemma UpdatePlayerIdempotent(s: ClubState, id: Id, u: PlayerPatch)
    ensures UpdatePlayer(UpdatePlayer(s, id, u), id, u) == UpdatePlayer(s, id, u)
  {
    var t := UpdatePlayer(s, id, u);
    var t2 := UpdatePlayer(t, id, u);
    assert t2.players == t.players;
  }

  /** Updates keep the roster's ids unique. */
  lemma UpdatePlayerWellFormed(s: ClubState, id: Id, u: PlayerPatch)
    requires WellFormed(s)
    ensures WellFormed(UpdatePlayer(s, id, u))
  {
  }

  /** The `filter` callback of `deletePlayer`. */
  function OtherThan(id: Id): Player -> bool
  {
    (p: Player) => p.id != id
  }

  /** `deletePlayer` (once confirmed): the players with a different id, in their
      order. Fixtures are untouched, so scorer and award entries naming the deleted
      player stay as they are. */
  function DeletePlayer(s: ClubState, id: Id): (t: ClubState)
    ensures t.users == s.users && t.fixtures == s.fixtures && t.liveMatch == s.liveMatch
    ensures forall p :: p in t.players <==> p in s.players && p.id != id
    ensures forall p :: multiset(t.players)[p] == if p.id == id then 0 else multiset(s.players)[p]
    ensures FreshPlayerId(s, id) ==> t == s
  {
    FilterElements(s.players, OtherThan(id));
    if FreshPlayerId(s, id) then
      FilterKeepsAll(s.players, OtherThan(id));
      s.(players := Filter(s.players, OtherThan(id)))
    else s.(players := Filter(s.players, OtherThan(id)))
  }

  /** Deleting keeps the order of the remaining players: removing an id from a
      roster split in two is removing it from each part. */
  lemma DeletePlayerKeepsOrder(s: ClubState, id: Id, before: seq<Player>, after: seq<Player>)
    requires s.players == before + after
    ensures DeletePlayer(s, id).players
         == DeletePlayer(s.(players := before), id).players + DeletePlayer(s.(players := after), id).players
  {
    FilterConcat(before, after, OtherThan(id));
  }

  /** In a roster with unique ids, deleting an id that is present removes exactly one player. */
  lemma {:induction false} DeleteRemovesOne(ps: seq<Player>, id: Id)
    requires forall i, j :: 0 <= i < j < |ps| ==> ps[i].id != ps[j].id
    requires exists p :: p in ps && p.id == id
    ensures |Filter(ps, OtherThan(id))| == |ps| - 1
  {
    if ps[0].id == id {
      forall k | 0 <= k < |ps[1..]| ensures OtherThan(id)(ps[1..][k]) {
        assert ps[1..][k] == ps[k + 1];
      }
      FilterKeepsAll(ps[1..], OtherThan(id));
    } else {
      var p :| p in ps && p.id == id;
      assert p in ps[1..];
      DeleteRemovesOne(ps[1..], id);
    }
  }

  /** Deleting keeps the roster's ids unique; in a well-formed state deleting a
      present id shortens the roster by exactly one. */
  lemma DeletePlayerWellFormed(s: ClubState, id: Id)
    requires WellFormed(s)
    ensures WellFormed(DeletePlayer(s, id))
    ensures !FreshPlayerId(s, id) ==> |DeletePlayer(s, id).players| == |s.players| - 1
  {
    FilterUniqueKeys(s.players, OtherThan(id), (p: Player) => p.id);
    if !FreshPlayerId(s, id) {
      DeleteRemovesOne(s.players, id);
    }
  }

  /** Adding with a fresh id keeps the roster's ids unique. */
  lemma AddPlayerWellFormed(s: ClubState, form: PlayerForm, freshId: Id)
    requires WellFormed(s) && FreshPlayerId(s, freshId)
    ensures WellFormed(AddPlayer(s, form, freshId))
  {
    var t := AddPlayer(s, form, freshId);
    if Filled(form) {
      forall i, j | 0 <= i < j < |t.players| ensures t.players[i].id != t.players[j].id {
        if j == |s.players| {
          assert t.players[i] == s.players[i];
          assert s.players[i] in s.players;
        } else {
          assert t.players[i] == s.players[i] && t.players[j] == s.players[j];
        }
      }
    }
  }
}
