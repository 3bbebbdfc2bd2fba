/** The club's records and the single aggregate every handler replaces wholesale. */
module ClubData {

  datatype Option<T> = None | Some(value: T)

  /** One field of `{ ...record, ...updates }`: the update's value when it carries one. */
  function Pick<T>(update: Option<T>, current: T): T
  {
    if update.Some? then update.value else current
  }

  /** Record ids. Every id the app hands out is positive (the seed uses 1, 2, 3
      and new records take the clock's milliseconds), so JavaScript's truthiness
      test on an id field (`if (f.coachMotm)`) means exactly "the field is set". */
  type Id = x: int | 0 < x witness 1

  datatype Role = Admin | Coach | Parent

  datatype User = User(id: Id, username: string, password: string, role: Role, name: string)

  /** `number` is the text of the shirt-number field: the form stores the input's
      string and the add-form validation tests it for emptiness. */
  datatype Player = Player(id: Id, name: string, position: string, number: string, active: bool)

  datatype Venue = Home | Away

  /** The only two persisted statuses; a live match is the `liveMatch` slot, not a status. */
  datatype Status = Upcoming | Completed

  datatype Fixture = Fixture(
    id: Id,
    opponent: string,
    date: string,
    time: string,
    venue: Venue,
    homeScore: Option<int>,
    awayScore: Option<int>,
    scorers: seq<Id>,
    status: Status,
    coachMotm: Option<Id>,
    parentMotm: Option<Id>,
    parentVotes: map<Id, Id>)  // parent's user id -> voted player id

  datatype ClubState = ClubState(
    users: seq<User>,
    players: seq<Player>,
    fixtures: seq<Fixture>,
    liveMatch: Option<Fixture>)

  /** No two players and no two fixtures share an id. */
  ghost predicate WellFormed(s: ClubState)
  {
    && (forall i, j :: 0 <= i < j < |s.players| ==> s.players[i].id != s.players[j].id)
    && (forall i, j :: 0 <= i < j < |s.fixtures| ==> s.fixtures[i].id != s.fixtures[j].id)
  }

  /** An id no player has: what the clock-stamped id of a new player is. */
  predicate FreshPlayerId(s: ClubState, id: Id)
  {
    forall p :: p in s.players ==> p.id != id
  }

  /** An id no fixture, and not the live copy, has: what the clock-stamped id of a new fixture is. */
  predicate FreshFixtureId(s: ClubState, id: Id)
  {
    && (forall f :: f in s.fixtures ==> f.id != id)
    && (s.liveMatch.Some? ==> s.liveMatch.value.id != id)
  }

  /** The state the app starts from when nothing is stored. */
  const Seed: ClubState := ClubState(
    [ User(1, "admin", "admin123", Admin, "Admin User"),
      User(2, "coach", "coach123", Coach, "Head Coach"),
      User(3, "parent1", "parent123", Parent, "Parent Smith") ],
    [ Player(1, "Tommy Wilson", "Forward", "9", true),
      Player(2, "Jake Foster", "Midfielder", "7", true),
      Player(3, "Ben Clarke", "Defender", "4", true) ],
    [ Fixture(1, "Riverside FC", "2025-10-12", "10:00", Home, None, None, [], Upcoming, None, None, map[]) ],
    None)
}
