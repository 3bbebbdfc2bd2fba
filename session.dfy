/** Login, the edit-rights gate and the state change of logging out. */
module Session {
  import opened ClubData
  import opened Seqs

  predicate Matches(u: User, username: string, password: string)
  {
    u.username == username && u.password == password
  }

  /** `users.find(..)` on both credentials: the first user whose username and
      password both equal the ones typed, or None (the "Invalid credentials" path). */
  function Login(users: seq<User>, username: string, password: string): (r: Option<User>)
    ensures r.None? <==> forall u :: u in users ==> !Matches(u, username, password)
    ensures r.Some? ==> exists k :: 0 <= k < |users| && users[k] == r.value
                          && Matches(users[k], username, password)
                          && forall j :: 0 <= j < k ==> !Matches(users[j], username, password)
  {
    var k := FindIndex(users, u => Matches(u, username, password));
    if k < |users| then Some(users[k]) else None
  }

  /** Each of the seed's demo accounts logs in as itself. */
  lemma SeedAccounts(k: nat)
    requires k < |Seed.users|
    ensures Login(Seed.users, Seed.users[k].username, Seed.users[k].password) == Some(Seed.users[k])
  {
    var us := Seed.users;
    var u := us[k];
    assert Matches(u, u.username, u.password) && u in us;
    assert forall j :: 0 <= j < |us| && j != k ==> us[j].username != u.username;
    var r := Login(us, u.username, u.password);
    var i :| 0 <= i < |us| && us[i] == r.value && Matches(us[i], u.username, u.password);
    assert i == k;
  }

  /** A seed username with another account's password logs nobody in. */
  lemma SeedWrongPassword()
    ensures Login(Seed.users, "admin", "coach123") == None
  {
    var us := Seed.users;
    forall u | u in us ensures !Matches(u, "admin", "coach123") {
      assert u == us[0] || u == us[1] || u == us[2];
    }
  }

  /** `canEdit`: admins and coaches may edit; parents may only vote. */
  function CanEdit(role: Role): (b: bool)
    ensures b <==> role != Parent
  {
    role == Admin || role == Coach
  }

  /** Logging out empties the live-match slot and touches nothing else of the state. */
  function Logout(s: ClubState): (t: ClubState)
    ensures t.liveMatch == None
    ensures t.users == s.users && t.players == s.players && t.fixtures == s.fixtures
  {
    s.(liveMatch := None)
  }
}
