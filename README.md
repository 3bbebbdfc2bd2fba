# Youth football club manager — rule layer

The club manager is a single React component, `app.tsx`, used by a youth
football club. An admin or a coach keeps the player roster and the fixture
list. They "go live" on a fixture to record the score and the goal scorers as
the match is played, then end the match, which marks the fixture completed.
After a match the coach casts a man-of-the-match (MOTM) vote that sets the
coach award. Each parent casts one vote that is tallied into the parents'
award. A leaderboard counts both kinds of award over the completed fixtures.

This project models the component's state and the rules of its handlers as
Dafny:

- `ClubData` holds the records (`User`, `Player`, `Fixture`, `ClubState`) and
  the seed state the app starts from when nothing is stored.
- `Session` covers `login`, `canEdit` and `logout`.
- `Roster` covers `addPlayer`, `updatePlayer` and `deletePlayer`.
- `FixtureList` covers `addFixture`, `updateFixture` and `deleteFixture`, plus
  the two lists the views derive: completed results and the next match.
- `LiveMatch` covers `startLiveMatch`, `updateLiveScore`, `addScorer` and
  `endLiveMatch`.
- `MotmVoting` covers `voteMotm`: the coach overwrite, the parent upsert, and
  the `forEach` tally with its top entry.
- `Leaderboard` covers the MOTM leaderboard: the `forEach` count over completed
  fixtures and the ranking by count.
- `ClubApp` holds the component's two state slots, `data` and `currentUser`, as
  the class `App`. It gathers the handlers into a command reducer and proves
  facts that span handlers.
- `Seqs` holds the generic sequence helpers: filter, find, reverse.

Every handler that only passes a new value to `setData` is a function from
state to state. The loops of the source are methods with loop invariants:

- the parent tally and its top entry (`voteMotm`);
- the award count and its ordering (the leaderboard).

Each of these methods is proved against a reference definition:

- `Count` for the tally;
- `AwardCount` and `TotalAwards` for the leaderboard.

The handlers check less than the UI suggests:

- `startLiveMatch` neither refuses a second live match nor checks that the
  fixture is upcoming;
- `deleteFixture` deletes the fixture being played live;
- votes are accepted on fixtures of any status;
- an admin's vote changes nothing.

## Model

| member | source | states |
|---|---|---|
| Session.Login | app.tsx:57 | None exactly when no user has both the typed username and password; otherwise the first user that has both |
| Session.SeedAccounts | app.tsx:10-14 | each seed account logs in with its own username and password as itself |
| Session.SeedWrongPassword | app.tsx:10-14 | a seed username with another account's password logs nobody in |
| Session.CanEdit | app.tsx:274 | admins and coaches may edit, and a parent may not |
| Session.Logout | app.tsx:66-70 | the live slot is emptied; users, players and fixtures are unchanged |
| Roster.AddPlayer | app.tsx:72-82 | an empty name, position or number leaves the state unchanged; otherwise exactly one active player with the fresh id and the form's fields is appended, and everything else is unchanged |
| Roster.AddPlayerWellFormed | app.tsx:79 | adding with a clock-fresh id keeps player ids unique |
| Roster.Merge | app.tsx:87 | the id is kept, an empty patch changes nothing, and every field the patch carries takes the patch's value |
| Roster.UpdatePlayer | app.tsx:84-90 | every player with the id gets each patched field and keeps the others and its id; other players, their order and the rest of the state are unchanged |
| Roster.UpdateUnknownPlayer | app.tsx:87 | an id no player has changes nothing |
| Roster.UpdatePlayerIdempotent | app.tsx:87 | applying the same edit twice equals applying it once |
| Roster.DeletePlayer | app.tsx:92-99 | exactly the players with another id remain, with their multiplicities; fixtures and the live slot are untouched; an absent id changes nothing |
| Roster.DeletePlayerKeepsOrder | app.tsx:96 | deleting from a roster split in two equals deleting from each part, so the order is kept |
| Roster.DeleteRemovesOne | app.tsx:96 | in a roster with unique ids, deleting a present id removes exactly one player |
| Roster.DeletePlayerWellFormed | app.tsx:96 | deleting keeps ids unique, and a present id shortens the roster by one |
| FixtureList.AddFixture | app.tsx:101-121 | an empty opponent, date or time leaves the state unchanged; otherwise exactly one fixture is appended, having the fresh id and the form's details, being upcoming, and with no scores, scorers, awards or votes |
| FixtureList.AddFixtureWellFormed | app.tsx:110 | adding with a clock-fresh id keeps fixture ids unique |
| FixtureList.Merge | app.tsx:126 | the id is kept, an empty patch changes nothing, and every field the patch carries takes the patch's value |
| FixtureList.UpdateFixture | app.tsx:123-129 | every fixture with the id becomes the merge of the patch into it and keeps its id; other fixtures and the rest of the state are unchanged |
| FixtureList.UpdateUnknownFixture | app.tsx:126 | an id no fixture has changes nothing |
| FixtureList.DeleteFixture | app.tsx:131-138 | exactly the fixtures with another id remain, with their multiplicities; the live slot is left even when it holds the deleted fixture |
| FixtureList.DeleteFixtureKeepsOrder | app.tsx:135 | deleting from a list split in two equals deleting from each part |
| FixtureList.DeleteFixtureWellFormed | app.tsx:135 | deleting keeps fixture ids unique |
| FixtureList.CompletedFixtures | app.tsx:275 | exactly the completed fixtures, each as often as in the list |
| FixtureList.CompletedFixturesNewestFirst | app.tsx:275 | a completed fixture at the end of the list comes first among the results |
| FixtureList.CompletedIgnoresUpcoming | app.tsx:275 | an upcoming fixture does not change the results |
| FixtureList.NextMatch | app.tsx:455 | None exactly when no fixture is upcoming; otherwise the first upcoming fixture in list order |
| LiveMatch.OrZero | app.tsx:146-147 | an unset score reads as 0 and a set score as itself |
| LiveMatch.WriteBack | app.tsx:158-188 | position by position, a fixture with the id becomes the written copy and any other stays; with a copy carrying that id, every position keeps its id |
| LiveMatch.StartLiveMatch | app.tsx:140-150 | the fixture list is untouched; the live slot holds a copy of the first fixture with the id, with unset scores read as 0 |
| LiveMatch.UpdateLiveScore | app.tsx:152-163 | the live copy takes the value on the chosen side; every fixture with its id becomes the new copy; the other fixtures are unchanged |
| LiveMatch.AddScorer | app.tsx:165-179 | the live copy's scorers grow by the player id at the end, all else of the copy kept; every fixture with its id becomes the new copy |
| LiveMatch.LiveWritesSync | app.tsx:158-160 | after a score or scorer write, every fixture with the live id equals the live copy |
| LiveMatch.EndLiveMatch | app.tsx:181-191 | every fixture with the live id becomes the live copy marked completed; the other fixtures stay; the slot is emptied |
| LiveMatch.MatchLifecycle | app.tsx:140-191 | start, one goal and end leave the fixture completed, with scores defaulted, the scorer appended and the slot empty; all other fixtures are unchanged |
| MotmVoting.Increment | app.tsx:205 | the key gains one more than its previous count, absent meaning 0; the map gains that key and no other, and other counts stay |
| MotmVoting.TallyStep | app.tsx:205 | counting one more parent's vote extends the tally to that parent's vote |
| MotmVoting.TallyComplete | app.tsx:204-206 | once every parent is counted, the tally holds each player's votes |
| MotmVoting.TallyVotes | app.tsx:203-206 | one entry per voted-for player, holding exactly that player's number of parent votes |
| MotmVoting.TopEntry | app.tsx:207 | None exactly for an empty tally; otherwise a key with the largest count |
| MotmVoting.CastVote | app.tsx:197-214 | a coach sets the coach award and nothing else; a parent's entry is set and the parents' award becomes a top-voted player, never null; an admin changes nothing |
| MotmVoting.VoteMotm | app.tsx:193-218 | every fixture with the id takes the vote, whatever its status; the other fixtures and the rest of the state are unchanged |
| MotmVoting.VoteKeepsMatchRecord | app.tsx:196-214 | a vote never changes a fixture's id, status, scores or scorers |
| MotmVoting.CoachVoteOverwrites | app.tsx:200 | a second coach vote replaces the first |
| MotmVoting.SoleVoteWins | app.tsx:202-211 | with a single vote, its player is the only top-voted one |
| MotmVoting.ParentRevoteReplaces | app.tsx:202 | a parent re-voting replaces their own entry, and the award follows the latest vote |
| MotmVoting.MajorityExample | app.tsx:202-211 | votes A, B, A give the parents' award to A, whatever the enumeration order |
| Leaderboard.AwardsOfFiltered | app.tsx:275 | over the completed fixtures, a player's awards equal its reference count |
| Leaderboard.AwardsOfFilteredSize | app.tsx:275 | over the completed fixtures, the number of awards equals the reference total |
| Leaderboard.CompletedAwards | app.tsx:275 | the awards in the completed list are the reference counts per player and in total |
| Leaderboard.IncrementRepresents | app.tsx:801-802 | incrementing a player's entry of a count map records one more award for that player |
| Leaderboard.CountAwards | app.tsx:799-803 | the map holds, for each player with an award in the list, its number of awards, and no other key |
| Leaderboard.AppendEntry | app.tsx:805-806 | appending a new player's entry, no higher than any before, keeps the board sorted, distinct and counted, and lists exactly one more player |
| Leaderboard.TakeTop | app.tsx:805-806 | moving a top entry to the end of the board keeps the board ranked |
| Leaderboard.RankEntries | app.tsx:805-806 | every entry of the count map exactly once, with its count, in non-increasing order |
| Leaderboard.SumIsSize | app.tsx:799-806 | a board listing each awarded player once with its multiplicity sums to the number of awards |
| Leaderboard.Leaderboard | app.tsx:798-806 | non-increasing order, distinct players, each player's count equal to its reference count over completed fixtures, every awarded player listed, and counts summing to the number of set awards |
| Leaderboard.DistinctBound | app.tsx:805-806 | a board of distinct players drawn from a set has at most as many entries |
| Leaderboard.DoubleAward | app.tsx:801-802 | a player with both awards of one completed fixture gains two |
| Leaderboard.LeaderboardExample | app.tsx:798-806 | coach awards P1 and P1 with parents' awards P2 and P1 give exactly P1 with 3, then P2 with 1 |
| ClubApp.Apply | app.tsx:72-191 | no handler touches the user accounts, and only the three roster handlers touch the roster |
| ClubApp.AddFixtureCompletes | app.tsx:101-121 | adding a fixture marks no id completed |
| ClubApp.UpdateFixtureCompletes | app.tsx:123-129 | an edit that does not set the status to completed marks no new id completed |
| ClubApp.StartLiveMatchCompletes | app.tsx:140-150 | going live marks no new id completed |
| ClubApp.LiveWriteCompletes | app.tsx:152-179 | a score or scorer write marks no new id completed |
| ClubApp.SameStatusesCompleted | app.tsx:193-218 | fixtures that keep their ids and statuses, with the live slot unchanged, mark the same ids completed |
| ClubApp.SameIdsWellFormed | app.tsx:84-191 | records that keep their ids position by position keep them unique |
| ClubApp.OnlyEndCompletes | app.tsx:72-191 | no handler but `endLiveMatch` adds an id to `CompletedIds`, which also counts the live copy's id; a completed status edit aside |
| ClubApp.EndCompletesLive | app.tsx:181-191 | ending marks the live fixture completed, and nothing else newly |
| ClubApp.ApplyWellFormed | app.tsx:72-191 | every handler keeps player and fixture ids unique |
| ClubApp.App.constructor | app.tsx:9-42 | the app starts from the seed state with nobody logged in, and the seed's ids are unique |
| ClubApp.App.Login | app.tsx:55-64 | matching credentials make that user current; otherwise the current user is unchanged; the data is untouched |
| ClubApp.App.Logout | app.tsx:66-70 | nobody is current and the live slot is empty |
| ClubApp.App.Dispatch | app.tsx:72-191 | for every handler but voting and `logout`, the data becomes the handler's new state; the current user is unchanged; unique ids are kept |
| ClubApp.App.Vote | app.tsx:193-218 | as `VoteMotm` for the current user, and the set of completed ids is unchanged |

## Left out

- Rendering: the JSX, the view switch, editing and voting panels, and the form-reset calls are not modelled, since they do not change the club state.
- Storage: the load of `localStorage` in `initializeData` and the save effect are not modelled. The model starts from the seed, as when nothing is stored.
- Dialogs: `alert` is the unchanged-state path. A `confirm` on delete is asked before the call, so `DeletePlayer` and `DeleteFixture` are the confirmed case.
- Clock ids: `Date.now()` ids are parameters. They are required to be fresh, so two additions within one millisecond are not modelled.
- Score parsing: from the score inputs, `parseInt` may yield `NaN`; a score is an unbounded integer.
- Player numbers: `Player.number` is the typed text (a string), which the `!newPlayer.number` check requires. The seed's numeric 9, 7 and 4 are written "9", "7", "4".
- TopEntry: the tie-break among equally voted players stays open. The source takes the first key in `Object.entries` enumeration order after a stable sort; the model only promises a top-voted key.
- RankEntries: among tied counts the source keeps `Object.entries` enumeration order after a stable sort, but the model leaves that order unspecified.
- Player names: looking up a player name for a leaderboard row (`app.tsx:808`) is display only.
- Edit rights: `canEdit` gates only which buttons are shown. No handler checks it, so `Dispatch` does not require it.
- FixturePatch and PlayerPatch: they have no id field. An edit form that changes a record's id is not modelled.
- StartLiveMatch: the source reads the fixture from the render-time `data` rather than from `prev`. The model uses the current state, which assumes no pending update in between.
- StartLiveMatch, UpdateLiveScore, AddScorer, EndLiveMatch and App.Vote: they require the fixture, the live slot or the current user to exist. The source would throw on a missing one, and those crashes are not modelled.
- UpdateFixture: a patch may set the status to completed directly, so `OnlyEndCompletes` excludes that case.
- OnlyEndCompletes: a score or scorer write copies the live copy's status back over the fixture, so a fixture edited away from completed while it is live becomes completed again on the next write. The lemma therefore counts a completed live copy's id as already completed, and does not promise that a fixture's own status only turns completed through `endLiveMatch`.
