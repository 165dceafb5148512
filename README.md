# Dice-battle lobby engine — a Dafny model

This project models the game engine of `server.js`, a realtime lobby for a
two-player dice-combat game. Players log in with a permanent id and are then
AVAILABLE. One player invites another. The two stay BUSY until the invite is
accepted, declined or times out. An accepted invite starts a match session,
and both players become PLAYING. Each round both players roll a die. The lower
roller loses ten health points per pip of difference, and health never drops
below 0. When a health reaches 0, the winner gains 100 and the loser pays 100,
and both become AVAILABLE again. The server also derives two views: the lobby,
which lists the connected AVAILABLE players, and the leaderboard, which lists
the top five players by balance.

The files:

- `model.dfy` (module `Model`) holds the values and the rules, as pure
  functions and lemmas:
  - the player record, the presence state and the match session;
  - round resolution (`Strike`), with the winner and loser choice (`Winner`,
    `Loser`);
  - the invite-cooldown key and its 10-second window (`CooldownKey`,
    `CooldownActive`);
  - releasing a registered player to AVAILABLE (`Release`);
  - balance settlement (`Credit`, the guarded update of one balance, and
    `Settle`) and the sum of all balances (`TotalBalance`).
- `projections.dfy` (module `Projections`) holds the two read views as pure
  functions: `Lobby`, and `Leaderboard`, which is built on a stable insertion
  sort.
- `server.dfy` (module `Server`) holds the class `GameServer`:
  - Its fields are the five module-level tables of `server.js`: `players`,
    `socketMap`, `activeGames`, `inviteCooldowns` and `playerStates`. A sixth
    field, `order`, holds the key insertion order that `Object.values`
    follows, and `ValuesIn` lists the records in that order.
  - It has one method per socket handler or inner function. Each method
    updates the tables in place and states the whole new state in terms of the
    old state.
  - `Valid()` is the invariant every method keeps:
    - each record is filed under its own id and has a presence state;
    - every logged-in connection belongs to a registered player;
    - every session in the table has both healths in 1..100 and valid rolls.

The nondeterministic inputs are parameters:
- the clock: `now` of `SendInvite`;
- the die: `roll` of `RollDice`, with `1 <= roll <= 6`;
- the session id: `gameId` of `InviteResponse` and `CreateGame`;
- the connection: `socket`, the socket id an event arrives on.

## Model

| member | source | states |
|---|---|---|
| `Server.GameServer.constructor` | server.js:13-17 | The five tables start empty, which satisfies the invariant. |
| `Server.GameServer.Login` | server.js:23-55 | The connection is mapped to the id. An unknown id gets a new record with the client's balance and is appended to the iteration order. A known id gets the new name, avatar and connection, and the larger of the server and client balances. Either way the player's state becomes AVAILABLE. Sessions and cooldowns are untouched. |
| `Server.GameServer.SendInvite` | server.js:58-88 | An unknown sender, a sender whose id is falsy, or an unknown target leaves everything unchanged. Otherwise the cooldown is checked first, then whether both players are AVAILABLE, and either rejection leaves everything unchanged. Only a delivered invite changes state: both players become BUSY and the pair's cooldown key is set to `now`. Nothing else changes. |
| `Server.GameServer.InviteTimeout` | server.js:90-95 | If both players are still BUSY, both become AVAILABLE. Otherwise the states are unchanged. It never touches sessions, records or cooldowns. |
| `Server.GameServer.InviteResponse` | server.js:99-113 | Accept creates the session and sets both players PLAYING only when both are registered. It does not check that they were BUSY. Decline releases each of the two players that is registered. |
| `Server.GameServer.CreateGame` | server.js:115-135 | If both players are registered, both become PLAYING and a new session with full health and no rolls is stored under the id. If either is missing, nothing changes. |
| `Server.GameServer.RollDice` | server.js:138-158 | An unknown session changes nothing. Otherwise only the roller's own pending roll is overwritten; a connection that is neither participant changes nothing. The result is true exactly when both rolls are now pending, which is when a round resolution is scheduled. |
| `Server.GameServer.CalculateRound` | server.js:160-192 | An unknown session changes nothing. Otherwise the round's damage is applied. If a health is now 0, the game is settled for the survivor and the session is removed. If not, both rolls are cleared and the session stays. |
| `Server.GameServer.EndGame` | server.js:194-217 | The loser is the participant other than the winner. Balances become `Settle` of the old ones, and the sum of all balances is unchanged when both players are registered. Each registered participant becomes AVAILABLE, and the session is removed. |
| `Server.GameServer.Disconnect` | server.js:219-230 | For a logged-in connection with a truthy id, only the connection's entry and the player's socket are cleared. The record, the presence state, the sessions and the cooldowns are kept. Any other connection changes nothing. |
| `Server.GameServer.LobbyPlayers` | server.js:232-234 | The lobby holds exactly the registered players that are connected and AVAILABLE. It is a subsequence of the records in iteration order, so it keeps their order and takes no record more often than the iteration lists it. |
| `Server.GameServer.LeaderboardView` | server.js:236-240 | The board has min(5, n) entries for n registered players. It is a sub-multiset of the records, in non-increasing balance order. Every registered player left off the board has no more than anyone on it. With fewer than five entries, every registered player is on the board. |
| `Server.BoardOf` | server.js:236-240 | Over a registry whose iteration order lists every key: min(5, n) entries, a sub-multiset of the records, sorted; anyone left off has no more than anyone on the board; a board of fewer than five holds everyone. |
| `Server.ValuesInCovers` | server.js:233 | The records in iteration order are exactly the registry's values. |
| `Projections.Lobby` | server.js:232-234 | A player is in the result exactly when it is in the input, connected and AVAILABLE. The result keeps the input order: it is a subsequence of the input. |
| `Projections.InsertSorted` | server.js:237-238 | Inserting a player into a list sorted by non-increasing balance keeps it sorted; `Projections.Insert` adds exactly that player. |
| `Projections.SortByBalance` | server.js:237-238 | The result is sorted by non-increasing balance and is a permutation of the input. |
| `Projections.Leaderboard` | server.js:236-240 | The result has min(5, n) entries, is sorted by non-increasing balance, and is a sub-multiset of the input. |
| `Projections.LeaderboardMembership` | server.js:236-240 | The board holds only input players, and every player left off is at or below every entry. A board shorter than 5 holds every input player. |
| `Model.NewGame` | server.js:122-126 | A new session has the two given participants, no pending rolls and both healths at 100, so it is live. |
| `Model.RollValue` | server.js:165-169 | A pending roll as the comparisons see it: a missing roll counts as 0, a die face as itself, so a valid roll reads as 0..6. |
| `Model.Strike` | server.js:164-173 | The participants and rolls are kept. Each health stays between 0 and its old value. The higher or equal roller keeps its health. The health lost is the roll difference times 10, unless the floor at 0 cut it short. The two healths are never both 0. |
| `Model.EndingRoundNamesHigherRoller` | server.js:184-186 | If a round ends the game, the named winner rolled higher and keeps its health, and the other participant is at 0. For distinct participants, winner and loser are the two participants. |
| `Model.ContinuingRoundStaysLive` | server.js:184-188 | If a round does not end the game, the session with its rolls cleared is still live: both healths are in 1..100. |
| `Model.SampleRounds` | server.js:164-173 | Rolls of (6, 2) take p2 from 100 to 60. Rolls of (1, 6) then take p1 to 50. |
| `Model.CooldownWindow` | server.js:66-80 | After an invite recorded at `now`, the same pair is blocked exactly while `later < now + 10000`. |
| `Model.CooldownKeyInjective` | server.js:66 | When neither sender id contains an underscore, equal keys mean equal ordered pairs. |
| `Model.CooldownKeyShared` | server.js:66-67 | Two different ordered pairs, ("a_b", "c") and ("a", "b_c"), share one key. So an invite between one pair blocks the other pair too. |
| `Model.SettleEffect` | server.js:196-205 | Only balances change, and only the two participants' balances. A winner distinct from the loser gets +100, and the loser gets −100. A player settled against itself is unchanged. |
| `Model.SettleTotal` | server.js:198-205 | The sum of all balances moves by +100 if the winner is registered and by −100 if the loser is. So the sum is conserved when both are registered. |

## Behaviour of the code worth knowing

- **Cooldown key.** `server.js` keys the cooldown table by the joined string
  `sender + "_" + target`. Ids that contain `_` can therefore share one
  cooldown window (`Model.CooldownKeyShared`).
- **createGame with a missing player.** Records are never removed, so a
  missing player is an id that never logged in. When either id is not
  registered, `createGame` just returns and changes nothing. Neither player is
  set PLAYING, and the registered one keeps whatever state it had.
- **Login while playing.** `login` sets the player AVAILABLE unconditionally,
  even while the player is in a running session.
- **Two healths at 0.** The winner expression `p1Health > 0 ? p1 : p2` would
  name p2 if both healths were 0. That case cannot arise: `Model.Strike`
  proves that the two healths are never both 0.
- **Stale disconnect.** When a player has logged in again on a new
  connection, the disconnect of the older connection still clears the
  player's socket. The player then drops out of the lobby although the new
  connection is live.

## Left out

- The express/http/socket.io setup, static files and the listening port (`server.js:1-10, 243-244`): I/O plumbing.
- Every `emit`: the error messages, `receiveInvite`, `gameStart`, `rollResult`, `healthUpdate`, `nextRound`, `gameOver` and the lobby and leaderboard pushes. `SendInvite` and `CalculateRound` return which of these outcomes occurred, but no message text is modelled.
- `setTimeout` scheduling. The invite-timeout and round-resolution callbacks are methods the caller invokes, so timer interleavings and duplicate scheduled rounds are not modelled. `CalculateRound` still reads a missing roll as 0, as the code's comparisons do.
- `Math.random()` and `Date.now()`. The roll, the time and the session id are parameters. The code reads the clock twice in `sendInvite`; the model uses one `now` for both reads.
- The session id `'match_' + Date.now()` is a parameter of `CreateGame`, and it is not required to be new. A repeated id replaces the stored session, as two games created in the same millisecond would in the code.
- JavaScript key coercion. `players[undefined]` reads the key `"undefined"`; the model treats a missing connection as not registered. Ids that name `Object.prototype` members (`constructor`, `toString`, `__proto__`, …) are treated by the code as already registered (server.js:31, 60, 116), and `Object.values` never lists them. The model's maps hold only own keys, so it assumes that no id is such a name, and that no cooldown key `sender_target` is such a name either. Ids `_` and `proto__` give the key `__proto__`, which the code never records, so that pair has no cooldown (server.js:66-67, 80). `Object.values` lists integer-like keys first; the model lists all keys in insertion order.
- Number semantics. Balances are unbounded integers, not floating-point numbers, and ids, names and avatars are strings. Non-string or non-numeric client data is not modelled.
- `Server.GameServer.LeaderboardView`: `SortByBalance` is a stable sort, but no contract states the order among players with equal balances.
