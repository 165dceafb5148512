/** The game engine of server.js as one object: the five module-level tables
    (`players`, `socketMap`, `activeGames`, `inviteCooldowns`, `playerStates`) become
    fields, each socket handler or inner function becomes a method that updates them
    in place. Connections are named by their socket id; the clock, the die and the
    session id are parameters; notifications to clients are not modelled except
    where a handler's outcome is returned. */
module Server {
  import opened Model
  import opened Projections

  /** What sendInvite does with a request. */
  datatype InviteResult =
    | NotSent           // unknown sender or target: silently ignored
    | RejectedCooldown  // the pair's 10 s window is still open: error message to the sender
    | RejectedBusy      // sender or target not AVAILABLE: error message to the sender
    | Delivered         // both set BUSY, invite sent to the target

  /** What calculateRound does with a session. */
  datatype RoundResult =
    | NoSession                             // the session is gone
    | NextRound                             // rolls cleared, both healths positive
    | GameOver(winner: string, loser: string)  // settled and removed

  /** Object.values of the registry: the records in key insertion order. */
  function ValuesIn(order: seq<string>, players: map<string, Player>): (ps: seq<Player>)
    requires forall id :: id in order ==> id in players
    ensures |ps| == |order|
    ensures forall i :: 0 <= i < |order| ==> ps[i] == players[order[i]]
  {
    if order == [] then [] else [players[order[0]]] + ValuesIn(order[1..], players)
  }

  /** Object.values holds exactly the registered records when `order` lists every key. */
  lemma ValuesInCovers(order: seq<string>, players: map<string, Player>)
    requires forall id :: id in order <==> id in players
    ensures forall p :: p in ValuesIn(order, players) <==> p in players.Values
  {
    var ps := ValuesIn(order, players);
    forall p | p in players.Values
      ensures p in ps
    {
      var id :| id in players && players[id] == p;
      var i :| 0 <= i < |order| && order[i] == id;
      assert ps[i] == p;
    }
  }

  /** getLeaderboard over a registry whose iteration order lists every key. */
  function BoardOf(order: seq<string>, players: map<string, Player>): (r: seq<Player>)
    requires forall id :: id in order <==> id in players
    ensures |r| == Min(LeaderboardSize, |order|) && SortedByBalance(r)
    ensures multiset(r) <= multiset(ValuesIn(order, players))
    ensures forall p :: p in r ==> p in players.Values
    ensures forall p :: p in players.Values && p !in r ==>
              forall i :: 0 <= i < |r| ==> p.balance <= r[i].balance
    ensures |r| < LeaderboardSize ==> forall p :: p in players.Values ==> p in r
  {
    var ps := ValuesIn(order, players);
    ValuesInCovers(order, players);
    LeaderboardMembership(ps);
    Leaderboard(ps)
  }

  /** The registry's invariant: each record is filed under its own id and has a
      presence state, every logged-in connection belongs to a registered player,
      and `order` lists every registered id exactly once. */
  ghost predicate RegistryValid(players: map<string, Player>, states: map<string, State>,
                                socketMap: map<string, string>, order: seq<string>)
  {
    && (forall id :: id in players ==> players[id].id == id)
    && (forall id :: id in states <==> id in players)
    && (forall s :: s in socketMap ==> socketMap[s] in players)
    && (forall i, j :: 0 <= i < j < |order| ==> order[i] != order[j])
    && (forall id :: id in order <==> id in players)
  }

  /** Sessions in the table have both healths in 1..100 and valid rolls. */
  ghost predicate SessionsValid(games: map<string, Game>) {
    forall gid :: gid in games ==> LiveGame(games[gid])
  }

  class GameServer {
    var players: map<string, Player>
    /** The insertion order of `players`' keys, which Object.values follows. */
    var order: seq<string>
    var socketMap: map<string, string>
    var activeGames: map<string, Game>
    var inviteCooldowns: map<string, int>
    var playerStates: map<string, State>

    ghost predicate Valid()
      reads this
    {
      RegistryValid(players, playerStates, socketMap, order) && SessionsValid(activeGames)
    }

    constructor ()
      ensures Valid()
      ensures players == map[] && order == [] && socketMap == map[]
      ensures activeGames == map[] && inviteCooldowns == map[] && playerStates == map[]
    {
      players, order, socketMap := map[], [], map[];
      activeGames, inviteCooldowns, playerStates := map[], map[], map[];
    }

    /** getLobbyPlayers over the current state. */
    function LobbyPlayers(): (r: seq<Player>)
      reads this
      requires Valid()
      ensures forall p :: p in r <==> p in players.Values && Connected(p) && IsAvailable(playerStates, p.id)
      // in iteration order, each record at most once
      ensures Subsequence(r, ValuesIn(order, players))
    {
      ValuesInCovers(order, players);
      Lobby(ValuesIn(order, players), playerStates)
    }

    /** getLeaderboard over the current state. */
    function LeaderboardView(): (r: seq<Player>)
      reads this
      requires Valid()
      ensures |r| == Min(LeaderboardSize, |order|) && SortedByBalance(r)
      ensures multiset(r) <= multiset(ValuesIn(order, players))
      ensures forall p :: p in r ==> p in players.Values
      // a registered player missing from the board has no more than anyone on it
      ensures forall p :: p in players.Values && p !in r ==>
                forall i :: 0 <= i < |r| ==> p.balance <= r[i].balance
      // with fewer than five on the board, everyone is on it
      ensures |r| < LeaderboardSize ==> forall p :: p in players.Values ==> p in r
    {
      BoardOf(order, players)
    }

    /** login: register an unknown id with the client's balance, or refresh a known
        one (name, avatar, connection) keeping the larger of the two balances;
        either way the player becomes AVAILABLE. */
    method Login(socket: string, id: string, name: string, avatar: string, balance: int)
      requires Valid()
      modifies this
      ensures Valid()
      ensures socketMap == old(socketMap)[socket := id]
      ensures id !in old(players) ==>
                && players == old(players)[id := Player(id, name, balance, avatar, Some(socket))]
                && order == old(order) + [id]
      ensures id in old(players) ==>
                && players == old(players)[id := Player(id, name, Max(old(players)[id].balance, balance), avatar, Some(socket))]
                && order == old(order)
      ensures playerStates == old(playerStates)[id := Available]
      ensures activeGames == old(activeGames) && inviteCooldowns == old(inviteCooldowns)
    {
      socketMap := socketMap[socket := id];
      if id !in players {
        assert id !in order;
        players := players[id := Player(id, name, balance, avatar, Some(socket))];
        order := order + [id];
        playerStates := playerStates[id := Available];
      } else {
        var p := players[id].(socketId := Some(socket), name := name, avatar := avatar);
        if balance > p.balance {
          p := p.(balance := balance);
        }
        players := players[id := p];
        playerStates := playerStates[id := Available];
      }
    }

    /** sendInvite from the player logged in on `socket` to `target` at time `now`. */
    method SendInvite(socket: string, target: string, now: int) returns (result: InviteResult)
      requires Valid()
      modifies this
      ensures Valid()
      // unknown sender (or a falsy id) or unknown target: ignored
      ensures result == NotSent <==>
                !(socket in old(socketMap) && Truthy(old(socketMap)[socket]) && target in old(players))
      // otherwise the cooldown is checked first, then both players' availability
      ensures result == RejectedCooldown <==>
                result != NotSent && CooldownActive(old(inviteCooldowns), old(socketMap)[socket], target, now)
      ensures result == RejectedBusy <==>
                && result != NotSent && result != RejectedCooldown
                && !(IsAvailable(old(playerStates), old(socketMap)[socket]) && IsAvailable(old(playerStates), target))
      // only a delivered invite changes anything
      ensures result != Delivered ==> unchanged(this)
      ensures result == Delivered ==>
                var sender := old(socketMap)[socket];
                && playerStates == old(playerStates)[sender := Busy][target := Busy]
                && inviteCooldowns == old(inviteCooldowns)[CooldownKey(sender, target) := now]
                && players == old(players) && order == old(order)
                && socketMap == old(socketMap) && activeGames == old(activeGames)
    {
      if socket !in socketMap || !Truthy(socketMap[socket]) || target !in players {
        return NotSent;
      }
      var sender := socketMap[socket];
      if CooldownActive(inviteCooldowns, sender, target, now) {
        return RejectedCooldown;
      }
      if !IsAvailable(playerStates, sender) || !IsAvailable(playerStates, target) {
        return RejectedBusy;
      }
      playerStates := playerStates[sender := Busy][target := Busy];
      inviteCooldowns := inviteCooldowns[CooldownKey(sender, target) := now];
      result := Delivered;
    }

    /** The 15 s timer body of sendInvite: release both players if both are still BUSY. */
    method InviteTimeout(sender: string, target: string)
      requires Valid()
      modifies this
      ensures Valid()
      ensures playerStates ==
                if IsBusy(old(playerStates), sender) && IsBusy(old(playerStates), target)
                then old(playerStates)[sender := Available][target := Available]
                else old(playerStates)
      ensures players == old(players) && order == old(order) && socketMap == old(socketMap)
      ensures activeGames == old(activeGames) && inviteCooldowns == old(inviteCooldowns)
    {
      if IsBusy(playerStates, sender) && IsBusy(playerStates, target) {
        playerStates := playerStates[sender := Available][target := Available];
      }
    }

    /** inviteResponse from the player logged in on `socket` to an invite from `fromId`:
        accept starts a game under `gameId`, decline releases both registered players. */
    method InviteResponse(socket: string, fromId: string, accepted: bool, gameId: string)
      requires Valid()
      modifies this
      ensures Valid()
      ensures accepted ==>
                if socket in old(socketMap) && fromId in old(players)
                then
                  var receiver := old(socketMap)[socket];
                  && activeGames == old(activeGames)[gameId := NewGame(fromId, receiver)]
                  && playerStates == old(playerStates)[fromId := Playing][receiver := Playing]
                else
                  activeGames == old(activeGames) && playerStates == old(playerStates)
      ensures !accepted ==>
                && activeGames == old(activeGames)
                && playerStates ==
                     if socket in old(socketMap)
                     then Release(Release(old(playerStates), fromId), old(socketMap)[socket])
                     else Release(old(playerStates), fromId)
      ensures players == old(players) && order == old(order) && socketMap == old(socketMap)
      ensures inviteCooldowns == old(inviteCooldowns)
    {
      if accepted {
        if socket in socketMap {
          CreateGame(fromId, socketMap[socket], gameId);
        }
      } else {
        // each of the two that is registered (has a state) becomes AVAILABLE
        playerStates := Release(playerStates, fromId);
        if socket in socketMap {
          playerStates := Release(playerStates, socketMap[socket]);
        }
      }
    }

    /** createGame: when both players are registered, set both PLAYING and store a
        fresh session under `gameId` (replacing any session stored under that id). */
    method CreateGame(p1: string, p2: string, gameId: string)
      requires Valid()
      modifies this
      ensures Valid()
      ensures p1 in old(players) && p2 in old(players) ==>
                && activeGames == old(activeGames)[gameId := NewGame(p1, p2)]
                && playerStates == old(playerStates)[p1 := Playing][p2 := Playing]
      ensures !(p1 in old(players) && p2 in old(players)) ==> unchanged(this)
      ensures players == old(players) && order == old(order) && socketMap == old(socketMap)
      ensures inviteCooldowns == old(inviteCooldowns)
    {
      if p1 !in players || p2 !in players {
        return;
      }
      playerStates := playerStates[p1 := Playing][p2 := Playing];
      activeGames := activeGames[gameId := NewGame(p1, p2)];
    }

    /** rollDice from the player logged in on `socket`: record `roll` as that
        participant's pending roll. Returns whether both rolls are now pending, i.e.
        whether a round resolution gets scheduled. */
    method RollDice(socket: string, gameId: string, roll: int) returns (resolve: bool)
      requires Valid()
      requires 1 <= roll <= 6
      modifies this
      ensures Valid()
      ensures gameId !in old(activeGames) ==> unchanged(this) && !resolve
      ensures gameId in old(activeGames) ==>
                var g := old(activeGames)[gameId];
                var roller: Option<string> := if socket in old(socketMap) then Some(old(socketMap)[socket]) else None;
                && activeGames == old(activeGames)[gameId :=
                     if roller == Some(g.p1) then g.(p1Roll := Some(roll))
                     else if roller == Some(g.p2) then g.(p2Roll := Some(roll))
                     else g]
                && resolve == (activeGames[gameId].p1Roll.Some? && activeGames[gameId].p2Roll.Some?)
      ensures players == old(players) && order == old(order) && socketMap == old(socketMap)
      ensures playerStates == old(playerStates) && inviteCooldowns == old(inviteCooldowns)
    {
      if gameId !in activeGames {
        return false;
      }
      var g := activeGames[gameId];
      var roller: Option<string> := if socket in socketMap then Some(socketMap[socket]) else None;
      if roller == Some(g.p1) {
        g := g.(p1Roll := Some(roll));
      } else if roller == Some(g.p2) {
        g := g.(p2Roll := Some(roll));
      }
      activeGames := activeGames[gameId := g];
      resolve := g.p1Roll.Some? && g.p2Roll.Some?;
    }

    /** calculateRound: apply the round's damage; at a zero health settle the game,
        otherwise clear both rolls for the next round. */
    method CalculateRound(gameId: string) returns (result: RoundResult)
      requires Valid()
      modifies this
      ensures Valid()
      ensures gameId !in old(activeGames) ==> result == NoSession && unchanged(this)
      ensures gameId in old(activeGames) ==>
                var g := old(activeGames)[gameId];
                var s := Strike(g);
                if s.p1Health == 0 || s.p2Health == 0 then
                  var w := Winner(s);
                  var l := Loser(g, w);
                  && result == GameOver(w, l)
                  && activeGames == old(activeGames) - {gameId}
                  && players == Settle(old(players), w, l)
                  && playerStates == Release(Release(old(playerStates), w), l)
                else
                  && result == NextRound
                  && activeGames == old(activeGames)[gameId := s.(p1Roll := None, p2Roll := None)]
                  && players == old(players) && playerStates == old(playerStates)
      ensures order == old(order) && socketMap == old(socketMap) && inviteCooldowns == old(inviteCooldowns)
    {
      if gameId !in activeGames {
        return NoSession;
      }
      var g := activeGames[gameId];
      var s := Strike(g);
      if s.p1Health == 0 || s.p2Health == 0 {
        // endGame reads only the participants, and drops the session with its healths
        var w := Winner(s);
        var l := EndGame(gameId, w);
        result := GameOver(w, l);
      } else {
        ContinuingRoundStaysLive(g);
        activeGames := activeGames[gameId := s.(p1Roll := None, p2Roll := None)];
        result := NextRound;
      }
    }

    /** endGame: the winner gains 100, the loser (the other participant) pays 100,
        each registered one becomes AVAILABLE, and the session is removed. */
    method EndGame(gameId: string, winner: string) returns (loser: string)
      requires Valid()
      requires gameId in activeGames
      modifies this
      ensures Valid()
      ensures loser == Loser(old(activeGames)[gameId], winner)
      ensures players == Settle(old(players), winner, loser)
      // the money on the table moves from one participant to the other
      ensures winner in old(players) && loser in old(players) ==>
                TotalBalance(players) == TotalBalance(old(players))
      ensures playerStates == Release(Release(old(playerStates), winner), loser)
      ensures activeGames == old(activeGames) - {gameId}
      ensures order == old(order) && socketMap == old(socketMap) && inviteCooldowns == old(inviteCooldowns)
    {
      var g := activeGames[gameId];
      loser := if winner == g.p1 then g.p2 else g.p1;
      // each participant still registered is credited and released, winner first
      var ps := Credit(Credit(players, winner, Stake), loser, -Stake);
      var states := Release(Release(playerStates, winner), loser);
      SettleTotal(players, winner, loser);
      players, playerStates, activeGames := ps, states, activeGames - {gameId};
    }

    /** disconnect of `socket`: forget the connection and clear the player's socket,
        keeping the record and its presence state. */
    method Disconnect(socket: string)
      requires Valid()
      modifies this
      ensures Valid()
      ensures socket in old(socketMap) && Truthy(old(socketMap)[socket]) ==>
                var id := old(socketMap)[socket];
                && socketMap == old(socketMap) - {socket}
                && players == old(players)[id := old(players)[id].(socketId := None)]
      ensures !(socket in old(socketMap) && Truthy(old(socketMap)[socket])) ==> unchanged(this)
      ensures order == old(order) && playerStates == old(playerStates)
      ensures activeGames == old(activeGames) && inviteCooldowns == old(inviteCooldowns)
    {
      if socket in socketMap && Truthy(socketMap[socket]) {
        var id := socketMap[socket];
        socketMap := socketMap - {socket};
        if id in players {
          players := players[id := players[id].(socketId := None)];
        }
      }
    }
  }
}
