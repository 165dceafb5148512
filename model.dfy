/** Values of the dice-battle lobby (server.js): player records, presence states,
    match sessions, and the pure rules the socket handlers apply to them — round
    resolution, the invite cooldown key and the balance settlement at game end. */
module Model {

  datatype Option<T> = None | Some(value: T)

  /** Presence of a registered player (the values of `playerStates`). */
  datatype State = Available | Busy | Playing

  /** A registered player. `socketId` is the player's last connection; it becomes
      None when that connection goes away, the record itself is kept. */
  datatype Player = Player(id: string, name: string, balance: int, avatar: string, socketId: Option<string>)

  /** A match session. A roll of None is a roll not yet submitted this round. */
  datatype Game = Game(p1: string, p2: string, p1Roll: Option<int>, p2Roll: Option<int>, p1Health: int, p2Health: int)

  const StartHealth := 100
  const DamagePerPip := 10
  const CooldownMillis := 10000
  const Stake := 100

  function Max(a: int, b: int): (m: int)
    ensures m >= a && m >= b && (m == a || m == b)
  {
    if a >= b then a else b
  }

  function Abs(x: int): (a: int)
    ensures a >= 0 && (a == x || a == -x)
  {
    if x >= 0 then x else -x
  }

  /** A user id used as a JavaScript condition: the empty string is falsy. */
  predicate Truthy(id: string) {
    id != ""
  }

  /** `playerStates[id] === 'AVAILABLE'` (an id without a state compares unequal). */
  predicate IsAvailable(states: map<string, State>, id: string) {
    id in states && states[id] == Available
  }

  /** `playerStates[id] === 'BUSY'`. */
  predicate IsBusy(states: map<string, State>, id: string) {
    id in states && states[id] == Busy
  }

  /** Sets `id` back to AVAILABLE when it is registered, i.e. has a state. */
  function Release(states: map<string, State>, id: string): (r: map<string, State>)
    ensures r.Keys == states.Keys
    ensures id in states ==> r[id] == Available
    ensures forall k :: k in states && k != id ==> r[k] == states[k]
  {
    if id in states then states[id := Available] else states
  }

  // ---------------------------------------------------------------- sessions

  /** The session createGame stores: no rolls yet, both healths full. */
  function NewGame(p1: string, p2: string): (g: Game)
    ensures LiveGame(g) && g.p1 == p1 && g.p2 == p2
    ensures g.p1Roll.None? && g.p2Roll.None?
    ensures g.p1Health == StartHealth && g.p2Health == StartHealth
  {
    Game(p1, p2, None, None, StartHealth, StartHealth)
  }

  /** A pending roll is absent or a face of the die. */
  predicate ValidRoll(r: Option<int>) {
    r.None? || 1 <= r.value <= 6
  }

  /** What holds of every session while it is in the session table: both healths
      are positive (a zero health ends the game in the same step) and at most 100. */
  predicate LiveGame(g: Game) {
    && 0 < g.p1Health <= StartHealth
    && 0 < g.p2Health <= StartHealth
    && ValidRoll(g.p1Roll)
    && ValidRoll(g.p2Roll)
  }

  /** A pending roll as a JavaScript relational comparison sees it: null is 0. */
  function RollValue(r: Option<int>): (v: int)
    ensures ValidRoll(r) ==> 0 <= v <= 6
    ensures r.Some? ==> v == r.value
    ensures r.None? ==> v == 0
  {
    if r.Some? then r.value else 0
  }

  /** The damage step of calculateRound: the lower roller loses the difference of
      the rolls times ten, floored at 0; equal rolls change nothing. */
  function Strike(g: Game): (r: Game)
    requires LiveGame(g)
    ensures r.p1 == g.p1 && r.p2 == g.p2 && r.p1Roll == g.p1Roll && r.p2Roll == g.p2Roll
    ensures 0 <= r.p1Health <= g.p1Health && 0 <= r.p2Health <= g.p2Health
    // the higher (or equal) roller keeps its health
    ensures RollValue(g.p1Roll) >= RollValue(g.p2Roll) ==> r.p1Health == g.p1Health
    ensures RollValue(g.p2Roll) >= RollValue(g.p1Roll) ==> r.p2Health == g.p2Health
    // the health lost is the roll difference times ten, unless the floor at 0 cut it short
    ensures var lost := (g.p1Health - r.p1Health) + (g.p2Health - r.p2Health);
            var dmg := Abs(RollValue(g.p1Roll) - RollValue(g.p2Roll)) * DamagePerPip;
            lost <= dmg && (lost == dmg || r.p1Health == 0 || r.p2Health == 0)
    // never both at zero
    ensures r.p1Health > 0 || r.p2Health > 0
  {
    var d1, d2 := RollValue(g.p1Roll), RollValue(g.p2Roll);
    if d1 > d2 then
      g.(p2Health := Max(0, g.p2Health - (d1 - d2) * DamagePerPip))
    else if d2 > d1 then
      g.(p1Health := Max(0, g.p1Health - (d2 - d1) * DamagePerPip))
    else
      g
  }

  /** calculateRound's choice of winner once a health is 0: p1 if it still has health. */
  function Winner(g: Game): string {
    if g.p1Health > 0 then g.p1 else g.p2
  }

  /** endGame's loser: the participant other than the winner. */
  function Loser(g: Game, winner: string): string {
    if winner == g.p1 then g.p2 else g.p1
  }

  /** A round that ends the game ends it for the higher roller: the named winner is the
      participant whose health is still positive, and the other one is at 0. */
  lemma EndingRoundNamesHigherRoller(g: Game)
    requires LiveGame(g)
    requires Strike(g).p1Health == 0 || Strike(g).p2Health == 0
    ensures var s := Strike(g);
            || (s.p2Health == 0 && s.p1Health == g.p1Health && Winner(s) == g.p1
                && RollValue(g.p1Roll) > RollValue(g.p2Roll))
            || (s.p1Health == 0 && s.p2Health == g.p2Health && Winner(s) == g.p2
                && RollValue(g.p2Roll) > RollValue(g.p1Roll))
    ensures g.p1 != g.p2 ==>
              var w := Winner(Strike(g));
              w != Loser(g, w) && {w, Loser(g, w)} == {g.p1, g.p2}
  {
  }

  /** A round that does not end the game leaves a live session once the rolls are cleared. */
  lemma ContinuingRoundStaysLive(g: Game)
    requires LiveGame(g)
    requires Strike(g).p1Health != 0 && Strike(g).p2Health != 0
    ensures LiveGame(Strike(g).(p1Roll := None, p2Roll := None))
  {
  }

  /** Two sample rounds: (6, 2) takes p2 to 60, then (1, 6) takes p1 to 50. */
  lemma SampleRounds()
    ensures var r1 := Strike(Game("A", "B", Some(6), Some(2), 100, 100));
            r1.p1Health == 100 && r1.p2Health == 60
            && var r2 := Strike(r1.(p1Roll := Some(1), p2Roll := Some(6)));
            r2.p1Health == 50 && r2.p2Health == 60
  {
  }

  // ---------------------------------------------------------------- invite cooldown

  /** The cooldown table's key for an invite from `sender` to `target`: the two ids
      joined by an underscore. */
  function CooldownKey(sender: string, target: string): string {
    sender + "_" + target
  }

  /** The cooldown check of sendInvite: fewer than 10 s since the last invite stored
      under the pair's key (a missing key reads as time 0). */
  predicate CooldownActive(cooldowns: map<string, int>, sender: string, target: string, now: int) {
    var k := CooldownKey(sender, target);
    now - (if k in cooldowns then cooldowns[k] else 0) < CooldownMillis
  }

  /** Recording an invite at `now` blocks the same ordered pair for exactly the 10 s
      that follow, and not afterwards. */
  lemma CooldownWindow(cooldowns: map<string, int>, sender: string, target: string, now: int, later: int)
    ensures CooldownActive(cooldowns[CooldownKey(sender, target) := now], sender, target, later)
            <==> later < now + CooldownMillis
  {
  }

  /** The key identifies the ordered pair as long as sender ids contain no underscore. */
  lemma {:induction false} CooldownKeyInjective(s1: string, t1: string, s2: string, t2: string)
    requires '_' !in s1 && '_' !in s2
    requires CooldownKey(s1, t1) == CooldownKey(s2, t2)
    ensures s1 == s2 && t1 == t2
  {
    var k := CooldownKey(s1, t1);
    assert k[|s1|] == '_' && k[|s2|] == '_';
    assert s1 == k[..|s1|] == s2;
    assert t1 == k[|s1| + 1..] == t2;
  }

  /** Without that restriction two different ordered pairs share one key, and so one
      cooldown: an invite from "a_b" to "c" blocks an invite from "a" to "b_c". */
  lemma CooldownKeyShared(now: int)
    ensures ("a_b", "c") != ("a", "b_c")
    ensures CooldownKey("a_b", "c") == CooldownKey("a", "b_c")
    ensures CooldownActive(map[CooldownKey("a_b", "c") := now], "a", "b_c", now + 1)
  {
    assert CooldownKey("a_b", "c") == "a_b_c" == CooldownKey("a", "b_c");
  }

  // ---------------------------------------------------------------- settlement

  /** Adds `delta` to the balance of `id` when it is registered. */
  function Credit(m: map<string, Player>, id: string, delta: int): (r: map<string, Player>)
    ensures r.Keys == m.Keys
    ensures forall k :: k in m ==> r[k].id == m[k].id
  {
    if id in m then m[id := m[id].(balance := m[id].balance + delta)] else m
  }

  /** endGame's balance update: the winner gains the stake, then the loser pays it. */
  function Settle(m: map<string, Player>, winner: string, loser: string): (r: map<string, Player>)
    ensures r.Keys == m.Keys
  {
    Credit(Credit(m, winner, Stake), loser, -Stake)
  }

  /** What settlement does to each record: only balances change, only those of the
      two participants, by +100 for the winner and −100 for the loser; a player
      settled against itself ends where it started. */
  lemma SettleEffect(m: map<string, Player>, winner: string, loser: string)
    ensures var r := Settle(m, winner, loser);
            && (forall k :: k in m ==> r[k] == m[k].(balance := r[k].balance))
            && (forall k :: k in m && k != winner && k != loser ==> r[k] == m[k])
            && (winner != loser && winner in m ==> r[winner].balance == m[winner].balance + Stake)
            && (winner != loser && loser in m ==> r[loser].balance == m[loser].balance - Stake)
            && (winner == loser ==> r == m)
  {
  }

  /** Some key of a non-empty set. */
  ghost function Pick(s: set<string>): (k: string)
    requires s != {}
    ensures k in s
  {
    var k :| k in s; k
  }

  /** The sum of all registered balances. */
  ghost function TotalBalance(m: map<string, Player>): int
    decreases |m|
  {
    if m == map[] then 0
    else
      var k := Pick(m.Keys);
      assert |m - {k}| < |m| by { assert (m - {k}).Keys == m.Keys - {k}; }
      m[k].balance + TotalBalance(m - {k})
  }

  /** The total can be split at any key, not only at the one TotalBalance picks. */
  lemma {:induction false} TotalBalanceSplit(m: map<string, Player>, k: string)
    requires k in m
    ensures TotalBalance(m) == m[k].balance + TotalBalance(m - {k})
    decreases |m|
  {
    var j := Pick(m.Keys);
    if j != k {
      assert (m - {j}).Keys == m.Keys - {j};
      assert (m - {k}).Keys == m.Keys - {k};
      TotalBalanceSplit(m - {j}, k);
      TotalBalanceSplit(m - {k}, j);
      assert m - {j} - {k} == m - {k} - {j};
    }
  }

  /** Crediting a registered player moves the total by exactly the credit. */
  lemma CreditTotal(m: map<string, Player>, id: string, delta: int)
    ensures TotalBalance(Credit(m, id, delta)) == TotalBalance(m) + (if id in m then delta else 0)
  {
    if id in m {
      var r := Credit(m, id, delta);
      TotalBalanceSplit(m, id);
      TotalBalanceSplit(r, id);
      assert r - {id} == m - {id};
    }
  }

  /** Settlement moves the total by +100 for a registered winner and −100 for a
      registered loser, so it is conserved when both are registered. */
  lemma SettleTotal(m: map<string, Player>, winner: string, loser: string)
    ensures TotalBalance(Settle(m, winner, loser))
            == TotalBalance(m) + (if winner in m then Stake else 0) - (if loser in m then Stake else 0)
    ensures winner in m && loser in m ==> TotalBalance(Settle(m, winner, loser)) == TotalBalance(m)
  {
    CreditTotal(m, winner, Stake);
    CreditTotal(Credit(m, winner, Stake), loser, -Stake);
  }
}
