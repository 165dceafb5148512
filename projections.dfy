/** The two read views server.js pushes after every change: the lobby (players
    that can be invited) and the leaderboard (top five by balance). Both are
    functions of the registry's values in iteration order and of the presence map. */
module Projections {
  import opened Model

  const LeaderboardSize := 5

  function Min(a: int, b: int): (m: int)
    ensures m <= a && m <= b && (m == a || m == b)
  {
    if a <= b then a else b
  }

  /** `p.socketId` used as a condition: null and the empty string are falsy. */
  predicate Connected(p: Player) {
    p.socketId.Some? && p.socketId.value != ""
  }

  /** The filter of getLobbyPlayers. */
  predicate InLobby(p: Player, states: map<string, State>) {
    Connected(p) && IsAvailable(states, p.id)
  }

  /** `a` is `b` with some elements left out, the rest in the same order. */
  predicate Subsequence(a: seq<Player>, b: seq<Player>)
    decreases |b|
  {
    a == [] || (b != [] && if a[0] == b[0] then Subsequence(a[1..], b[1..]) else Subsequence(a, b[1..]))
  }

  /** getLobbyPlayers: exactly the connected AVAILABLE players, in iteration order. */
  function Lobby(ps: seq<Player>, states: map<string, State>): (r: seq<Player>)
    ensures forall p :: p in r <==> p in ps && InLobby(p, states)
    ensures Subsequence(r, ps)
  {
    if ps == [] then []
    else if InLobby(ps[0], states) then [ps[0]] + Lobby(ps[1..], states)
    else Lobby(ps[1..], states)
  }

  /** Non-increasing by balance. */
  predicate SortedByBalance(s: seq<Player>) {
    forall i, j :: 0 <= i < j < |s| ==> s[i].balance >= s[j].balance
  }

  /** Puts `p` in front of the first player whose balance is not above its own. */
  function Insert(p: Player, s: seq<Player>): (r: seq<Player>)
    ensures multiset(r) == multiset(s) + multiset{p}
  {
    if s == [] || p.balance >= s[0].balance then [p] + s
    else
      assert s == [s[0]] + s[1..];
      [s[0]] + Insert(p, s[1..])
  }

  /** A player at least as rich as everyone in a sorted list can head it. */
  lemma ConsSorted(x: Player, rest: seq<Player>)
    requires SortedByBalance(rest)
    requires forall y :: y in rest ==> y.balance <= x.balance
    ensures SortedByBalance([x] + rest)
  {
    var r := [x] + rest;
    forall i, j | 0 <= i < j < |r|
      ensures r[i].balance >= r[j].balance
    {
      assert r[j] == rest[j - 1];
      if i > 0 {
        assert r[i] == rest[i - 1];
      }
    }
  }

  /** Inserting into a sorted list keeps it sorted. */
  lemma {:induction false} InsertSorted(p: Player, s: seq<Player>)
    requires SortedByBalance(s)
    ensures SortedByBalance(Insert(p, s))
  {
    if s != [] && p.balance < s[0].balance {
      var rest := Insert(p, s[1..]);
      InsertSorted(p, s[1..]);
      forall x | x in rest
        ensures x.balance <= s[0].balance
      {
        assert x in multiset(rest);
        if x != p {
          assert x in multiset(s[1..]);
        }
      }
      ConsSorted(s[0], rest);
    } else if s != [] {
      ConsSorted(p, s);
    }
  }

  /** The comparator sort of getLeaderboard, `b.balance - a.balance`: descending. */
  function SortByBalance(ps: seq<Player>): (r: seq<Player>)
    ensures SortedByBalance(r)
    ensures multiset(r) == multiset(ps)
  {
    if ps == [] then []
    else
      assert ps == [ps[0]] + ps[1..];
      var rest := SortByBalance(ps[1..]);
      InsertSorted(ps[0], rest);
      Insert(ps[0], rest)
  }

  /** getLeaderboard: the first five of the players sorted by balance, descending. */
  function Leaderboard(ps: seq<Player>): (r: seq<Player>)
    ensures |r| == Min(LeaderboardSize, |ps|)
    ensures SortedByBalance(r)
    ensures multiset(r) <= multiset(ps)
  {
    var sorted := SortByBalance(ps);
    assert |sorted| == |ps| by { assert |multiset(sorted)| == |multiset(ps)|; }
    var k := Min(LeaderboardSize, |ps|);
    assert sorted == sorted[..k] + sorted[k..];
    sorted[..k]
  }

  /** A permutation holds the same players. */
  lemma SameMembers(a: seq<Player>, b: seq<Player>)
    requires multiset(a) == multiset(b)
    ensures forall p :: p in a <==> p in b
  {
    forall p | p in a
      ensures p in b
    {
      assert p in multiset(a);
    }
    forall p | p in b
      ensures p in a
    {
      assert p in multiset(b);
    }
  }

  /** Who is on the board: only listed players; every player left off has no more
      than anyone on it; and with fewer than five on the board, everyone is on it. */
  lemma LeaderboardMembership(ps: seq<Player>)
    ensures forall p :: p in Leaderboard(ps) ==> p in ps
    ensures forall p :: p in ps && p !in Leaderboard(ps) ==>
              forall i :: 0 <= i < |Leaderboard(ps)| ==> p.balance <= Leaderboard(ps)[i].balance
    ensures |Leaderboard(ps)| < LeaderboardSize ==> forall p :: p in ps ==> p in Leaderboard(ps)
  {
    var sorted := SortByBalance(ps);
    var r := Leaderboard(ps);
    var k := |r|;
    SameMembers(sorted, ps);
    assert |sorted| == |ps| by { assert |multiset(sorted)| == |multiset(ps)|; }
    assert r == sorted[..k];
    forall p | p in ps && p !in r
      ensures forall i :: 0 <= i < k ==> p.balance <= r[i].balance
    {
      var j :| 0 <= j < |sorted| && sorted[j] == p;
      assert k <= j;
    }
  }
}
