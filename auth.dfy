/** The registry of logged-in players, indexed both by player id and by
    socket id. Login checks the username first; the session token it
    hands out is not modelled. */
module Auth {
  import opened Wrappers
  import opened Text
  import opened KeyOrder
  import opened Players

  const MinUsernameLength := 3
  const MaxUsernameLength := 20

  datatype UsernameError = BadLength | NotAlphanumeric

  predicate IsAlphanumeric(c: char) {
    IsAsciiLetter(c) || IsDigit(c)
  }

  /** The end of the run of ASCII letters and digits starting at `i`. */
  function AlphanumericEnd(s: string, i: nat): (e: nat)
    requires i <= |s|
    ensures i <= e <= |s|
    decreases |s| - i
  {
    if i < |s| && IsAlphanumeric(s[i]) then AlphanumericEnd(s, i + 1) else i
  }

  lemma {:induction false} AlphanumericRun(s: string, i: nat)
    requires i <= |s|
    ensures forall k | i <= k < AlphanumericEnd(s, i) :: IsAlphanumeric(s[k])
    ensures AlphanumericEnd(s, i) < |s| ==> !IsAlphanumeric(s[AlphanumericEnd(s, i)])
    decreases |s| - i
  {
    if i < |s| && IsAlphanumeric(s[i]) {
      AlphanumericRun(s, i + 1);
    }
  }

  /** `validateUsername`: the length is checked before the characters
      (`/^[a-zA-Z0-9]+$/`, a run of letters and digits from the start to the
      end). */
  function ValidateUsername(username: string): (r: Option<UsernameError>)
    ensures r.None? <==>
              MinUsernameLength <= |username| <= MaxUsernameLength
              && forall k | 0 <= k < |username| :: IsAlphanumeric(username[k])
    ensures r == Some(BadLength) <==> |username| < MinUsernameLength || |username| > MaxUsernameLength
  {
    AlphanumericRun(username, 0);
    if |username| < MinUsernameLength || |username| > MaxUsernameLength then Some(BadLength)
    else if !(|username| > 0 && AlphanumericEnd(username, 0) == |username|) then Some(NotAlphanumeric)
    else None
  }

  class AuthManager {
    var players: map<string, Player>
    var bySocket: map<string, Player>
    /** The keys of `players` in insertion order. */
    var order: seq<string>

    /** Each player is stored under its id, and each socket id leads to a
        player whose socket id it is. */
    ghost predicate Valid()
      reads this, bySocket.Values
    {
      && Orders(order, players)
      && (forall k | k in players :: players[k].id == k)
      && (forall s | s in bySocket :: bySocket[s].socketId == s)
    }

    constructor()
      ensures Valid() && players == map[] && bySocket == map[] && order == []
    {
      players := map[];
      bySocket := map[];
      order := [];
    }

    /** The player stored under the id, as a frame. */
    function Entry(playerId: string): set<Player>
      reads this
    {
      if playerId in players then {players[playerId]} else {}
    }

    /** `login`, with the new player's id and the clock given. */
    method Login(username: string, socketId: string, id: string, now: int) returns (r: Result<Player, UsernameError>)
      requires Valid()
      modifies this
      ensures Valid()
      ensures ValidateUsername(username).Some? ==>
                r == Err(ValidateUsername(username).value)
                && players == old(players) && bySocket == old(bySocket) && order == old(order)
      ensures ValidateUsername(username).None? ==>
                && r.Ok? && fresh(r.value)
                && r.value.id == id && r.value.username == username && r.value.socketId == socketId
                && r.value.status == Online
                && players == old(players)[id := r.value]
                && bySocket == old(bySocket)[socketId := r.value]
                && order == Inserted(old(order), id)
    {
      var validation := ValidateUsername(username);
      if validation.Some? {
        return Err(validation.value);
      }
      var player := new Player(id, username, socketId, now);
      InsertedOrders(order, players, id, player);
      players := players[id := player];
      bySocket := bySocket[socketId := player];
      order := Inserted(order, id);
      return Ok(player);
    }

    /** `logout`: drops the player and its socket entry. */
    method Logout(playerId: string) returns (ok: bool)
      requires Valid()
      modifies this
      ensures Valid()
      ensures ok <==> playerId in old(players)
      ensures !ok ==> players == old(players) && bySocket == old(bySocket) && order == old(order)
      ensures ok ==>
                && players == old(players) - {playerId}
                && bySocket == old(bySocket) - {old(players[playerId].socketId)}
                && order == Removed(old(order), playerId)
    {
      if playerId !in players {
        return false;
      }
      var player := players[playerId];
      RemovedOrders(order, players, playerId);
      bySocket := bySocket - {player.socketId};
      players := players - {playerId};
      order := Removed(order, playerId);
      return true;
    }

    function GetPlayer(playerId: string): Option<Player>
      reads this
    {
      if playerId in players then Some(players[playerId]) else None
    }

    function GetPlayerBySocketId(socketId: string): Option<Player>
      reads this
    {
      if socketId in bySocket then Some(bySocket[socketId]) else None
    }

    /** `updateSocketId`: moves the player's socket entry to the new id. */
    method UpdateSocketId(playerId: string, socketId: string) returns (ok: bool)
      requires Valid()
      modifies this, Entry(playerId)
      ensures Valid()
      ensures players == old(players) && order == old(order)
      ensures ok <==> playerId in players
      ensures !ok ==> bySocket == old(bySocket)
      ensures ok ==>
                var p := players[playerId];
                && p.socketId == socketId
                && bySocket == (old(bySocket) - {old(p.socketId)})[socketId := p]
    {
      if playerId !in players {
        return false;
      }
      var player := players[playerId];
      ghost var oldSocket := player.socketId;
      bySocket := bySocket - {player.socketId};
      player.socketId := socketId;
      bySocket := bySocket[socketId := player];
      forall s | s in bySocket && s != socketId
        ensures bySocket[s].socketId == s
      {
        assert s in old(bySocket) && s != oldSocket;
        assert old(bySocket[s].socketId) == s;
      }
      return true;
    }

    /** `getAllPlayers`: the stored players in insertion order. */
    function AllPlayers(): seq<Player>
      reads this
    {
      PlayersOf(players, order)
    }
  }

  /** The players stored under the keys, in the keys' order. */
  function PlayersOf(ps: map<string, Player>, keys: seq<string>): (r: seq<Player>)
    ensures forall p | p in r :: p in ps.Values
    decreases |keys|
  {
    if keys == [] then []
    else (if keys[0] in ps then [ps[keys[0]]] else []) + PlayersOf(ps, keys[1..])
  }

  // ---------------------------------------------------------------------
  // Properties

  /** A lookup by id finds the player with that id, and a lookup by socket
      id finds a player connected on that socket. */
  lemma LookupsSound(a: AuthManager, playerId: string, socketId: string)
    requires a.Valid()
    ensures a.GetPlayer(playerId).Some? <==> playerId in a.players
    ensures a.GetPlayer(playerId).Some? ==> a.GetPlayer(playerId).value.id == playerId
    ensures a.GetPlayerBySocketId(socketId).Some? ==> a.GetPlayerBySocketId(socketId).value.socketId == socketId
  {
  }

  /** `getAllPlayers` lists the stored players in insertion order, one per
      id. */
  lemma AllPlayersInOrder(a: AuthManager)
    requires a.Valid()
    ensures |a.AllPlayers()| == |a.order|
    ensures forall i | 0 <= i < |a.order| :: a.AllPlayers()[i] == a.players[a.order[i]] && a.AllPlayers()[i].id == a.order[i]
  {
    PlayersOfListsStored(a.players, a.order);
  }

  /** Every stored player is listed once, in insertion order, and nothing
      else is. */
  lemma {:induction false} PlayersOfListsStored(ps: map<string, Player>, keys: seq<string>)
    requires Orders(keys, ps)
    ensures |PlayersOf(ps, keys)| == |keys|
    ensures forall i | 0 <= i < |keys| :: PlayersOf(ps, keys)[i] == ps[keys[i]]
  {
    PlayersOfIndexed(ps, keys);
  }

  lemma {:induction false} PlayersOfIndexed(ps: map<string, Player>, keys: seq<string>)
    requires forall k | k in keys :: k in ps
    ensures |PlayersOf(ps, keys)| == |keys|
    ensures forall i | 0 <= i < |keys| :: PlayersOf(ps, keys)[i] == ps[keys[i]]
    decreases |keys|
  {
    if keys != [] {
      assert keys[0] in keys;
      assert forall k | k in keys[1..] :: k in keys;
      PlayersOfIndexed(ps, keys[1..]);
    }
  }

  /** Letters, digits and the length bounds: three-letter and twenty-letter
      names are accepted, and a name with an underscore is not. */
  lemma UsernameBoundaries(u: string)
    ensures |u| == 3 && (forall k | 0 <= k < 3 :: IsAlphanumeric(u[k])) ==> ValidateUsername(u).None?
    ensures |u| == 21 ==> ValidateUsername(u) == Some(BadLength)
    ensures MinUsernameLength <= |u| <= MaxUsernameLength && '_' in u ==> ValidateUsername(u) == Some(NotAlphanumeric)
  {
  }
}
