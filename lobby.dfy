/** The lobby: the set of ids of the players waiting in it. Its state, as
    shown to clients, is the registered players who are in the lobby, in
    registration order. */
module Lobby {
  import opened KeyOrder
  import opened Players
  import opened Auth

  datatype LobbyState = LobbyState(players: seq<PublicPlayer>, playerCount: int)

  /** The players whose id is in the lobby, in their order. */
  function InLobby(ps: seq<Player>, lobby: set<string>): seq<Player>
    decreases |ps|
  {
    if ps == [] then []
    else (if ps[0].id in lobby then [ps[0]] else []) + InLobby(ps[1..], lobby)
  }

  /** What clients are shown of each player. */
  function PublicList(ps: seq<Player>): (r: seq<PublicPlayer>)
    reads set p | p in ps
    ensures |r| == |ps|
    ensures forall i | 0 <= i < |ps| :: r[i].id == ps[i].id
    decreases |ps|
  {
    if ps == [] then [] else [ps[0].PublicData()] + PublicList(ps[1..])
  }

  class LobbyManager {
    const auth: AuthManager
    var lobby: set<string>

    constructor(auth: AuthManager)
      ensures this.auth == auth && lobby == {}
    {
      this.auth := auth;
      lobby := {};
    }

    /** `joinLobby`: adding an id already there changes nothing. */
    method JoinLobby(player: Player)
      modifies this
      ensures lobby == old(lobby) + {player.id}
    {
      lobby := lobby + {player.id};
    }

    /** `leaveLobby`: removing an id not there changes nothing. */
    method LeaveLobby(playerId: string)
      modifies this
      ensures lobby == old(lobby) - {playerId}
    {
      lobby := lobby - {playerId};
    }

    predicate IsInLobby(playerId: string)
      reads this
    {
      playerId in lobby
    }

    /** `getLobbyState`: the registered players in the lobby, and how many
        there are. */
    function GetLobbyState(): LobbyState
      reads this, auth, auth.players.Values
    {
      var listed := InLobby(auth.AllPlayers(), lobby);
      InLobbySubset(auth.AllPlayers(), lobby);
      LobbyState(PublicList(listed), |listed|)
    }
  }

  // ---------------------------------------------------------------------
  // Properties

  lemma {:induction false} InLobbySubset(ps: seq<Player>, lobby: set<string>)
    ensures forall p | p in InLobby(ps, lobby) :: p in ps
    decreases |ps|
  {
    if ps != [] {
      InLobbySubset(ps[1..], lobby);
    }
  }

  /** The filter keeps only players whose id is in the lobby. */
  lemma {:induction false} InLobbyMember(ps: seq<Player>, lobby: set<string>, p: Player)
    requires p in InLobby(ps, lobby)
    ensures p in ps && p.id in lobby
    decreases |ps|
  {
    if ps[0] != p || ps[0].id !in lobby {
      InLobbyMember(ps[1..], lobby, p);
    }
  }

  /** The filter keeps every player whose id is in the lobby. */
  lemma {:induction false} InLobbyKeeps(ps: seq<Player>, lobby: set<string>, k: nat)
    requires k < |ps| && ps[k].id in lobby
    ensures ps[k] in InLobby(ps, lobby)
    decreases |ps|
  {
    if k > 0 {
      InLobbyKeeps(ps[1..], lobby, k - 1);
    }
  }

  /** No two players share an id. */
  predicate DistinctIds(ps: seq<Player>) {
    forall i, j | 0 <= i < j < |ps| :: ps[i].id != ps[j].id
  }

  lemma DistinctIdsTail(ps: seq<Player>)
    requires ps != [] && DistinctIds(ps)
    ensures DistinctIds(ps[1..])
  {
    var rest := ps[1..];
    forall i, j | 0 <= i < j < |rest| ensures rest[i].id != rest[j].id {
      assert rest[i] == ps[i + 1] && rest[j] == ps[j + 1];
    }
  }

  lemma DistinctIdsCons(x: Player, t: seq<Player>)
    requires DistinctIds(t) && forall p | p in t :: p.id != x.id
    ensures DistinctIds([x] + t)
  {
    var r := [x] + t;
    forall i, j | 0 <= i < j < |r| ensures r[i].id != r[j].id {
      assert r[j] == t[j - 1] && r[j] in t;
      if i > 0 {
        assert r[i] == t[i - 1];
      }
    }
  }

  /** The head's id is not among the ids of the rest, filtered. */
  lemma HeadNotListedAgain(ps: seq<Player>, lobby: set<string>)
    requires ps != [] && DistinctIds(ps)
    ensures forall p | p in InLobby(ps[1..], lobby) :: p.id != ps[0].id
  {
    var rest := ps[1..];
    forall p | p in InLobby(rest, lobby) ensures p.id != ps[0].id {
      InLobbyMember(rest, lobby, p);
      var m :| 0 <= m < |rest| && rest[m] == p;
      assert rest[m] == ps[m + 1];
    }
  }

  /** Players with different ids keep different ids after the filter. */
  lemma {:induction false} InLobbyDistinct(ps: seq<Player>, lobby: set<string>)
    requires DistinctIds(ps)
    ensures DistinctIds(InLobby(ps, lobby))
    decreases |ps|
  {
    if ps != [] {
      DistinctIdsTail(ps);
      InLobbyDistinct(ps[1..], lobby);
      if ps[0].id in lobby {
        HeadNotListedAgain(ps, lobby);
        DistinctIdsCons(ps[0], InLobby(ps[1..], lobby));
      }
    }
  }

  /** An id is listed after the filter exactly when it is in the lobby and
      some player has it. */
  lemma InLobbyIds(ps: seq<Player>, lobby: set<string>, playerId: string)
    ensures (exists i | 0 <= i < |InLobby(ps, lobby)| :: InLobby(ps, lobby)[i].id == playerId)
              <==> playerId in lobby && exists k | 0 <= k < |ps| :: ps[k].id == playerId
  {
    var r := InLobby(ps, lobby);
    if playerId in lobby && exists k | 0 <= k < |ps| :: ps[k].id == playerId {
      var k :| 0 <= k < |ps| && ps[k].id == playerId;
      InLobbyKeeps(ps, lobby, k);
      var i :| 0 <= i < |r| && r[i] == ps[k];
    }
    if exists i | 0 <= i < |r| :: r[i].id == playerId {
      var i :| 0 <= i < |r| && r[i].id == playerId;
      InLobbyMember(ps, lobby, r[i]);
      var k :| 0 <= k < |ps| && ps[k] == r[i];
    }
  }

  /** Listing the public data keeps the ids that are listed. */
  lemma PublicListIds(ps: seq<Player>, playerId: string)
    ensures (exists i | 0 <= i < |PublicList(ps)| :: PublicList(ps)[i].id == playerId)
              ==> exists i | 0 <= i < |ps| :: ps[i].id == playerId
    ensures (exists i | 0 <= i < |ps| :: ps[i].id == playerId)
              ==> exists i | 0 <= i < |PublicList(ps)| :: PublicList(ps)[i].id == playerId
  {
    var r := PublicList(ps);
    if exists i | 0 <= i < |ps| :: ps[i].id == playerId {
      var i :| 0 <= i < |ps| && ps[i].id == playerId;
      assert r[i].id == playerId;
    }
    if exists i | 0 <= i < |r| :: r[i].id == playerId {
      var i :| 0 <= i < |r| && r[i].id == playerId;
      assert ps[i].id == playerId;
    }
  }

  /** The players listed in key order carry the keys as ids, so an id is
      among them exactly when it is a key. */
  lemma IdsFollowOrder(all: seq<Player>, order: seq<string>, playerId: string)
    requires |all| == |order| && forall k | 0 <= k < |all| :: all[k].id == order[k]
    ensures (exists k | 0 <= k < |all| :: all[k].id == playerId) <==> playerId in order
  {
    if playerId in order {
      var k :| 0 <= k < |order| && order[k] == playerId;
      assert all[k].id == playerId;
    }
  }

  /** The lobby state lists each registered player in the lobby once and
      nobody else, and its count is the length of the list. */
  lemma LobbyStateExact(lm: LobbyManager, playerId: string)
    requires lm.auth.Valid()
    ensures lm.GetLobbyState().playerCount == |lm.GetLobbyState().players|
    ensures (exists i | 0 <= i < |lm.GetLobbyState().players| :: lm.GetLobbyState().players[i].id == playerId)
              ==> playerId in lm.lobby && playerId in lm.auth.players
    ensures (playerId in lm.lobby && playerId in lm.auth.players)
              ==> exists i | 0 <= i < |lm.GetLobbyState().players| :: lm.GetLobbyState().players[i].id == playerId
    ensures var ps := lm.GetLobbyState().players;
            forall i, j | 0 <= i < j < |ps| :: ps[i].id != ps[j].id
  {
    var all := lm.auth.AllPlayers();
    var listed := InLobby(all, lm.lobby);
    assert lm.GetLobbyState() == LobbyState(PublicList(listed), |listed|);
    AllPlayersInOrder(lm.auth);
    IdsFollowOrder(all, lm.auth.order, playerId);
    assert DistinctIds(all);
    InLobbyDistinct(all, lm.lobby);
    InLobbyIds(all, lm.lobby, playerId);
    PublicListIds(listed, playerId);
    var shown := lm.GetLobbyState().players;
    if exists i | 0 <= i < |shown| :: shown[i].id == playerId {
      var i :| 0 <= i < |shown| && shown[i].id == playerId;
      assert listed[i].id == playerId;
      InLobbyMember(all, lm.lobby, listed[i]);
      var k :| 0 <= k < |all| && all[k] == listed[i];
      assert lm.auth.order[k] in lm.auth.order;
    }
  }
}
