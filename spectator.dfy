/** Spectators: for each match, the set of socket ids watching it. A match
    with no spectators left has no entry. Joining the socket rooms that
    carry the broadcasts is not modelled. */
module Spectators {
  import opened Wrappers
  import opened MatchManagement

  /** The table after `socketId` joins `matchId`. */
  function Joined(ss: map<string, set<string>>, matchId: string, socketId: string): map<string, set<string>> {
    ss[matchId := (if matchId in ss then ss[matchId] else {}) + {socketId}]
  }

  /** The table after `socketId` leaves `matchId`, which has an entry: the
      entry goes once its set is empty. */
  function Left(ss: map<string, set<string>>, matchId: string, socketId: string): map<string, set<string>>
    requires matchId in ss
  {
    var rest := ss[matchId] - {socketId};
    if rest == {} then ss - {matchId} else ss[matchId := rest]
  }

  /** The table after `socketId` disconnects: it leaves every set it is in,
      and a set it empties goes. */
  function WithoutSocket(ss: map<string, set<string>>, socketId: string): map<string, set<string>> {
    map k | k in ss && !(socketId in ss[k] && ss[k] - {socketId} == {}) :: ss[k] - {socketId}
  }

  /** The table part-way through the disconnect loop: the keys in `pending`
      are still to be visited. */
  function Visited(ss: map<string, set<string>>, socketId: string, pending: set<string>): map<string, set<string>> {
    map k | k in ss && (k in pending || !(socketId in ss[k] && ss[k] - {socketId} == {}))
      :: if k in pending then ss[k] else ss[k] - {socketId}
  }

  /** The number of spectators of a match. */
  function SpectatorCount(ss: map<string, set<string>>, matchId: string): nat {
    if matchId in ss then |ss[matchId]| else 0
  }

  /** No match has an empty set of spectators. */
  predicate NoEmptySets(ss: map<string, set<string>>) {
    forall k | k in ss :: ss[k] != {}
  }

  class SpectatorManager {
    const matchManager: MatchManager
    var spectators: map<string, set<string>>

    ghost predicate Valid()
      reads this
    {
      NoEmptySets(spectators)
    }

    constructor(matchManager: MatchManager)
      ensures this.matchManager == matchManager && spectators == map[] && Valid()
    {
      this.matchManager := matchManager;
      spectators := map[];
    }

    /** `joinMatch`: only a match the match table knows can be watched. */
    method JoinMatch(socketId: string, matchId: string) returns (ok: bool)
      modifies this
      requires Valid()
      ensures Valid()
      ensures ok <==> matchManager.GetMatch(matchId).Some?
      ensures spectators == if ok then Joined(old(spectators), matchId, socketId) else old(spectators)
    {
      var m := matchManager.GetMatch(matchId);
      if m.None? {
        return false;
      }
      if matchId !in spectators {
        spectators := spectators[matchId := {}];
      }
      spectators := spectators[matchId := spectators[matchId] + {socketId}];
      return true;
    }

    /** `leaveMatch`: succeeds for any match with spectators, whether or not
        this socket was one of them. */
    method LeaveMatch(socketId: string, matchId: string) returns (ok: bool)
      modifies this
      requires Valid()
      ensures Valid()
      ensures ok <==> matchId in old(spectators)
      ensures spectators == if ok then Left(old(spectators), matchId, socketId) else old(spectators)
    {
      if matchId !in spectators {
        return false;
      }
      var spectatorSet := spectators[matchId] - {socketId};
      spectators := spectators[matchId := spectatorSet];
      if |spectatorSet| == 0 {
        spectators := spectators - {matchId};
      }
      return true;
    }

    /** `removeSpectator`: visits every match, taking the socket out of the
        sets that hold it and deleting the sets that become empty. */
    method RemoveSpectator(socketId: string)
      modifies this
      requires Valid()
      ensures Valid()
      ensures spectators == WithoutSocket(old(spectators), socketId)
    {
      ghost var start := spectators;
      var pending := spectators.Keys;
      while pending != {}
        invariant pending <= start.Keys
        invariant spectators == Visited(start, socketId, pending)
        decreases pending
      {
        var matchId :| matchId in pending;
        VisitedPending(start, socketId, pending, matchId);
        VisitedStep(start, socketId, pending - {matchId}, matchId);
        assert pending - {matchId} + {matchId} == pending;
        var spectatorSet := spectators[matchId];
        if socketId in spectatorSet {
          spectatorSet := spectatorSet - {socketId};
          spectators := spectators[matchId := spectatorSet];
          if |spectatorSet| == 0 {
            spectators := spectators - {matchId};
          }
        }
        pending := pending - {matchId};
      }
      assert Visited(start, socketId, {}) == WithoutSocket(start, socketId);
    }

    /** `getSpectatorCount`: the size of the set, 0 without one. */
    function GetSpectatorCount(matchId: string): nat
      reads this
    {
      SpectatorCount(spectators, matchId)
    }
  }

  // ---------------------------------------------------------------------
  // Properties

  /** A key still to be visited keeps its set. */
  lemma VisitedPending(ss: map<string, set<string>>, socketId: string, pending: set<string>, k: string)
    requires k in ss && k in pending
    ensures k in Visited(ss, socketId, pending) && Visited(ss, socketId, pending)[k] == ss[k]
  {
  }

  /** Visiting one more key of the disconnect loop. */
  lemma VisitedStep(ss: map<string, set<string>>, socketId: string, pending: set<string>, k: string)
    requires k in ss && k !in pending
    ensures Visited(ss, socketId, pending) ==
              var before := Visited(ss, socketId, pending + {k});
              if socketId !in ss[k] then before
              else if ss[k] - {socketId} == {} then before[k := ss[k] - {socketId}] - {k}
              else before[k := ss[k] - {socketId}]
  {
    var now := Visited(ss, socketId, pending);
    var before := Visited(ss, socketId, pending + {k});
    var expected :=
      if socketId !in ss[k] then before
      else if ss[k] - {socketId} == {} then before[k := ss[k] - {socketId}] - {k}
      else before[k := ss[k] - {socketId}];
    assert now.Keys == expected.Keys;
    forall j | j in now ensures now[j] == expected[j] {
      if j == k && socketId !in ss[k] {
        assert ss[k] - {socketId} == ss[k];
      }
    }
  }

  /** Joining twice is joining once. */
  lemma JoinIdempotent(ss: map<string, set<string>>, matchId: string, socketId: string)
    ensures Joined(Joined(ss, matchId, socketId), matchId, socketId) == Joined(ss, matchId, socketId)
  {
  }

  /** Joining, leaving and disconnecting never leave an empty set behind. */
  lemma NoEmptySetsKept(ss: map<string, set<string>>, matchId: string, socketId: string)
    requires NoEmptySets(ss)
    ensures NoEmptySets(Joined(ss, matchId, socketId))
    ensures matchId in ss ==> NoEmptySets(Left(ss, matchId, socketId))
    ensures NoEmptySets(WithoutSocket(ss, socketId))
  {
  }

  /** After a disconnect the socket watches nothing, every other spectator
      still watches what it watched, and only matches the socket was the
      last spectator of lose their entry. */
  lemma DisconnectRemovesOnlySocket(ss: map<string, set<string>>, socketId: string, matchId: string, other: string)
    requires NoEmptySets(ss)
    requires other != socketId
    ensures matchId in WithoutSocket(ss, socketId) ==> socketId !in WithoutSocket(ss, socketId)[matchId]
    ensures matchId in ss && other in ss[matchId] ==>
              matchId in WithoutSocket(ss, socketId) && other in WithoutSocket(ss, socketId)[matchId]
    ensures matchId in ss && matchId !in WithoutSocket(ss, socketId) ==> ss[matchId] == {socketId}
  {
    if matchId in ss && other in ss[matchId] {
      assert other in ss[matchId] - {socketId};
    }
  }

  /** A join counts the socket once: the count grows by one for a new
      spectator and stays for one already there. Leaving takes the socket
      off the count, down to 0 when the entry goes. */
  lemma CountsFollowSets(ss: map<string, set<string>>, matchId: string, socketId: string)
    ensures SpectatorCount(Joined(ss, matchId, socketId), matchId) ==
              SpectatorCount(ss, matchId) + (if matchId in ss && socketId in ss[matchId] then 0 else 1)
    ensures matchId in ss ==>
              SpectatorCount(Left(ss, matchId, socketId), matchId) ==
                SpectatorCount(ss, matchId) - (if socketId in ss[matchId] then 1 else 0)
  {
  }
}
