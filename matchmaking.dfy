/** Matchmaking: a first-in first-out queue of player ids that is paired off
    two at a time, and private rooms a host opens under a six-character code
    and one guest joins. Players are looked up in the login registry. Match
    ids, room codes and the clock come from the caller. */
module Matchmaking {
  import opened Wrappers
  import opened Text
  import opened KeyOrder
  import opened Players
  import opened Auth
  import opened Matches
  import opened Rooms

  /** `createRoom` draws at most this many codes. */
  const MaxAttempts := 10

  datatype MatchmakingError =
    | PlayerNotFound
    | AlreadyInQueue
    | NoUniqueCode
    | RoomNotFound
    | RoomExpired
    | RoomFull
    | OwnRoom
    | HostNotFound

  /** `indexOf`: the first index of `x`, or -1. */
  function IndexOf(s: seq<string>, x: string): (i: int)
    ensures -1 <= i < |s|
    ensures i == -1 <==> x !in s
    ensures 0 <= i ==> s[i] == x && x !in s[..i]
  {
    if s == [] then -1
    else if s[0] == x then 0
    else
      var j := IndexOf(s[1..], x);
      if j == -1 then -1
      else
        assert s[..j + 1] == [s[0]] + s[1..][..j];
        j + 1
  }

  /** The index of the code the do-while loop of `createRoom` stops at,
      searching from `i`: the first code not yet taken, or the last one
      drawn. */
  function PickIndex(taken: set<string>, codes: seq<string>, i: nat): (j: nat)
    requires i < MaxAttempts <= |codes|
    ensures i <= j < MaxAttempts
    ensures j < MaxAttempts - 1 ==> codes[j] !in taken
    ensures forall k | i <= k < j :: codes[k] in taken
    decreases MaxAttempts - i
  {
    if codes[i] !in taken || i == MaxAttempts - 1 then i else PickIndex(taken, codes, i + 1)
  }

  /** `createRoom` as written: it fails whenever the loop used up all its
      attempts, whether or not the last code drawn is free. */
  function CreateRoomAsWrittenOf(taken: set<string>, codes: seq<string>): Option<string>
    requires MaxAttempts <= |codes|
  {
    var j := PickIndex(taken, codes, 0);
    if j + 1 >= MaxAttempts then None else Some(codes[j])
  }

  /** `createRoom` as intended: it fails only when the code it stopped at is
      taken. */
  function CreateRoomOf(taken: set<string>, codes: seq<string>): Option<string>
    requires MaxAttempts <= |codes|
  {
    var j := PickIndex(taken, codes, 0);
    if codes[j] in taken then None else Some(codes[j])
  }

  /** The rooms after `joinRoom` deletes the room as written: under the code
      as given, although it looked the room up under the code upper-cased. */
  function RoomsAfterJoinAsWritten(rooms: map<string, Room>, roomCode: string): map<string, Room> {
    rooms - {roomCode}
  }

  /** The rooms after `joinRoom` deletes the room it found. */
  function RoomsAfterJoin(rooms: map<string, Room>, roomCode: string): map<string, Room> {
    rooms - {UpperCase(roomCode)}
  }

  /** The rooms the periodic clean-up keeps. */
  function Unexpired(rooms: map<string, Room>, now: int): map<string, Room> {
    map k | k in rooms && !rooms[k].IsExpired(now) :: rooms[k]
  }

  class MatchmakingManager {
    const auth: AuthManager
    var queue: seq<string>
    var rooms: map<string, Room>

    /** Nobody is queued twice, and each room is stored under its code. */
    ghost predicate Valid()
      reads this
    {
      Distinct(queue) && forall k | k in rooms :: rooms[k].code == k
    }

    constructor(auth: AuthManager)
      ensures this.auth == auth && queue == [] && rooms == map[] && Valid()
    {
      this.auth := auth;
      queue := [];
      rooms := map[];
    }

    /** The first two queued players, as a frame. */
    function Front(): set<object>
      reads this, auth
    {
      if |queue| >= 2 then auth.Entry(queue[0]) + auth.Entry(queue[1]) else {}
    }

    /** The room a join looks up, its host and the guest, as a frame. */
    function JoinParts(guestPlayerId: string, roomCode: string): set<object>
      reads this, auth
    {
      var key := UpperCase(roomCode);
      auth.Entry(guestPlayerId)
        + (if key in rooms then {rooms[key]} + auth.Entry(rooms[key].hostPlayerId) else {})
    }

    /** `joinQueue`: a known player not yet queued goes to the back of the
        queue, and its position is returned. */
    method JoinQueue(playerId: string) returns (r: Result<nat, MatchmakingError>)
      requires Valid()
      modifies this, auth.Entry(playerId)
      ensures Valid() && rooms == old(rooms)
      ensures playerId !in auth.players ==> r == Err(PlayerNotFound) && queue == old(queue)
      ensures playerId in auth.players && playerId in old(queue) ==>
                r == Err(AlreadyInQueue) && queue == old(queue) && unchanged(auth.players[playerId])
      ensures playerId in auth.players && playerId !in old(queue) ==>
                && r == Ok(|old(queue)|)
                && queue == old(queue) + [playerId]
                && auth.players[playerId].status == InQueue
    {
      var player := auth.GetPlayer(playerId);
      if player.None? {
        return Err(PlayerNotFound);
      }
      if playerId in queue {
        return Err(AlreadyInQueue);
      }
      ghost var before := queue;
      queue := queue + [playerId];
      player.value.status := InQueue;
      var position := IndexOf(queue, playerId);
      assert queue[..|before|] == before;
      return Ok(position);
    }

    /** `leaveQueue`: takes the player out of the queue, keeping the others
        in order, and puts it back online. */
    method LeaveQueue(playerId: string) returns (ok: bool)
      requires Valid()
      modifies this, auth.Entry(playerId)
      ensures Valid() && rooms == old(rooms)
      ensures ok <==> playerId in old(queue)
      ensures !ok ==> queue == old(queue) && unchanged(auth.Entry(playerId))
      ensures ok ==> queue == Removed(old(queue), playerId)
      ensures ok && playerId in auth.players ==> auth.players[playerId].status == Online
    {
      var index := IndexOf(queue, playerId);
      if index == -1 {
        return false;
      }
      SpliceRemoves(queue, index);
      RemovedDistinct(queue, playerId);
      queue := queue[..index] + queue[index + 1..];
      var player := auth.GetPlayer(playerId);
      if player.Some? {
        player.value.status := Online;
      }
      return true;
    }

    /** `tryMatchPlayers`: pairs the first two queued players. They leave
        the queue even when one of them is no longer registered, in which
        case no match is made. */
    method TryMatchPlayers(matchId: string, now: int) returns (r: Option<Match>)
      requires Valid()
      modifies this, Front()
      ensures Valid() && rooms == old(rooms)
      ensures |old(queue)| < 2 ==> r == None && queue == old(queue)
      ensures |old(queue)| >= 2 ==> queue == old(queue)[2..]
      ensures |old(queue)| >= 2 ==>
                (r.Some? <==> old(queue)[0] in auth.players && old(queue)[1] in auth.players)
      ensures r.Some? ==>
                && fresh(r.value) && r.value.id == matchId
                && r.value.playerA == auth.players[old(queue)[0]]
                && r.value.playerB == auth.players[old(queue)[1]]
                && r.value.Snapshot() == Fresh
                && r.value.playerA.status == InMatch && r.value.playerB.status == InMatch
    {
      if |queue| < 2 {
        return None;
      }
      var playerAId := queue[0];
      var playerBId := queue[1];
      queue := queue[2..];
      var playerA := auth.GetPlayer(playerAId);
      var playerB := auth.GetPlayer(playerBId);
      if playerA.None? || playerB.None? {
        return None;
      }
      var m := new Match(matchId, playerA.value, playerB.value, now);
      return Some(m);
    }

    /** The do-while loop of `createRoom`: draws codes until one is free or
        ten have been drawn. */
    method DrawCode(codes: seq<string>) returns (code: string, attempts: nat)
      requires MaxAttempts <= |codes|
      ensures attempts == PickIndex(rooms.Keys, codes, 0) + 1
      ensures code == codes[attempts - 1]
    {
      code := codes[0];
      attempts := 1;
      while code in rooms && attempts < MaxAttempts
        invariant 1 <= attempts <= MaxAttempts
        invariant code == codes[attempts - 1]
        invariant PickIndex(rooms.Keys, codes, 0) == PickIndex(rooms.Keys, codes, attempts - 1)
      {
        code := codes[attempts];
        attempts := attempts + 1;
      }
    }

    /** `createRoom`, with the random codes given in the order they would be
        drawn: a known host gets a new room under the first free code among
        the first ten. */
    method CreateRoom(hostPlayerId: string, codes: seq<string>, now: int) returns (r: Result<string, MatchmakingError>)
      requires Valid() && MaxAttempts <= |codes|
      modifies this
      ensures Valid() && queue == old(queue)
      ensures hostPlayerId !in auth.players ==> r == Err(PlayerNotFound) && rooms == old(rooms)
      ensures hostPlayerId in auth.players && CreateRoomOf(old(rooms).Keys, codes).None? ==>
                r == Err(NoUniqueCode) && rooms == old(rooms)
      ensures hostPlayerId in auth.players && CreateRoomOf(old(rooms).Keys, codes).Some? ==>
                var c := CreateRoomOf(old(rooms).Keys, codes).value;
                && r == Ok(c) && c in rooms && fresh(rooms[c])
                && rooms == old(rooms)[c := rooms[c]]
                && rooms[c].hostPlayerId == hostPlayerId
                && rooms[c].guestPlayerId == None && rooms[c].matchId == None
                && rooms[c].expiresAt == now + RoomExpiryMs
    {
      var player := auth.GetPlayer(hostPlayerId);
      if player.None? {
        return Err(PlayerNotFound);
      }
      var roomCode, attempts := DrawCode(codes);
      if roomCode in rooms {
        return Err(NoUniqueCode);
      }
      var room := new Room(roomCode, hostPlayerId, now);
      rooms := rooms[roomCode := room];
      return Ok(roomCode);
    }

    /** The first of the checks of `joinRoom` that fails, in the order the
        source makes them, or none when the guest can join. */
    function JoinVerdict(guestPlayerId: string, roomCode: string, now: int): Option<MatchmakingError>
      reads this, auth, rooms.Values
    {
      var key := UpperCase(roomCode);
      if guestPlayerId !in auth.players then Some(PlayerNotFound)
      else if key !in rooms then Some(RoomNotFound)
      else if rooms[key].IsExpired(now) then Some(RoomExpired)
      else if rooms[key].IsFull() then Some(RoomFull)
      else if rooms[key].hostPlayerId == guestPlayerId then Some(OwnRoom)
      else if rooms[key].hostPlayerId !in auth.players then Some(HostNotFound)
      else None
    }

    /** `joinRoom`: the guest joins the room under the code upper-cased, a
        match between host and guest is made, and the room is deleted. An
        expired room is deleted too. When the host is gone the guest stays
        recorded in the room. */
    method JoinRoom(guestPlayerId: string, roomCode: string, matchId: string, now: int)
      returns (r: Result<Match, MatchmakingError>)
      requires Valid()
      modifies this, JoinParts(guestPlayerId, roomCode)
      ensures Valid() && queue == old(queue)
      ensures r.Err? <==> old(JoinVerdict(guestPlayerId, roomCode, now)).Some?
      ensures r.Err? ==> r.error == old(JoinVerdict(guestPlayerId, roomCode, now)).value
      ensures r.Err? && r.error != RoomExpired && r.error != HostNotFound ==> rooms == old(rooms)
      ensures r.Err? && (r.error == RoomFull || r.error == OwnRoom) ==>
                unchanged(old(rooms)[UpperCase(roomCode)])
      ensures r == Err(RoomExpired) ==> rooms == RoomsAfterJoin(old(rooms), roomCode)
      ensures r == Err(HostNotFound) ==>
                var room := old(rooms)[UpperCase(roomCode)];
                rooms == old(rooms) && room.guestPlayerId == Some(guestPlayerId) && room.matchId == old(room.matchId)
      ensures r.Ok? ==>
                var room := old(rooms)[UpperCase(roomCode)];
                && rooms == RoomsAfterJoin(old(rooms), roomCode)
                && room.guestPlayerId == Some(guestPlayerId) && room.matchId == Some(matchId)
                && fresh(r.value) && r.value.id == matchId
                && r.value.playerA == auth.players[room.hostPlayerId]
                && r.value.playerB == auth.players[guestPlayerId]
                && r.value.Snapshot() == Fresh
                && r.value.playerA.status == InMatch && r.value.playerB.status == InMatch
    {
      var player := auth.GetPlayer(guestPlayerId);
      if player.None? {
        return Err(PlayerNotFound);
      }
      var key := UpperCase(roomCode);
      if key !in rooms {
        return Err(RoomNotFound);
      }
      var room := rooms[key];
      if room.IsExpired(now) {
        rooms := rooms - {key};
        return Err(RoomExpired);
      }
      if room.IsFull() {
        return Err(RoomFull);
      }
      if room.hostPlayerId == guestPlayerId {
        return Err(OwnRoom);
      }
      var added := room.AddGuest(guestPlayerId);
      var host := auth.GetPlayer(room.hostPlayerId);
      if host.None? {
        return Err(HostNotFound);
      }
      var m := new Match(matchId, host.value, player.value, now);
      room.matchId := Some(matchId);
      rooms := rooms - {key};
      return Ok(m);
    }

    /** `getRoom`: looks the code up upper-cased. */
    function GetRoom(roomCode: string): Option<Room>
      reads this
    {
      var key := UpperCase(roomCode);
      if key in rooms then Some(rooms[key]) else None
    }

    /** One run of the periodic clean-up: collects the codes of the expired
        rooms, then deletes them. */
    method CleanupExpiredRooms(now: int)
      requires Valid()
      modifies this
      ensures Valid() && queue == old(queue)
      ensures rooms == Unexpired(old(rooms), now)
    {
      var expired: set<string> := {};
      var pending := rooms.Keys;
      while pending != {}
        invariant pending <= rooms.Keys
        invariant forall k | k in expired :: k in rooms && rooms[k].IsExpired(now)
        invariant forall k | k in rooms && k !in pending :: rooms[k].IsExpired(now) ==> k in expired
        decreases pending
      {
        var code :| code in pending;
        if rooms[code].IsExpired(now) {
          expired := expired + {code};
        }
        pending := pending - {code};
      }
      rooms := map k | k in rooms && k !in expired :: rooms[k];
    }
  }

  // ---------------------------------------------------------------------
  // Properties

  /** Cutting the only occurrence of `s[i]` out of a queue without
      duplicates is removing that id. */
  lemma {:induction false} SpliceRemoves(s: seq<string>, i: nat)
    requires Distinct(s) && i < |s|
    ensures s[..i] + s[i + 1..] == Removed(s, s[i])
    decreases |s|
  {
    var x := s[i];
    assert Distinct(s[1..]) by {
      forall a, b | 0 <= a < b < |s[1..]| ensures s[1..][a] != s[1..][b] {
        assert s[1..][a] == s[a + 1] && s[1..][b] == s[b + 1];
      }
    }
    if i == 0 {
      assert x !in s[1..] by {
        forall k | 0 <= k < |s[1..]| ensures s[1..][k] != x {
          assert s[1..][k] == s[k + 1];
        }
      }
      RemovedAbsent(s[1..], x);
    } else {
      assert s[1..][i - 1] == x;
      SpliceRemoves(s[1..], i - 1);
      assert s[0] != x;
      assert s[..i] == [s[0]] + s[1..][..i - 1];
      assert s[i + 1..] == s[1..][i..];
    }
  }

  lemma {:induction false} RemovedAbsent(s: seq<string>, x: string)
    requires x !in s
    ensures Removed(s, x) == s
    decreases |s|
  {
    if s != [] {
      assert forall y | y in s[1..] :: y in s;
      RemovedAbsent(s[1..], x);
      assert s == [s[0]] + s[1..];
    }
  }

  /** Queue positions: `joinQueue` hands out the position the player now
      has, and the rest of the queue is untouched. */
  lemma JoinQueuePosition(queue: seq<string>, playerId: string)
    requires playerId !in queue
    ensures IndexOf(queue + [playerId], playerId) == |queue|
    ensures Distinct(queue) ==> Distinct(queue + [playerId])
  {
    assert (queue + [playerId])[..|queue|] == queue;
  }

  /** `leaveQueue` drops exactly the leaving player and keeps every other
      queued player. */
  lemma LeaveQueueKeepsOthers(queue: seq<string>, playerId: string, other: string)
    ensures other in Removed(queue, playerId) <==> other in queue && other != playerId
  {
    RemovedMembers(queue, playerId);
  }

  /** The code `createRoom` stops at: with some free code among the first
      ten the room gets the first of them; otherwise no room is made. */
  lemma {:induction false} CreateRoomFindsFirstFreeCode(taken: set<string>, codes: seq<string>)
    requires MaxAttempts <= |codes|
    ensures CreateRoomOf(taken, codes).Some? <==> exists k | 0 <= k < MaxAttempts :: codes[k] !in taken
    ensures CreateRoomOf(taken, codes).Some? ==>
              exists k | 0 <= k < MaxAttempts ::
                && CreateRoomOf(taken, codes).value == codes[k] && codes[k] !in taken
                && forall m | 0 <= m < k :: codes[m] in taken
  {
    var j := PickIndex(taken, codes, 0);
    if CreateRoomOf(taken, codes).None? {
      assert codes[j] in taken && j == MaxAttempts - 1;
      assert forall k | 0 <= k < MaxAttempts :: codes[k] in taken;
    }
  }

  /** As written, `createRoom` succeeds only with a free code among the
      first nine, so the tenth code drawn is never used. */
  lemma {:induction false} CreateRoomAsWrittenUsesNine(taken: set<string>, codes: seq<string>)
    requires MaxAttempts <= |codes|
    ensures CreateRoomAsWrittenOf(taken, codes).Some? <==> exists k | 0 <= k < MaxAttempts - 1 :: codes[k] !in taken
    ensures CreateRoomAsWrittenOf(taken, codes).Some? ==> CreateRoomAsWrittenOf(taken, codes) == CreateRoomOf(taken, codes)
  {
    var j := PickIndex(taken, codes, 0);
    if CreateRoomAsWrittenOf(taken, codes).None? {
      assert j == MaxAttempts - 1;
      assert forall k | 0 <= k < MaxAttempts - 1 :: codes[k] in taken;
    }
  }

  /** The discrepancy: nine taken codes followed by a free tenth make the
      code as written fail, where a room could have been made. */
  lemma CreateRoomWastesTenthCode(taken: set<string>, codes: seq<string>)
    requires MaxAttempts <= |codes|
    requires forall k | 0 <= k < MaxAttempts - 1 :: codes[k] in taken
    requires codes[MaxAttempts - 1] !in taken
    ensures CreateRoomAsWrittenOf(taken, codes) == None
    ensures CreateRoomOf(taken, codes) == Some(codes[MaxAttempts - 1])
  {
    CreateRoomAsWrittenUsesNine(taken, codes);
  }

  /** The discrepancy: a code typed with a lower-case letter finds the room
      under its upper-cased key, but the code as written deletes the code as
      typed, so the room stays in the table; the intended delete removes
      it. */
  lemma JoinRoomLeavesLowerCaseRoom(rooms: map<string, Room>, roomCode: string, i: nat)
    requires i < |roomCode| && IsLower(roomCode[i])
    requires UpperCase(roomCode) in rooms
    ensures UpperCase(roomCode) in RoomsAfterJoinAsWritten(rooms, roomCode)
    ensures UpperCase(roomCode) !in RoomsAfterJoin(rooms, roomCode)
  {
    LowerCaseCodeChanges(roomCode, i);
  }

  /** A join succeeds exactly when the guest and host are registered and
      the room is found, unexpired, not full and not the guest's own. */
  lemma JoinVerdictAccepts(mm: MatchmakingManager, guestPlayerId: string, roomCode: string, now: int)
    ensures mm.JoinVerdict(guestPlayerId, roomCode, now).None? <==>
              var key := UpperCase(roomCode);
              && guestPlayerId in mm.auth.players
              && key in mm.rooms
              && !mm.rooms[key].IsExpired(now)
              && !mm.rooms[key].IsFull()
              && mm.rooms[key].hostPlayerId != guestPlayerId
              && mm.rooms[key].hostPlayerId in mm.auth.players
  {
  }

  /** `getRoom` finds a room under any casing of its code, and only the room
      stored under that code. */
  lemma GetRoomByCode(mm: MatchmakingManager, roomCode: string)
    requires mm.Valid()
    ensures mm.GetRoom(roomCode).Some? ==> mm.GetRoom(roomCode).value.code == UpperCase(roomCode)
    ensures IsRoomCode(roomCode) && roomCode in mm.rooms ==> mm.GetRoom(roomCode) == Some(mm.rooms[roomCode])
  {
    if IsRoomCode(roomCode) {
      RoomCodeIsUpperCase(roomCode);
    }
  }

  /** Looking a code up again after upper-casing it finds the same room. */
  lemma GetRoomAnyCasing(mm: MatchmakingManager, roomCode: string)
    ensures mm.GetRoom(UpperCase(roomCode)) == mm.GetRoom(roomCode)
  {
    UpperCaseIdempotent(roomCode);
  }

  /** The clean-up keeps exactly the rooms that have not expired. */
  lemma UnexpiredKeeps(rooms: map<string, Room>, now: int, code: string)
    ensures code in Unexpired(rooms, now) <==> code in rooms && !rooms[code].IsExpired(now)
    ensures code in Unexpired(rooms, now) ==> Unexpired(rooms, now)[code] == rooms[code]
  {
  }
}
