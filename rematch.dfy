/** Rematch requests between players after a match. A request is kept under
    the key `from-to` for thirty seconds; the target accepts or declines
    it, or a timer expires it. The timer is an explicit `ExpireRematchRequest`
    step, the clock a `now` parameter, and the notifications to the players'
    sockets are not modelled. */
module Rematch {
  /** Thirty seconds, in milliseconds. */
  const RematchTimeout := 30000

  datatype RematchRequest = RematchRequest(fromPlayerId: string, toPlayerId: string, timestamp: int, expiresAt: int)

  /** `getRequestKey`. */
  function RequestKey(fromPlayerId: string, toPlayerId: string): string {
    fromPlayerId + "-" + toPlayerId
  }

  /** `sendRematchRequest` on the pending requests, given where players are
      connected: refused when the same request is pending or the target has
      no socket (an empty socket id counts as none). */
  function SentOf(pending: map<string, RematchRequest>, sockets: map<string, string>,
                  fromPlayerId: string, toPlayerId: string, now: int): (bool, map<string, RematchRequest>)
  {
    var key := RequestKey(fromPlayerId, toPlayerId);
    if key in pending then (false, pending)
    else if toPlayerId !in sockets || sockets[toPlayerId] == "" then (false, pending)
    else (true, pending[key := RematchRequest(fromPlayerId, toPlayerId, now, now + RematchTimeout)])
  }

  /** `acceptRematch` by `playerId` of the request from `fromPlayerId`:
      refused when there is none or it is past its expiry, in which case it
      stays pending. */
  function AcceptedOf(pending: map<string, RematchRequest>, playerId: string, fromPlayerId: string, now: int)
    : (bool, map<string, RematchRequest>)
  {
    var key := RequestKey(fromPlayerId, playerId);
    if key !in pending || now > pending[key].expiresAt then (false, pending)
    else (true, pending - {key})
  }

  /** Every pending request is stored under its own key and expires thirty
      seconds after it was sent. */
  predicate WellKeyed(pending: map<string, RematchRequest>) {
    forall k | k in pending ::
      && k == RequestKey(pending[k].fromPlayerId, pending[k].toPlayerId)
      && pending[k].expiresAt == pending[k].timestamp + RematchTimeout
  }

  class RematchManager {
    var pending: map<string, RematchRequest>
    /** Player id to socket id. */
    var sockets: map<string, string>
    /** Player id to username. */
    var names: map<string, string>

    ghost predicate Valid()
      reads this
    {
      WellKeyed(pending)
    }

    constructor()
      ensures pending == map[] && sockets == map[] && names == map[] && Valid()
    {
      pending := map[];
      sockets := map[];
      names := map[];
    }

    method RegisterPlayer(playerId: string, socketId: string, username: string)
      modifies this
      ensures sockets == old(sockets)[playerId := socketId]
      ensures names == old(names)[playerId := username]
      ensures pending == old(pending)
    {
      sockets := sockets[playerId := socketId];
      names := names[playerId := username];
    }

    /** `unregisterPlayer` forgets the socket and keeps the username. */
    method UnregisterPlayer(playerId: string)
      modifies this
      ensures sockets == old(sockets) - {playerId}
      ensures names == old(names) && pending == old(pending)
    {
      sockets := sockets - {playerId};
    }

    method SendRematchRequest(fromPlayerId: string, toPlayerId: string, now: int) returns (ok: bool)
      requires Valid()
      modifies this
      ensures Valid()
      ensures (ok, pending) == SentOf(old(pending), sockets, fromPlayerId, toPlayerId, now)
      ensures sockets == old(sockets) && names == old(names)
    {
      var requestKey := RequestKey(fromPlayerId, toPlayerId);
      if requestKey in pending {
        return false;
      }
      if toPlayerId !in sockets || sockets[toPlayerId] == "" {
        return false;
      }
      var request := RematchRequest(fromPlayerId, toPlayerId, now, now + RematchTimeout);
      pending := pending[requestKey := request];
      return true;
    }

    method AcceptRematch(playerId: string, fromPlayerId: string, now: int) returns (ok: bool)
      requires Valid()
      modifies this
      ensures Valid()
      ensures (ok, pending) == AcceptedOf(old(pending), playerId, fromPlayerId, now)
      ensures sockets == old(sockets) && names == old(names)
    {
      var requestKey := RequestKey(fromPlayerId, playerId);
      if requestKey !in pending || now > pending[requestKey].expiresAt {
        return false;
      }
      pending := pending - {requestKey};
      return true;
    }

    /** `declineRematch` drops the request whether or not it is pending. */
    method DeclineRematch(playerId: string, fromPlayerId: string)
      requires Valid()
      modifies this
      ensures Valid()
      ensures pending == old(pending) - {RequestKey(fromPlayerId, playerId)}
      ensures sockets == old(sockets) && names == old(names)
    {
      pending := pending - {RequestKey(fromPlayerId, playerId)};
    }

    /** The timer firing for a request: drops it if it is still pending. */
    method ExpireRematchRequest(requestKey: string)
      requires Valid()
      modifies this
      ensures Valid()
      ensures pending == old(pending) - {requestKey}
      ensures sockets == old(sockets) && names == old(names)
    {
      if requestKey !in pending {
        return;
      }
      pending := pending - {requestKey};
    }
  }

  // ---------------------------------------------------------------------
  // Properties

  /** Sending and accepting keep every request under its key with its
      thirty-second expiry. */
  lemma WellKeyedKept(pending: map<string, RematchRequest>, sockets: map<string, string>,
                      fromPlayerId: string, toPlayerId: string, now: int)
    requires WellKeyed(pending)
    ensures WellKeyed(SentOf(pending, sockets, fromPlayerId, toPlayerId, now).1)
    ensures WellKeyed(AcceptedOf(pending, toPlayerId, fromPlayerId, now).1)
  {
  }

  /** A sent request stays pending: sending it again is refused. It can be
      accepted up to and including thirty seconds later, and not after. */
  lemma RequestLifetime(pending: map<string, RematchRequest>, sockets: map<string, string>,
                        fromPlayerId: string, toPlayerId: string, now: int, later: int)
    requires SentOf(pending, sockets, fromPlayerId, toPlayerId, now).0
    ensures var p := SentOf(pending, sockets, fromPlayerId, toPlayerId, now).1;
            && SentOf(p, sockets, fromPlayerId, toPlayerId, later) == (false, p)
            && (AcceptedOf(p, toPlayerId, fromPlayerId, later).0 <==> later <= now + RematchTimeout)
            && (later > now + RematchTimeout ==> AcceptedOf(p, toPlayerId, fromPlayerId, later).1 == p)
  {
  }

  /** An accepted request is no longer pending, so it cannot be accepted a
      second time. */
  lemma AcceptOnce(pending: map<string, RematchRequest>, playerId: string, fromPlayerId: string, now: int, later: int)
    requires AcceptedOf(pending, playerId, fromPlayerId, now).0
    ensures !AcceptedOf(AcceptedOf(pending, playerId, fromPlayerId, now).1, playerId, fromPlayerId, later).0
  {
  }

  /** Keys of ids of one length, such as the fixed-format ids players get,
      identify the pair: different pairs have different keys, and the
      request back the other way has a different key. */
  lemma {:induction false} RequestKeyInjective(a: string, b: string, c: string, d: string)
    requires |a| == |c|
    requires RequestKey(a, b) == RequestKey(c, d)
    ensures a == c && b == d
  {
    var k := RequestKey(a, b);
    assert a == k[..|a|] && c == RequestKey(c, d)[..|c|];
    assert b == k[|a| + 1..] && d == RequestKey(c, d)[|c| + 1..];
  }

  /** The key alone does not tell who asked whom when ids differ in length
      and contain `-`: "p" asking "p-p" and "p-p" asking "p" share a key. */
  lemma RequestKeyCollision()
    ensures RequestKey("p", "p-p") == RequestKey("p-p", "p")
  {
  }
}
