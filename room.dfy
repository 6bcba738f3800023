/** A private room: a host waiting, for five minutes, for one guest. The
    code and the creation time come from the caller (a random draw and the
    clock in the running server). */
module Rooms {
  import opened Wrappers
  import opened Text

  /** Five minutes, in milliseconds. */
  const RoomExpiryMs := 5 * 60 * 1000

  const CodeLength := 6

  /** The characters `generateCode` draws from: `A` to `Z` and `0` to `9`. */
  predicate IsCodeChar(c: char) {
    IsUpper(c) || IsDigit(c)
  }

  /** A code `generateCode` can produce: six characters of its alphabet. */
  predicate IsRoomCode(code: string) {
    |code| == CodeLength && forall i | 0 <= i < |code| :: IsCodeChar(code[i])
  }

  class Room {
    const code: string
    const hostPlayerId: string
    const createdAt: int
    const expiresAt: int
    var guestPlayerId: Option<string>
    var matchId: Option<string>

    /** A new room has no guest and no match, and expires five minutes
        after it was created. */
    constructor(code: string, hostPlayerId: string, now: int)
      ensures this.code == code && this.hostPlayerId == hostPlayerId
      ensures createdAt == now && expiresAt == now + RoomExpiryMs
      ensures guestPlayerId == None && matchId == None
    {
      this.code := code;
      this.hostPlayerId := hostPlayerId;
      createdAt := now;
      expiresAt := now + RoomExpiryMs;
      guestPlayerId := None;
      matchId := None;
    }

    /** `isFull` tests the guest id for truth, so an empty-string guest
        does not fill the room. */
    predicate IsFull()
      reads this
    {
      guestPlayerId.Some? && guestPlayerId.value != ""
    }

    /** Expired strictly after the expiry time. */
    predicate IsExpired(now: int) {
      now > expiresAt
    }

    /** `addGuest`: refused, keeping the guest, when the room is full. */
    method AddGuest(playerId: string) returns (ok: bool)
      modifies this
      ensures ok <==> !old(IsFull())
      ensures guestPlayerId == if ok then Some(playerId) else old(guestPlayerId)
      ensures matchId == old(matchId)
    {
      if IsFull() {
        return false;
      }
      guestPlayerId := Some(playerId);
      return true;
    }

    predicate HasPlayer(playerId: string)
      reads this
    {
      hostPlayerId == playerId || guestPlayerId == Some(playerId)
    }

    /** `getTimeUntilExpiry`: whole seconds left, rounded down, and never
        below zero. */
    function TimeUntilExpiry(now: int): (seconds: int)
      ensures seconds >= 0
      ensures IsExpired(now) ==> seconds == 0
      ensures seconds > 0 ==> seconds * 1000 <= expiresAt - now < (seconds + 1) * 1000
      ensures expiresAt - now >= 1000 ==> seconds > 0
    {
      var remaining := expiresAt - now;
      if remaining / 1000 > 0 then remaining / 1000 else 0
    }
  }

  // ---------------------------------------------------------------------
  // Properties

  /** A room answers for its host and, once one has joined, its guest, and
      for nobody else. */
  lemma HasPlayerExactly(r: Room, playerId: string)
    ensures r.HasPlayer(playerId) <==>
              playerId == r.hostPlayerId || (r.guestPlayerId.Some? && r.guestPlayerId.value == playerId)
  {
  }

  /** A room stays open for exactly five minutes: at the expiry time itself
      it has not yet expired, one millisecond later it has, and until then
      the seconds left count down from 300. */
  lemma RoomLifetime(r: Room)
    requires r.expiresAt == r.createdAt + RoomExpiryMs
    ensures !r.IsExpired(r.expiresAt) && r.IsExpired(r.expiresAt + 1)
    ensures r.TimeUntilExpiry(r.createdAt) == 300
    ensures r.TimeUntilExpiry(r.expiresAt - 999) == 0 && r.TimeUntilExpiry(r.expiresAt - 1000) == 1
  {
  }

  /** Room codes are upper case already, so the upper-casing lookup finds a
      room under the code it was created with. */
  lemma {:induction false} RoomCodeIsUpperCase(code: string)
    requires IsRoomCode(code)
    ensures UpperCase(code) == code
  {
    forall i | 0 <= i < |code|
      ensures UpperCase(code)[i] == code[i]
    {
      assert IsCodeChar(code[i]);
    }
  }

  /** A code with a lower-case letter in it is changed by upper-casing. */
  lemma {:induction false} LowerCaseCodeChanges(code: string, i: nat)
    requires i < |code| && IsLower(code[i])
    ensures UpperCase(code) != code
  {
    assert IsUpper(UpperCase(code)[i]);
  }
}
