/** A match between two players. It starts in preparation, where each
    player submits code and declares itself ready under a 30-second
    countdown, moves to battle, and ends finished. The operations are
    given twice: as functions on a snapshot of the changing fields, which
    the properties are proved about, and as methods of the `Match` object,
    each proved to act as its function does. */
module Matches {
  import opened Wrappers
  import opened Players

  datatype MatchState = Preparation | Battle | Finished

  const CountdownSeconds := 30

  /** The fields of a match that change. `ticking` stands for the
      countdown interval being installed. */
  datatype Progress = Progress(
    state: MatchState,
    codeA: Option<string>,
    codeB: Option<string>,
    readyA: bool,
    readyB: bool,
    countdown: int,
    ticking: bool)

  /** A new match: in preparation, no code, nobody ready, 30 seconds to
      go, no countdown running. */
  const Fresh := Progress(Preparation, None, None, false, false, CountdownSeconds, false)

  /** `submitCode`, for a match between the players with ids `a` and `b`. */
  function SubmitCodeOf(p: Progress, a: string, b: string, playerId: string, code: string): (bool, Progress) {
    if p.state != Preparation then (false, p)
    else if playerId == a then (true, p.(codeA := Some(code)))
    else if playerId == b then (true, p.(codeB := Some(code)))
    else (false, p)
  }

  /** `markReady`. */
  function MarkReadyOf(p: Progress, a: string, b: string, playerId: string): (bool, Progress) {
    if p.state != Preparation then (false, p)
    else if playerId == a then (true, p.(readyA := true))
    else if playerId == b then (true, p.(readyB := true))
    else (false, p)
  }

  predicate BothReady(p: Progress) {
    p.readyA && p.readyB
  }

  /** The id of the other player, or none for someone not in the match. */
  function OpponentOf(a: string, b: string, playerId: string): Option<string> {
    if playerId == a then Some(b)
    else if playerId == b then Some(a)
    else None
  }

  /** One second of the countdown interval: one second less, and the
      completion signal, which also stops the interval, once no second is
      left. */
  function TickOf(p: Progress): (bool, Progress) {
    var c := p.countdown - 1;
    (c <= 0, p.(countdown := c, ticking := c > 0))
  }

  function StartBattleOf(p: Progress): Progress {
    p.(state := Battle, ticking := false)
  }

  function FinishOf(p: Progress): Progress {
    p.(state := Finished, ticking := false)
  }

  /** The progress after `n` ticks. */
  function Ticked(p: Progress, n: nat): Progress
    decreases n
  {
    if n == 0 then p else TickOf(Ticked(p, n - 1)).1
  }

  // ---------------------------------------------------------------------
  // The match object

  class Match {
    const id: string
    const playerA: Player
    const playerB: Player
    const createdAt: int
    var state: MatchState
    var codeA: Option<string>
    var codeB: Option<string>
    var readyA: bool
    var readyB: bool
    var countdown: int
    var ticking: bool

    function Snapshot(): Progress
      reads this
    {
      Progress(state, codeA, codeB, readyA, readyB, countdown, ticking)
    }

    /** A new match starts fresh and puts both players in the match. */
    constructor(id: string, playerA: Player, playerB: Player, now: int)
      modifies playerA, playerB
      ensures this.id == id && this.playerA == playerA && this.playerB == playerB && createdAt == now
      ensures Snapshot() == Fresh
      ensures playerA.status == InMatch && playerB.status == InMatch
    {
      this.id := id;
      this.playerA := playerA;
      this.playerB := playerB;
      createdAt := now;
      state := Preparation;
      codeA := None;
      codeB := None;
      readyA := false;
      readyB := false;
      countdown := CountdownSeconds;
      ticking := false;
      new;
      playerA.status := InMatch;
      playerB.status := InMatch;
    }

    method SubmitCode(playerId: string, code: string) returns (ok: bool)
      modifies this
      ensures (ok, Snapshot()) == SubmitCodeOf(old(Snapshot()), playerA.id, playerB.id, playerId, code)
    {
      if state != Preparation {
        return false;
      }
      if playerId == playerA.id {
        codeA := Some(code);
        return true;
      } else if playerId == playerB.id {
        codeB := Some(code);
        return true;
      }
      return false;
    }

    method MarkReady(playerId: string) returns (ok: bool)
      modifies this
      ensures (ok, Snapshot()) == MarkReadyOf(old(Snapshot()), playerA.id, playerB.id, playerId)
    {
      if state != Preparation {
        return false;
      }
      if playerId == playerA.id {
        readyA := true;
        return true;
      } else if playerId == playerB.id {
        readyB := true;
        return true;
      }
      return false;
    }

    predicate AreBothReady()
      reads this
    {
      readyA && readyB
    }

    predicate HasPlayer(playerId: string) {
      playerA.id == playerId || playerB.id == playerId
    }

    /** `getOpponent`: the other player object, for either player. */
    function GetOpponent(playerId: string): (r: Option<Player>)
      ensures r.Some? <==> HasPlayer(playerId)
      ensures r.Some? ==> Some(r.value.id) == OpponentOf(playerA.id, playerB.id, playerId)
      ensures r.Some? ==> r.value == playerA || r.value == playerB
    {
      if playerId == playerA.id then Some(playerB)
      else if playerId == playerB.id then Some(playerA)
      else None
    }

    /** `startCountdown`: installs the interval (replacing any earlier one;
        the remaining seconds are not reset). */
    method StartCountdown()
      modifies this
      ensures Snapshot() == old(Snapshot()).(ticking := true)
    {
      ticking := true;
    }

    method StopCountdown()
      modifies this
      ensures Snapshot() == old(Snapshot()).(ticking := false)
    {
      ticking := false;
    }

    /** One firing of the interval; it fires only while installed. */
    method Tick() returns (done: bool)
      requires ticking
      modifies this
      ensures (done, Snapshot()) == TickOf(old(Snapshot()))
    {
      countdown := countdown - 1;
      done := countdown <= 0;
      if done {
        StopCountdown();
      }
    }

    method StartBattle()
      modifies this
      ensures Snapshot() == StartBattleOf(old(Snapshot()))
    {
      StopCountdown();
      state := Battle;
    }

    /** `finish`: the match is over and both players are online again. */
    method Finish()
      modifies this, playerA, playerB
      ensures Snapshot() == FinishOf(old(Snapshot()))
      ensures playerA.status == Online && playerB.status == Online
    {
      StopCountdown();
      state := Finished;
      playerA.status := Online;
      playerB.status := Online;
    }
  }

  // ---------------------------------------------------------------------
  // Properties

  /** Code is accepted only in preparation and only from one of the two
      players; it is stored for that player and nothing else changes. */
  lemma SubmitCodeAccepted(p: Progress, a: string, b: string, playerId: string, code: string)
    ensures SubmitCodeOf(p, a, b, playerId, code).0 <==> p.state == Preparation && (playerId == a || playerId == b)
    ensures !SubmitCodeOf(p, a, b, playerId, code).0 ==> SubmitCodeOf(p, a, b, playerId, code).1 == p
    ensures SubmitCodeOf(p, a, b, playerId, code).0 ==>
              var q := SubmitCodeOf(p, a, b, playerId, code).1;
              && (if playerId == a then q.codeA == Some(code) && q.codeB == p.codeB
                  else q.codeB == Some(code) && q.codeA == p.codeA)
              && q.(codeA := p.codeA, codeB := p.codeB) == p
  {
  }

  /** A later submission by the same player replaces the earlier one. */
  lemma LaterSubmissionOverwrites(p: Progress, a: string, b: string, playerId: string, c1: string, c2: string)
    ensures SubmitCodeOf(SubmitCodeOf(p, a, b, playerId, c1).1, a, b, playerId, c2) == SubmitCodeOf(p, a, b, playerId, c2)
  {
  }

  /** Readiness is declared only in preparation and only by one of the two
      players; it sets that player's flag alone. */
  lemma MarkReadyAccepted(p: Progress, a: string, b: string, playerId: string)
    ensures MarkReadyOf(p, a, b, playerId).0 <==> p.state == Preparation && (playerId == a || playerId == b)
    ensures !MarkReadyOf(p, a, b, playerId).0 ==> MarkReadyOf(p, a, b, playerId).1 == p
    ensures MarkReadyOf(p, a, b, playerId).0 ==>
              var q := MarkReadyOf(p, a, b, playerId).1;
              && (if playerId == a then q.readyA && q.readyB == p.readyB
                  else q.readyB && q.readyA == p.readyA)
              && q.(readyA := p.readyA, readyB := p.readyB) == p
  {
  }

  /** Both players declaring themselves ready, in either order, makes both
      ready. Two different ids are needed: with the same id on both sides
      only the first flag is ever set. */
  lemma HandshakeMakesBothReady(p: Progress, a: string, b: string)
    requires p.state == Preparation
    ensures a != b ==> BothReady(MarkReadyOf(MarkReadyOf(p, a, b, a).1, a, b, b).1)
    ensures a != b ==> BothReady(MarkReadyOf(MarkReadyOf(p, a, b, b).1, a, b, a).1)
    ensures a == b ==> !MarkReadyOf(MarkReadyOf(p, a, b, a).1, a, b, b).1.readyB || p.readyB
  {
  }

  /** Once a match has left preparation, submissions and readiness are
      refused and change nothing. */
  lemma ClosedAfterPreparation(p: Progress, a: string, b: string, playerId: string, code: string)
    ensures SubmitCodeOf(FinishOf(p), a, b, playerId, code) == (false, FinishOf(p))
    ensures MarkReadyOf(FinishOf(p), a, b, playerId) == (false, FinishOf(p))
    ensures SubmitCodeOf(StartBattleOf(p), a, b, playerId, code) == (false, StartBattleOf(p))
    ensures MarkReadyOf(StartBattleOf(p), a, b, playerId) == (false, StartBattleOf(p))
  {
  }

  /** The opponent of a player is the other player, and the opponent of the
      opponent is the player again; someone outside the match has none. */
  lemma OpponentInvolution(a: string, b: string, playerId: string)
    ensures OpponentOf(a, b, playerId).None? <==> playerId != a && playerId != b
    ensures OpponentOf(a, b, playerId).Some? ==>
              OpponentOf(a, b, OpponentOf(a, b, playerId).value) == Some(playerId)
  {
  }

  /** With `c` seconds left and the interval running, the first `c - 1`
      ticks count down without completing, and tick number `c` completes. */
  lemma {:induction false} CountdownRuns(p: Progress, k: nat)
    requires p.ticking && k < p.countdown
    ensures Ticked(p, k) == p.(countdown := p.countdown - k)
    ensures TickOf(Ticked(p, k)).0 <==> k == p.countdown - 1
  {
    if k > 0 {
      CountdownRuns(p, k - 1);
    }
  }

  /** A new match with its countdown started completes on the 30th tick. */
  lemma FreshCountdownCompletesAt30()
    ensures !TickOf(Ticked(Fresh.(ticking := true), 28)).0
    ensures TickOf(Ticked(Fresh.(ticking := true), 29)).0
    ensures Ticked(Fresh.(ticking := true), 30).countdown == 0
  {
    var p := Fresh.(ticking := true);
    CountdownRuns(p, 28);
    CountdownRuns(p, 29);
  }
}
