/** The table of live matches: code submission through the CASL parser
    and validator, the ready handshake that starts the battle, the
    countdown that starts it anyway, and leaving. Notifications to the
    players' sockets are not modelled. */
module MatchManagement {
  import opened Wrappers
  import opened KeyOrder
  import opened Matches
  import CaslParser
  import CaslValidator

  datatype SubmitError =
    | MatchNotFound
    | PlayerNotInMatch
    | ParseFailed(parseErrors: seq<CaslParser.ParseError>)
    | ValidationFailed(issues: seq<CaslValidator.Issue>)

  datatype SubmitOutcome = Submitted | Rejected(error: SubmitError)

  /** What a submission by a player of an existing match comes to: the
      parser's errors, else the validator's errors, else success. */
  function CodeVerdict(code: string): SubmitOutcome {
    var parsed := CaslParser.ParseOf(code);
    if !parsed.success || parsed.strategy.None? then Rejected(ParseFailed(parsed.errors))
    else
      var report := CaslValidator.CheckStrategy(CaslValidator.Report([], []), parsed.strategy.value);
      if report.errors != [] then Rejected(ValidationFailed(report.errors)) else Submitted
  }

  /** Stored code counts only when it is a non-empty text. */
  predicate HasCode(code: Option<string>) {
    code.Some? && code.value != ""
  }

  /** `markPlayerReady` on a match between `a` and `b`: a member who has
      code is marked ready (which the match itself refuses outside
      preparation), and once both flags are set the battle starts. */
  function ReadyOf(p: Progress, a: string, b: string, playerId: string): (bool, Progress) {
    if playerId != a && playerId != b then (false, p)
    else if !((playerId == a && HasCode(p.codeA)) || (playerId == b && HasCode(p.codeB))) then (false, p)
    else
      var q := MarkReadyOf(p, a, b, playerId).1;
      (true, if BothReady(q) then StartBattleOf(q) else q)
  }

  /** The first match, in table order, that has the player. */
  function FirstWith(ms: map<string, Match>, keys: seq<string>, playerId: string): Option<Match>
    decreases |keys|
  {
    if keys == [] then None
    else if keys[0] in ms && ms[keys[0]].HasPlayer(playerId) then Some(ms[keys[0]])
    else FirstWith(ms, keys[1..], playerId)
  }

  class MatchManager {
    var matches: map<string, Match>
    /** The keys of `matches` in insertion order. */
    var order: seq<string>

    ghost predicate Valid()
      reads this
    {
      Orders(order, matches) && forall k | k in matches :: matches[k].id == k
    }

    constructor()
      ensures Valid() && matches == map[] && order == []
    {
      matches := map[];
      order := [];
    }

    /** The match stored under the id, as a frame. */
    function Stored(matchId: string): set<Match>
      reads this
    {
      if matchId in matches then {matches[matchId]} else {}
    }

    /** The match stored under the id and its two players, as a frame. */
    function Parts(matchId: string): set<object>
      reads this
    {
      if matchId in matches then {matches[matchId], matches[matchId].playerA, matches[matchId].playerB} else {}
    }

    /** `addMatch`: stores the match under its id and starts its countdown. */
    method AddMatch(m: Match)
      requires Valid()
      modifies this, m
      ensures Valid()
      ensures matches == old(matches)[m.id := m] && order == Inserted(old(order), m.id)
      ensures m.Snapshot() == old(m.Snapshot()).(ticking := true)
    {
      InsertedOrders(order, matches, m.id, m);
      matches := matches[m.id := m];
      order := Inserted(order, m.id);
      m.StartCountdown();
    }

    /** `submitCode`: the match and the membership are checked before the
        code is parsed; code that parses and validates is handed to the
        match, and success is reported whether or not the match took it. */
    method SubmitCode(playerId: string, matchId: string, code: string) returns (r: SubmitOutcome)
      modifies Stored(matchId)
      ensures matchId !in matches ==> r == Rejected(MatchNotFound)
      ensures matchId in matches && !matches[matchId].HasPlayer(playerId) ==>
                r == Rejected(PlayerNotInMatch) && unchanged(matches[matchId])
      ensures matchId in matches && matches[matchId].HasPlayer(playerId) ==>
                var m := matches[matchId];
                && r == CodeVerdict(code)
                && m.Snapshot() == (if r == Submitted
                                    then SubmitCodeOf(old(m.Snapshot()), m.playerA.id, m.playerB.id, playerId, code).1
                                    else old(m.Snapshot()))
    {
      if matchId !in matches {
        return Rejected(MatchNotFound);
      }
      var m := matches[matchId];
      if !m.HasPlayer(playerId) {
        return Rejected(PlayerNotInMatch);
      }
      var parsed := CaslParser.ParseCode(code);
      if !parsed.success || parsed.strategy.None? {
        return Rejected(ParseFailed(parsed.errors));
      }
      var validation := CaslValidator.ValidateStrategy(parsed.strategy.value);
      CaslValidator.ValidIffAcceptable(parsed.strategy.value, []);
      if !validation.valid {
        return Rejected(ValidationFailed(validation.errors));
      }
      var stored := m.SubmitCode(playerId, code);
      return Submitted;
    }

    /** `markPlayerReady`. */
    method MarkPlayerReady(playerId: string, matchId: string) returns (ok: bool)
      modifies Stored(matchId)
      ensures matchId !in matches ==> !ok
      ensures matchId in matches ==>
                var m := matches[matchId];
                (ok, m.Snapshot()) == ReadyOf(old(m.Snapshot()), m.playerA.id, m.playerB.id, playerId)
    {
      if matchId !in matches {
        return false;
      }
      var m := matches[matchId];
      if !m.HasPlayer(playerId) {
        return false;
      }
      var hasCode := (playerId == m.playerA.id && HasCode(m.codeA)) || (playerId == m.playerB.id && HasCode(m.codeB));
      if !hasCode {
        return false;
      }
      var marked := m.MarkReady(playerId);
      if m.AreBothReady() {
        StartMatch(matchId);
      }
      return true;
    }

    /** `leaveMatch`: a member ends the match, which leaves the table. */
    method LeaveMatch(playerId: string, matchId: string) returns (ok: bool)
      requires Valid()
      modifies this, Parts(matchId)
      ensures Valid()
      ensures ok <==> matchId in old(matches) && old(matches)[matchId].HasPlayer(playerId)
      ensures !ok ==> matches == old(matches) && order == old(order)
      ensures !ok && matchId in matches ==> unchanged(matches[matchId])
      ensures ok ==>
                var m := old(matches[matchId]);
                && matches == old(matches) - {matchId}
                && order == Removed(old(order), matchId)
                && m.Snapshot() == FinishOf(old(m.Snapshot()))
                && m.playerA.status == Players.Online && m.playerB.status == Players.Online
    {
      if matchId !in matches {
        return false;
      }
      var m := matches[matchId];
      if !m.HasPlayer(playerId) {
        return false;
      }
      m.Finish();
      RemovedOrders(order, matches, matchId);
      matches := matches - {matchId};
      order := Removed(order, matchId);
      return true;
    }

    /** `startMatch`: the stored match, if any, enters battle. */
    method StartMatch(matchId: string)
      modifies Stored(matchId)
      ensures matchId in matches ==> matches[matchId].Snapshot() == StartBattleOf(old(matches[matchId].Snapshot()))
    {
      if matchId in matches {
        matches[matchId].StartBattle();
      }
    }

    /** `handleCountdownComplete`: the battle starts whether or not both
        players are ready. */
    method HandleCountdownComplete(matchId: string)
      modifies Stored(matchId)
      ensures matchId in matches ==> matches[matchId].Snapshot() == StartBattleOf(old(matches[matchId].Snapshot()))
    {
      StartMatch(matchId);
    }

    /** One firing of a match's countdown interval, with the completion
        handler it was installed with. */
    method OnCountdownTick(m: Match) returns (done: bool)
      requires m.ticking
      modifies m, Stored(m.id)
      ensures done == TickOf(old(m.Snapshot())).0
      ensures m.id !in matches ==> m.Snapshot() == TickOf(old(m.Snapshot())).1
      ensures m.id in matches && matches[m.id] == m ==>
                m.Snapshot() == (if done then StartBattleOf(TickOf(old(m.Snapshot())).1) else TickOf(old(m.Snapshot())).1)
    {
      done := m.Tick();
      if done {
        HandleCountdownComplete(m.id);
      }
    }

    function GetMatch(matchId: string): Option<Match>
      reads this
    {
      if matchId in matches then Some(matches[matchId]) else None
    }

    /** `getMatchByPlayer`: the first match in table order that has the
        player. */
    method GetMatchByPlayer(playerId: string) returns (r: Option<Match>)
      ensures r == FirstWith(matches, order, playerId)
    {
      var i := 0;
      while i < |order|
        invariant 0 <= i <= |order|
        invariant FirstWith(matches, order, playerId) == FirstWith(matches, order[i..], playerId)
      {
        assert order[i..][1..] == order[i + 1..];
        var id := order[i];
        if id in matches && matches[id].HasPlayer(playerId) {
          return Some(matches[id]);
        }
        i := i + 1;
      }
      return None;
    }
  }

  // ---------------------------------------------------------------------
  // Properties

  /** Code is stored only when it parses and the strategy is acceptable; a
      parse failure always carries at least one error, and so does a
      validation failure. */
  lemma SubmittedIffAcceptable(code: string)
    ensures CodeVerdict(code) == Submitted <==>
              CaslParser.ParseOf(code).success && CaslValidator.Acceptable(CaslParser.ParseOf(code).strategy.value)
    ensures CodeVerdict(code).Rejected? ==>
              match CodeVerdict(code).error
              case ParseFailed(es) => es != []
              case ValidationFailed(es) => es != []
              case _ => false
  {
    CaslParser.ParseOutcome(code);
    var parsed := CaslParser.ParseOf(code);
    if parsed.success {
      CaslValidator.ValidIffAcceptable(parsed.strategy.value, []);
    }
  }

  /** A player is marked ready exactly when they belong to the match and
      have non-empty code; otherwise nothing changes. */
  lemma ReadyNeedsCode(p: Progress, a: string, b: string, playerId: string)
    ensures ReadyOf(p, a, b, playerId).0 <==>
              (playerId == a && HasCode(p.codeA)) || (playerId == b && HasCode(p.codeB))
    ensures !ReadyOf(p, a, b, playerId).0 ==> ReadyOf(p, a, b, playerId).1 == p
  {
  }

  /** In preparation, with code from two different players, the second of
      the two ready calls starts the battle and the first does not (unless
      the other player was ready already). */
  lemma HandshakeStartsBattle(p: Progress, a: string, b: string)
    requires p.state == Preparation && a != b
    requires HasCode(p.codeA) && HasCode(p.codeB)
    ensures !p.readyB ==> ReadyOf(p, a, b, a).1.state == Preparation
    ensures var q := ReadyOf(ReadyOf(p, a, b, a).1, a, b, b);
            q.0 && q.1.state == Battle && BothReady(q.1) && !q.1.ticking
  {
  }

  /** Outside preparation a player with code is still told yes, but no
      readiness flag changes and the match does not leave battle. */
  lemma ReadyAcknowledgedOutsidePreparation(p: Progress, a: string, b: string, playerId: string)
    requires p.state != Preparation
    requires (playerId == a && HasCode(p.codeA)) || (playerId == b && HasCode(p.codeB))
    ensures ReadyOf(p, a, b, playerId).0
    ensures ReadyOf(p, a, b, playerId).1.readyA == p.readyA && ReadyOf(p, a, b, playerId).1.readyB == p.readyB
    ensures p.state == Battle ==> ReadyOf(p, a, b, playerId).1.state == Battle
  {
  }

  /** The match found for a player is a stored match that has the player,
      and none is found exactly when no stored match has the player. */
  lemma {:induction false} FirstWithFound(ms: map<string, Match>, keys: seq<string>, playerId: string)
    requires forall k | k in ms :: k in keys
    ensures FirstWith(ms, keys, playerId).Some? ==>
              FirstWith(ms, keys, playerId).value in ms.Values && FirstWith(ms, keys, playerId).value.HasPlayer(playerId)
    ensures FirstWith(ms, keys, playerId).None? <==> forall k | k in ms :: !ms[k].HasPlayer(playerId)
  {
    FirstWithScan(ms, keys, playerId);
    if FirstWith(ms, keys, playerId).None? {
      forall k | k in ms ensures !ms[k].HasPlayer(playerId) {
        var j :| 0 <= j < |keys| && keys[j] == k;
      }
    }
  }

  /** The search finds a match of one of the keys that has the player, and
      finds none exactly when no key's match has the player. */
  lemma {:induction false} FirstWithScan(ms: map<string, Match>, keys: seq<string>, playerId: string)
    ensures FirstWith(ms, keys, playerId).Some? ==>
              FirstWith(ms, keys, playerId).value in ms.Values && FirstWith(ms, keys, playerId).value.HasPlayer(playerId)
    ensures FirstWith(ms, keys, playerId).None? <==>
              forall j | 0 <= j < |keys| :: !(keys[j] in ms && ms[keys[j]].HasPlayer(playerId))
    decreases |keys|
  {
    if keys != [] {
      FirstWithScan(ms, keys[1..], playerId);
      assert forall j | 1 <= j < |keys| :: keys[j] == keys[1..][j - 1];
    }
  }

  /** A countdown started on a new match runs out on its 30th second, and
      the match then enters battle even though nobody declared ready. */
  lemma CountdownStartsBattle()
    ensures var p := Ticked(Fresh.(ticking := true), 29);
            TickOf(p).0 && StartBattleOf(TickOf(p).1).state == Battle && !BothReady(StartBattleOf(TickOf(p).1))
  {
    FreshCountdownCompletesAt30();
    CountdownRuns(Fresh.(ticking := true), 29);
  }
}
