/** The client's record of its own results: win, loss and draw counts, win
    streaks, damage totals and the fifty most recent matches, newest first.
    The store is persisted in the browser in the running client; that is
    not modelled. */
module StatsStore {
  datatype MatchResult = Win | Loss | Draw

  datatype MatchHistoryEntry = MatchHistoryEntry(
    matchId: string,
    opponent: string,
    result: MatchResult,
    damageDealt: int,
    damageTaken: int,
    duration: int,
    timestamp: int)

  datatype PlayerStats = PlayerStats(
    wins: int,
    losses: int,
    draws: int,
    totalMatches: int,
    totalDamageDealt: int,
    totalDamageTaken: int,
    longestWinStreak: int,
    currentWinStreak: int,
    matchHistory: seq<MatchHistoryEntry>)

  /** How many matches the history keeps. */
  const HistoryLimit := 50

  const InitialStats := PlayerStats(0, 0, 0, 0, 0, 0, 0, 0, [])

  /** The stats after one more match, field by field. */
  function Recorded(s: PlayerStats, e: MatchHistoryEntry): PlayerStats {
    var streak := match e.result
      case Win => s.currentWinStreak + 1
      case Loss => 0
      case Draw => s.currentWinStreak;
    PlayerStats(
      wins := s.wins + (if e.result == Win then 1 else 0),
      losses := s.losses + (if e.result == Loss then 1 else 0),
      draws := s.draws + (if e.result == Draw then 1 else 0),
      totalMatches := s.totalMatches + 1,
      totalDamageDealt := s.totalDamageDealt + e.damageDealt,
      totalDamageTaken := s.totalDamageTaken + e.damageTaken,
      longestWinStreak := if e.result == Win && streak > s.longestWinStreak then streak else s.longestWinStreak,
      currentWinStreak := streak,
      matchHistory := Newest([e] + s.matchHistory))
  }

  /** The first fifty entries. */
  function Newest(history: seq<MatchHistoryEntry>): (r: seq<MatchHistoryEntry>)
    ensures |r| == if |history| < HistoryLimit then |history| else HistoryLimit
    ensures r == history[..|r|]
  {
    if |history| <= HistoryLimit then history else history[..HistoryLimit]
  }

  /** The win rate in whole percent: `100 * wins / totalMatches` rounded to
      the nearest integer, halves up, and 0 before any match. */
  function WinRate(s: PlayerStats): (rate: int)
    ensures s.totalMatches <= 0 ==> rate == 0
    ensures s.totalMatches > 0 ==>
              2 * s.totalMatches * rate - s.totalMatches <= 200 * s.wins < 2 * s.totalMatches * rate + s.totalMatches
  {
    if s.totalMatches == 0 then 0
    else if s.totalMatches < 0 then 0
    else (200 * s.wins + s.totalMatches) / (2 * s.totalMatches)
  }

  /** What holds of stats built from the initial stats by recording
      matches. */
  predicate Consistent(s: PlayerStats) {
    && s.wins >= 0 && s.losses >= 0 && s.draws >= 0
    && s.wins + s.losses + s.draws == s.totalMatches
    && 0 <= s.currentWinStreak <= s.longestWinStreak
    && s.currentWinStreak <= s.wins
    && |s.matchHistory| <= HistoryLimit
    && |s.matchHistory| <= s.totalMatches
  }

  class StatsStore {
    var stats: PlayerStats

    constructor()
      ensures stats == InitialStats
    {
      stats := InitialStats;
    }

    /** `recordMatchResult`: copies the stats and updates the copy step by
        step. */
    method RecordMatchResult(result: MatchHistoryEntry)
      modifies this
      ensures stats == Recorded(old(stats), result)
    {
      var newStats := stats;
      if result.result == Win {
        newStats := newStats.(wins := newStats.wins + 1);
        newStats := newStats.(currentWinStreak := newStats.currentWinStreak + 1);
        if newStats.currentWinStreak > newStats.longestWinStreak {
          newStats := newStats.(longestWinStreak := newStats.currentWinStreak);
        }
      } else if result.result == Loss {
        newStats := newStats.(losses := newStats.losses + 1);
        newStats := newStats.(currentWinStreak := 0);
      } else {
        newStats := newStats.(draws := newStats.draws + 1);
      }
      newStats := newStats.(totalMatches := newStats.totalMatches + 1);
      newStats := newStats.(totalDamageDealt := newStats.totalDamageDealt + result.damageDealt);
      newStats := newStats.(totalDamageTaken := newStats.totalDamageTaken + result.damageTaken);
      var history := [result] + newStats.matchHistory;
      newStats := newStats.(matchHistory := if |history| <= HistoryLimit then history else history[..HistoryLimit]);
      stats := newStats;
    }

    function GetWinRate(): int
      reads this
    {
      WinRate(stats)
    }

    method ResetStats()
      modifies this
      ensures stats == InitialStats
    {
      stats := InitialStats;
    }
  }

  // ---------------------------------------------------------------------
  // Properties

  /** Recording a match counts it once, under its result: the counts stay
      in balance, the streaks stay ordered, and the history stays within its
      limit. */
  lemma RecordedConsistent(s: PlayerStats, e: MatchHistoryEntry)
    requires Consistent(s)
    ensures Consistent(Recorded(s, e))
  {
  }

  lemma InitialConsistent()
    ensures Consistent(InitialStats)
  {
  }

  /** The effect of one match: one more match and one more of its result,
      the damage added, the streak grown by a win, reset by a loss and kept
      by a draw, and the longest streak the larger of itself and the new
      streak. */
  lemma RecordedEffect(s: PlayerStats, e: MatchHistoryEntry)
    ensures var t := Recorded(s, e);
            && t.totalMatches == s.totalMatches + 1
            && t.wins + t.losses + t.draws == s.wins + s.losses + s.draws + 1
            && t.totalDamageDealt - s.totalDamageDealt == e.damageDealt
            && t.totalDamageTaken - s.totalDamageTaken == e.damageTaken
            && (e.result == Win ==> t.wins == s.wins + 1 && t.currentWinStreak == s.currentWinStreak + 1)
            && (e.result == Loss ==> t.losses == s.losses + 1 && t.currentWinStreak == 0)
            && (e.result == Draw ==> t.draws == s.draws + 1 && t.currentWinStreak == s.currentWinStreak)
            && (e.result == Win ==> t.longestWinStreak == if t.currentWinStreak > s.longestWinStreak then t.currentWinStreak else s.longestWinStreak)
            && (e.result != Win ==> t.longestWinStreak == s.longestWinStreak)
  {
  }

  /** The history gains the new entry at its head and keeps the newest
      entries that fit. */
  lemma RecordedHistory(s: PlayerStats, e: MatchHistoryEntry)
    ensures var h := Recorded(s, e).matchHistory;
            && |h| == (if |s.matchHistory| + 1 < HistoryLimit then |s.matchHistory| + 1 else HistoryLimit)
            && h[0] == e
            && h[1..] == s.matchHistory[..|h| - 1]
  {
    var h := Recorded(s, e).matchHistory;
    assert h == ([e] + s.matchHistory)[..|h|];
  }

  /** Recording `n` wins in a row lengthens the streak by `n`, and the
      longest streak is at least as long. */
  lemma {:induction false} WinsInARow(s: PlayerStats, wins: seq<MatchHistoryEntry>)
    requires s.currentWinStreak <= s.longestWinStreak
    requires forall i | 0 <= i < |wins| :: wins[i].result == Win
    ensures RecordedAll(s, wins).currentWinStreak == s.currentWinStreak + |wins|
    ensures RecordedAll(s, wins).longestWinStreak >= s.currentWinStreak + |wins|
    decreases |wins|
  {
    if wins != [] {
      var next := Recorded(s, wins[0]);
      assert next.currentWinStreak == s.currentWinStreak + 1;
      assert forall i | 0 <= i < |wins[1..]| :: wins[1..][i].result == Win;
      WinsInARow(next, wins[1..]);
      assert RecordedAll(s, wins) == RecordedAll(next, wins[1..]);
    }
  }

  /** The stats after recording the entries in order. */
  function RecordedAll(s: PlayerStats, es: seq<MatchHistoryEntry>): PlayerStats
    decreases |es|
  {
    if es == [] then s else RecordedAll(Recorded(s, es[0]), es[1..])
  }

  lemma MulMonotone(t: int, x: int, y: int)
    requires t > 0 && x <= y
    ensures t * x <= t * y
  {
  }

  /** The win rate is a percentage: 100 when every match was won and 0
      when none was. */
  lemma WinRateIsPercentage(s: PlayerStats)
    requires Consistent(s)
    ensures 0 <= WinRate(s) <= 100
    ensures s.wins == s.totalMatches && s.totalMatches > 0 ==> WinRate(s) == 100
    ensures s.wins == 0 ==> WinRate(s) == 0
  {
    if s.totalMatches > 0 {
      var t := s.totalMatches;
      var r := WinRate(s);
      if r >= 101 {
        MulMonotone(2 * t, 101, r);
        assert false;
      }
      if r < 0 {
        MulMonotone(2 * t, r, -1);
        assert false;
      }
      if s.wins == t {
        if r <= 99 {
          MulMonotone(2 * t, r, 99);
          assert false;
        }
      }
      if s.wins == 0 {
        if r >= 1 {
          MulMonotone(2 * t, 1, r);
          assert false;
        }
      }
    }
  }
}
