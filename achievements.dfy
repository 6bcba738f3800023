/** `checkAchievements`: after a match the client tests six thresholds on
    the player's stats, in a fixed order, and unlocks each achievement whose
    threshold is met and which is still locked, collecting the ids it
    unlocked. The six guarded blocks are one `CheckRule` step each. */
module Achievements {
  import opened Wrappers
  import opened StatsStore
  import opened AchievementsStore

  datatype Rule = FirstBlood | WinStreak3 | WinStreak5 | Veteran | DamageDealer | Tank

  /** The achievement a rule unlocks. */
  function RuleId(r: Rule): string {
    match r
    case FirstBlood => "first-blood"
    case WinStreak3 => "win-streak-3"
    case WinStreak5 => "win-streak-5"
    case Veteran => "veteran"
    case DamageDealer => "damage-dealer"
    case Tank => "tank"
  }

  /** The threshold of a rule. */
  predicate Earned(r: Rule, stats: PlayerStats) {
    match r
    case FirstBlood => stats.wins >= 1
    case WinStreak3 => stats.currentWinStreak >= 3
    case WinStreak5 => stats.currentWinStreak >= 5
    case Veteran => stats.totalMatches >= 50
    case DamageDealer => stats.totalDamageDealt >= 1000
    case Tank => stats.totalDamageTaken >= 1000
  }

  /** The order in which the rules are tested. */
  const Rules: seq<Rule> := [FirstBlood, WinStreak3, WinStreak5, Veteran, DamageDealer, Tank]

  /** One guarded block: the ids unlocked so far and the list, after
      testing `r`. */
  function Step(newly: seq<string>, list: seq<Achievement>, stats: PlayerStats, r: Rule, now: int)
    : (seq<string>, seq<Achievement>)
  {
    if Earned(r, stats) && !UnlockedIn(list, RuleId(r))
    then (newly + [RuleId(r)], WithUnlocked(list, RuleId(r), now))
    else (newly, list)
  }

  /** The blocks for `rules`, one after the other. */
  function Checked(newly: seq<string>, list: seq<Achievement>, stats: PlayerStats, rules: seq<Rule>, now: int)
    : (seq<string>, seq<Achievement>)
    decreases |rules|
  {
    if rules == [] then (newly, list)
    else
      var (n, l) := Step(newly, list, stats, rules[0], now);
      Checked(n, l, stats, rules[1..], now)
  }

  /** The ids of the rules, in order, whose threshold is met and whose
      achievement is locked in `list`. */
  function Due(list: seq<Achievement>, stats: PlayerStats, rules: seq<Rule>): seq<string>
    decreases |rules|
  {
    if rules == [] then []
    else (if Earned(rules[0], stats) && !UnlockedIn(list, RuleId(rules[0])) then [RuleId(rules[0])] else [])
         + Due(list, stats, rules[1..])
  }

  predicate DistinctRuleIds(rules: seq<Rule>) {
    forall i, j | 0 <= i < j < |rules| :: RuleId(rules[i]) != RuleId(rules[j])
  }

  /** Every rule's achievement is in the list. */
  predicate Listed(list: seq<Achievement>, rules: seq<Rule>) {
    forall i | 0 <= i < |rules| :: RuleId(rules[i]) in Ids(list)
  }

  /** One guarded block of `checkAchievements`. */
  method CheckRule(store: AchievementsStore, stats: PlayerStats, r: Rule, now: int, newly: seq<string>)
    returns (newlyUnlocked: seq<string>)
    modifies store
    ensures (newlyUnlocked, store.achievements) == Step(newly, old(store.achievements), stats, r, now)
  {
    newlyUnlocked := newly;
    var id := RuleId(r);
    if Earned(r, stats) && !store.IsUnlocked(id) {
      store.UnlockAchievement(id, now);
      newlyUnlocked := newlyUnlocked + [id];
    }
  }

  method CheckAchievements(store: AchievementsStore, stats: PlayerStats, now: int)
    returns (newlyUnlocked: seq<string>)
    modifies store
    ensures (newlyUnlocked, store.achievements) == Checked([], old(store.achievements), stats, Rules, now)
  {
    ghost var start := store.achievements;
    newlyUnlocked := [];
    newlyUnlocked := CheckRule(store, stats, FirstBlood, now, newlyUnlocked);
    newlyUnlocked := CheckRule(store, stats, WinStreak3, now, newlyUnlocked);
    newlyUnlocked := CheckRule(store, stats, WinStreak5, now, newlyUnlocked);
    newlyUnlocked := CheckRule(store, stats, Veteran, now, newlyUnlocked);
    newlyUnlocked := CheckRule(store, stats, DamageDealer, now, newlyUnlocked);
    newlyUnlocked := CheckRule(store, stats, Tank, now, newlyUnlocked);
    assert Rules[1..][1..][1..][1..][1..][1..] == [];
  }

  /** `getAchievementById`: the first achievement with the id. */
  function AchievementById(list: seq<Achievement>, id: string): (r: Option<Achievement>)
    ensures r.Some? <==> id in Ids(list)
    ensures r.Some? ==> r.value.id == id && r.value in list && r.value.unlocked == UnlockedIn(list, id)
    decreases |list|
  {
    if list == [] then None
    else if list[0].id == id then
      assert Ids(list)[0] == id;
      Some(list[0])
    else
      assert Ids(list[1..]) == Ids(list)[1..];
      AchievementById(list[1..], id)
  }

  // ---------------------------------------------------------------------
  // Properties

  /** The six rules unlock six different achievements. */
  lemma RulesDistinct()
    ensures DistinctRuleIds(Rules)
  {
  }

  /** Unlocking an id none of the rules names leaves which rules are due
      as it was. */
  lemma {:induction false} DueUnchanged(list: seq<Achievement>, id: string, stats: PlayerStats, rules: seq<Rule>, now: int)
    requires forall i | 0 <= i < |rules| :: RuleId(rules[i]) != id
    ensures Due(WithUnlocked(list, id, now), stats, rules) == Due(list, stats, rules)
    decreases |rules|
  {
    if rules != [] {
      UnlockLeavesOthers(list, id, RuleId(rules[0]), now);
      DueUnchanged(list, id, stats, rules[1..], now);
    }
  }

  /** With rules for different achievements, the check returns, in rule
      order, exactly the ids of the rules whose threshold is met and whose
      achievement was locked before it. */
  lemma {:induction false} CheckedReturnsDue(newly: seq<string>, list: seq<Achievement>, stats: PlayerStats,
                                            rules: seq<Rule>, now: int)
    requires DistinctRuleIds(rules)
    ensures Checked(newly, list, stats, rules, now).0 == newly + Due(list, stats, rules)
    decreases |rules|
  {
    if rules != [] {
      var r := rules[0];
      var (n, l) := Step(newly, list, stats, r, now);
      var rest := rules[1..];
      assert DistinctRuleIds(rest) by {
        forall i, j | 0 <= i < j < |rest| ensures RuleId(rest[i]) != RuleId(rest[j]) {
          assert rest[i] == rules[i + 1] && rest[j] == rules[j + 1];
        }
      }
      CheckedReturnsDue(n, l, stats, rest, now);
      StepKeepsDue(newly, list, stats, rules, now);
    }
  }

  /** One step adds to the ids it returns just what is due for its rule,
      and leaves what is due for the later rules as it was. */
  lemma StepKeepsDue(newly: seq<string>, list: seq<Achievement>, stats: PlayerStats, rules: seq<Rule>, now: int)
    requires rules != []
    requires forall i | 1 <= i < |rules| :: RuleId(rules[i]) != RuleId(rules[0])
    ensures Step(newly, list, stats, rules[0], now).0 + Due(Step(newly, list, stats, rules[0], now).1, stats, rules[1..])
            == newly + Due(list, stats, rules)
  {
    var id := RuleId(rules[0]);
    var d := Due(list, stats, rules[1..]);
    if Earned(rules[0], stats) && !UnlockedIn(list, id) {
      assert forall i | 0 <= i < |rules[1..]| :: RuleId(rules[1..][i]) != id by {
        forall i | 0 <= i < |rules[1..]| ensures RuleId(rules[1..][i]) != id {
          assert rules[1..][i] == rules[i + 1];
        }
      }
      DueUnchanged(list, id, stats, rules[1..], now);
      assert (newly + [id]) + d == newly + ([id] + d);
    }
  }

  /** The check keeps the ids and their order, never locks an achievement,
      and keeps an unlocked achievement exactly as it was, with its unlock
      time. */
  lemma {:induction false} CheckedNeverLocks(newly: seq<string>, list: seq<Achievement>, stats: PlayerStats,
                                            rules: seq<Rule>, now: int)
    ensures var after := Checked(newly, list, stats, rules, now).1;
            && Ids(after) == Ids(list)
            && (forall i | 0 <= i < |list| && list[i].unlocked :: after[i] == list[i])
            && (forall id | UnlockedIn(list, id) :: UnlockedIn(after, id))
    decreases |rules|
  {
    if rules != [] {
      var r := rules[0];
      var (n, l) := Step(newly, list, stats, r, now);
      if l != list {
        UnlockTouchesOnlyTarget(list, RuleId(r), now);
        forall id | UnlockedIn(list, id) ensures UnlockedIn(l, id) {
          UnlockKeepsUnlocked(list, RuleId(r), id, now);
        }
      }
      assert |Ids(l)| == |Ids(list)|;
      CheckedNeverLocks(n, l, stats, rules[1..], now);
    }
  }

  /** When the list has every rule's achievement, every rule whose threshold
      is met has its achievement unlocked after the check. */
  lemma {:induction false} CheckedUnlocksEarned(newly: seq<string>, list: seq<Achievement>, stats: PlayerStats,
                                               rules: seq<Rule>, now: int)
    requires Listed(list, rules)
    ensures forall i | 0 <= i < |rules| && Earned(rules[i], stats) ::
              UnlockedIn(Checked(newly, list, stats, rules, now).1, RuleId(rules[i]))
    decreases |rules|
  {
    if rules != [] {
      var r := rules[0];
      var (n, l) := Step(newly, list, stats, r, now);
      var after := Checked(n, l, stats, rules[1..], now).1;
      assert after == Checked(newly, list, stats, rules, now).1;
      UnlockTouchesOnlyTarget(list, RuleId(r), now);
      assert Listed(l, rules[1..]) by {
        forall i | 0 <= i < |rules[1..]| ensures RuleId(rules[1..][i]) in Ids(l) {
          assert rules[1..][i] == rules[i + 1];
        }
      }
      CheckedUnlocksEarned(n, l, stats, rules[1..], now);
      CheckedNeverLocks(n, l, stats, rules[1..], now);
      if Earned(r, stats) {
        if !UnlockedIn(list, RuleId(r)) {
          assert RuleId(rules[0]) in Ids(list);
          UnlockedAfterUnlock(list, RuleId(r), now);
        }
        assert UnlockedIn(after, RuleId(r));
      }
      forall i | 0 <= i < |rules| && Earned(rules[i], stats)
        ensures UnlockedIn(after, RuleId(rules[i]))
      {
        if i > 0 {
          assert rules[i] == rules[1..][i - 1];
        }
      }
    }
  }

  /** A second check with the same stats unlocks nothing more, when the list
      has the six achievements. */
  lemma SecondCheckFindsNothing(list: seq<Achievement>, stats: PlayerStats, now: int, later: int)
    requires Listed(list, Rules)
    ensures var after := Checked([], list, stats, Rules, now).1;
            Checked([], after, stats, Rules, later).0 == []
  {
    var after := Checked([], list, stats, Rules, now).1;
    RulesDistinct();
    CheckedUnlocksEarned([], list, stats, Rules, now);
    CheckedReturnsDue([], after, stats, Rules, later);
    NothingDue(after, stats, Rules);
  }

  /** No rule is due when every earned rule's achievement is unlocked. */
  lemma {:induction false} NothingDue(list: seq<Achievement>, stats: PlayerStats, rules: seq<Rule>)
    requires forall i | 0 <= i < |rules| && Earned(rules[i], stats) :: UnlockedIn(list, RuleId(rules[i]))
    ensures Due(list, stats, rules) == []
    decreases |rules|
  {
    if rules != [] {
      assert forall i | 0 <= i < |rules[1..]| :: rules[1..][i] == rules[i + 1];
      NothingDue(list, stats, rules[1..]);
    }
  }

  /** The initial list has the six achievements. */
  lemma InitialListsRules()
    ensures Listed(InitialAchievements, Rules)
  {
    assert Ids(InitialAchievements) == ["first-blood", "win-streak-3", "win-streak-5", "veteran", "damage-dealer", "tank"];
  }

  /** On the recorded stats the thresholds nest: five wins in a row are
      three in a row, and three in a row include a win. */
  lemma EarnedNest(stats: PlayerStats)
    requires Consistent(stats)
    ensures Earned(WinStreak5, stats) ==> Earned(WinStreak3, stats)
    ensures Earned(WinStreak3, stats) ==> Earned(FirstBlood, stats)
  {
  }

  /** The check unlocks nothing but the achievements of rules whose
      threshold is met: whatever is unlocked afterwards was unlocked before
      or belongs to such a rule. */
  lemma {:induction false} OnlyEarnedUnlock(newly: seq<string>, list: seq<Achievement>, stats: PlayerStats,
                                           rules: seq<Rule>, now: int, id: string)
    ensures UnlockedIn(Checked(newly, list, stats, rules, now).1, id) ==>
              || UnlockedIn(list, id)
              || exists i | 0 <= i < |rules| :: RuleId(rules[i]) == id && Earned(rules[i], stats)
    decreases |rules|
  {
    if rules != [] && UnlockedIn(Checked(newly, list, stats, rules, now).1, id) {
      var r := rules[0];
      var (n, l) := Step(newly, list, stats, r, now);
      OnlyEarnedUnlock(n, l, stats, rules[1..], now, id);
      if exists i | 0 <= i < |rules[1..]| :: RuleId(rules[1..][i]) == id && Earned(rules[1..][i], stats) {
        var i :| 0 <= i < |rules[1..]| && RuleId(rules[1..][i]) == id && Earned(rules[1..][i], stats);
        assert rules[1..][i] == rules[i + 1];
      } else if l != list {
        if id == RuleId(r) {
          assert RuleId(rules[0]) == id && Earned(rules[0], stats);
        } else {
          UnlockLeavesOthers(list, RuleId(r), id, now);
        }
      }
    }
  }

  /** The streak achievements nest: win-streak-5 unlocked implies
      win-streak-3 unlocked, which implies first-blood unlocked. */
  predicate Nested(list: seq<Achievement>) {
    && (UnlockedIn(list, "win-streak-5") ==> UnlockedIn(list, "win-streak-3"))
    && (UnlockedIn(list, "win-streak-3") ==> UnlockedIn(list, "first-blood"))
  }

  /** If rule `hi`'s threshold implies rule `lo`'s, and `hi` unlocked implies
      `lo` unlocked before a check, the same holds after it. */
  lemma NestPairAfterCheck(list: seq<Achievement>, stats: PlayerStats, now: int, hi: nat, lo: nat)
    requires Listed(list, Rules) && hi < |Rules| && lo < |Rules|
    requires Earned(Rules[hi], stats) ==> Earned(Rules[lo], stats)
    requires UnlockedIn(list, RuleId(Rules[hi])) ==> UnlockedIn(list, RuleId(Rules[lo]))
    ensures var after := Checked([], list, stats, Rules, now).1;
            UnlockedIn(after, RuleId(Rules[hi])) ==> UnlockedIn(after, RuleId(Rules[lo]))
  {
    var after := Checked([], list, stats, Rules, now).1;
    if UnlockedIn(after, RuleId(Rules[hi])) {
      RulesDistinct();
      OnlyEarnedUnlock([], list, stats, Rules, now, RuleId(Rules[hi]));
      if UnlockedIn(list, RuleId(Rules[hi])) {
        CheckedNeverLocks([], list, stats, Rules, now);
      } else {
        CheckedUnlocksEarned([], list, stats, Rules, now);
      }
    }
  }

  /** On consistent stats a check keeps the streak achievements nested, so
      from the initial list on they stay nested. */
  lemma NestAfterCheck(list: seq<Achievement>, stats: PlayerStats, now: int)
    requires Consistent(stats) && Listed(list, Rules) && Nested(list)
    ensures Nested(Checked([], list, stats, Rules, now).1)
  {
    EarnedNest(stats);
    assert Rules[0] == FirstBlood && Rules[1] == WinStreak3 && Rules[2] == WinStreak5;
    NestPairAfterCheck(list, stats, now, 2, 1);
    NestPairAfterCheck(list, stats, now, 1, 0);
  }

  /** Nothing is unlocked at first, so the initial list is nested. */
  lemma InitialNested()
    ensures Nested(InitialAchievements)
  {
    InitialAchievementsLocked();
    assert InitialAchievements[2].id == "win-streak-5" && InitialAchievements[1].id == "win-streak-3";
  }
}
