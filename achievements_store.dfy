/** The client's achievements: a fixed list, each locked until it is
    unlocked once, with the time it was unlocked. Unlocking builds a new
    list that replaces the store's. Persistence in the browser is not
    modelled, and the clock is a parameter. */
module AchievementsStore {
  import opened Wrappers

  datatype Achievement = Achievement(
    id: string,
    name: string,
    description: string,
    icon: string,
    unlocked: bool,
    unlockedAt: Option<int>)

  function Locked(id: string, name: string, description: string, icon: string): Achievement {
    Achievement(id, name, description, icon, false, None)
  }

  /** The six achievements, all locked. */
  const InitialAchievements: seq<Achievement> := [
    Locked("first-blood", "First Blood", "Win your first match", "\U{1F947}"),
    Locked("win-streak-3", "Hat Trick", "Win 3 matches in a row", "\U{1F3AF}"),
    Locked("win-streak-5", "Unstoppable", "Win 5 matches in a row", "\U{1F525}"),
    Locked("veteran", "Veteran", "Play 50 matches", "\U{1F396}\U{FE0F}"),
    Locked("damage-dealer", "Damage Dealer", "Deal 1000 total damage", "\U{2694}\U{FE0F}"),
    Locked("tank", "Tank", "Survive 1000 total damage taken", "\U{1F6E1}\U{FE0F}")
  ]

  /** One achievement after `unlockAchievement(id)`. */
  function UnlockOne(a: Achievement, id: string, now: int): Achievement {
    if a.id == id && !a.unlocked then a.(unlocked := true, unlockedAt := Some(now)) else a
  }

  /** The list after `unlockAchievement(id)`. */
  function WithUnlocked(list: seq<Achievement>, id: string, now: int): (r: seq<Achievement>)
    ensures |r| == |list|
  {
    seq(|list|, i requires 0 <= i < |list| => UnlockOne(list[i], id, now))
  }

  /** `isUnlocked`: the flag of the first achievement with the id, false
      when there is none. */
  function UnlockedIn(list: seq<Achievement>, id: string): bool
    decreases |list|
  {
    if list == [] then false
    else if list[0].id == id then list[0].unlocked
    else UnlockedIn(list[1..], id)
  }

  /** `getUnlockedCount`. */
  function CountUnlocked(list: seq<Achievement>): (n: nat)
    ensures n <= |list|
    decreases |list|
  {
    if list == [] then 0 else (if list[0].unlocked then 1 else 0) + CountUnlocked(list[1..])
  }

  /** The ids of a list, in order. */
  function Ids(list: seq<Achievement>): seq<string> {
    seq(|list|, i requires 0 <= i < |list| => list[i].id)
  }

  predicate DistinctIds(list: seq<Achievement>) {
    forall i, j | 0 <= i < j < |list| :: list[i].id != list[j].id
  }

  class AchievementsStore {
    var achievements: seq<Achievement>

    constructor()
      ensures achievements == InitialAchievements
    {
      achievements := InitialAchievements;
    }

    method UnlockAchievement(id: string, now: int)
      modifies this
      ensures achievements == WithUnlocked(old(achievements), id, now)
    {
      achievements := WithUnlocked(achievements, id, now);
    }

    predicate IsUnlocked(id: string)
      reads this
    {
      UnlockedIn(achievements, id)
    }

    function GetUnlockedCount(): nat
      reads this
    {
      CountUnlocked(achievements)
    }
  }

  // ---------------------------------------------------------------------
  // Properties

  /** Unlocking touches only a locked achievement with the id: it becomes
      unlocked at `now`, and every other entry, and the order, stay. */
  lemma UnlockTouchesOnlyTarget(list: seq<Achievement>, id: string, now: int)
    ensures Ids(WithUnlocked(list, id, now)) == Ids(list)
    ensures forall i | 0 <= i < |list| && (list[i].id != id || list[i].unlocked) ::
              WithUnlocked(list, id, now)[i] == list[i]
    ensures forall i | 0 <= i < |list| && list[i].id == id && !list[i].unlocked ::
              WithUnlocked(list, id, now)[i] == list[i].(unlocked := true, unlockedAt := Some(now))
  {
  }

  /** Unlocking again changes nothing, and keeps the first unlock time. */
  lemma UnlockIdempotent(list: seq<Achievement>, id: string, now: int, later: int)
    ensures WithUnlocked(WithUnlocked(list, id, now), id, later) == WithUnlocked(list, id, now)
  {
  }

  /** An id no achievement has leaves the list as it is and reads as
      locked. */
  lemma {:induction false} UnknownId(list: seq<Achievement>, id: string, now: int)
    requires id !in Ids(list)
    ensures WithUnlocked(list, id, now) == list
    ensures !UnlockedIn(list, id)
    decreases |list|
  {
    if list != [] {
      assert Ids(list[1..]) == Ids(list)[1..];
      UnknownId(list[1..], id, now);
      assert list[0].id == Ids(list)[0];
    }
  }

  /** After unlocking an id some achievement has, the id reads as
      unlocked. */
  lemma {:induction false} UnlockedAfterUnlock(list: seq<Achievement>, id: string, now: int)
    requires id in Ids(list)
    ensures UnlockedIn(WithUnlocked(list, id, now), id)
    decreases |list|
  {
    var r := WithUnlocked(list, id, now);
    assert r[0] == UnlockOne(list[0], id, now);
    if list[0].id != id {
      assert Ids(list[1..]) == Ids(list)[1..];
      assert r[1..] == WithUnlocked(list[1..], id, now);
      UnlockedAfterUnlock(list[1..], id, now);
    }
  }

  /** Unlocking one id does not change how another reads. */
  lemma {:induction false} UnlockLeavesOthers(list: seq<Achievement>, id: string, other: string, now: int)
    requires other != id
    ensures UnlockedIn(WithUnlocked(list, id, now), other) == UnlockedIn(list, other)
    decreases |list|
  {
    if list != [] {
      var r := WithUnlocked(list, id, now);
      assert r[0].id == list[0].id;
      if list[0].id == other {
        assert r[0] == list[0];
      } else {
        assert r[1..] == WithUnlocked(list[1..], id, now);
        UnlockLeavesOthers(list[1..], id, other, now);
      }
    }
  }

  /** Unlocking never locks: whatever read as unlocked still does. */
  lemma {:induction false} UnlockKeepsUnlocked(list: seq<Achievement>, id: string, other: string, now: int)
    requires UnlockedIn(list, other)
    ensures UnlockedIn(WithUnlocked(list, id, now), other)
  {
    if other == id {
      UnlockedPresent(list, other);
      UnlockedAfterUnlock(list, id, now);
    } else {
      UnlockLeavesOthers(list, id, other, now);
    }
  }

  lemma {:induction false} UnlockedPresent(list: seq<Achievement>, id: string)
    requires UnlockedIn(list, id)
    ensures id in Ids(list)
    decreases |list|
  {
    if list[0].id != id {
      UnlockedPresent(list[1..], id);
      assert Ids(list[1..]) == Ids(list)[1..];
    } else {
      assert Ids(list)[0] == id;
    }
  }

  /** With distinct ids, an unlock adds one to the count exactly when it
      finds a locked achievement with the id. */
  lemma {:induction false} CountAfterUnlock(list: seq<Achievement>, id: string, now: int)
    requires DistinctIds(list)
    ensures CountUnlocked(WithUnlocked(list, id, now)) ==
              CountUnlocked(list) + (if exists i | 0 <= i < |list| :: list[i].id == id && !list[i].unlocked then 1 else 0)
    decreases |list|
  {
    if list != [] {
      var r := WithUnlocked(list, id, now);
      var rest := list[1..];
      assert r[1..] == WithUnlocked(rest, id, now);
      assert DistinctIds(rest) by {
        forall i, j | 0 <= i < j < |rest| ensures rest[i].id != rest[j].id {
          assert rest[i] == list[i + 1] && rest[j] == list[j + 1];
        }
      }
      CountAfterUnlock(rest, id, now);
      var hit := exists i | 0 <= i < |list| :: list[i].id == id && !list[i].unlocked;
      var hitRest := exists i | 0 <= i < |rest| :: rest[i].id == id && !rest[i].unlocked;
      if list[0].id == id {
        assert !hitRest by {
          forall i | 0 <= i < |rest| ensures rest[i].id != id {
            assert rest[i] == list[i + 1];
          }
        }
        if !list[0].unlocked {
          assert hit by {
            assert list[0].id == id && !list[0].unlocked;
          }
        } else {
          assert !hit by {
            forall i | 0 <= i < |list| ensures !(list[i].id == id && !list[i].unlocked) {
              if i > 0 {
                assert list[i] == rest[i - 1];
              }
            }
          }
        }
      } else {
        assert hit == hitRest by {
          if hitRest {
            var i :| 0 <= i < |rest| && rest[i].id == id && !rest[i].unlocked;
            assert list[i + 1] == rest[i];
          }
          if hit {
            var i :| 0 <= i < |list| && list[i].id == id && !list[i].unlocked;
            assert i > 0 && rest[i - 1] == list[i];
          }
        }
      }
    }
  }

  /** The initial list: six achievements, none unlocked. */
  lemma InitialAchievementsLocked()
    ensures |InitialAchievements| == 6
    ensures CountUnlocked(InitialAchievements) == 0
    ensures forall i | 0 <= i < |InitialAchievements| :: !UnlockedIn(InitialAchievements, InitialAchievements[i].id)
  {
  }

  /** The six ids differ. */
  lemma InitialIdsDistinct()
    ensures DistinctIds(InitialAchievements)
  {
  }
}
