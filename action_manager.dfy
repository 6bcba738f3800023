/** The per-player registry of action buttons. Every player owns a list of
    buttons; each button carries its own cooldown in milliseconds and the
    time it was last used. The clock is a parameter `now`, and the id of a
    custom button (built from the clock and a random suffix) is supplied by
    the caller. */
module ActionManager {
  import opened Wrappers
  import opened Actions

  /** Cooldown of the four built-in buttons. */
  const DefaultActionCooldownMs := 1500
  /** Cooldown of a button registered from submitted code. */
  const CustomActionCooldownMs := 5000

  datatype ActionButton = ActionButton(
    id: string, playerId: string, matchId: string,
    name: string, code: string,
    cooldownMs: int, lastUsedAt: int,
    isDefault: bool, actions: seq<ActionType>)

  /** What `triggerAction` answers: refused without a remaining time
      (unknown player or button), refused with the time still to wait, or
      accepted with the button's actions. */
  datatype TriggerResult =
    | NotTriggered
    | OnCooldown(cooldownRemaining: int)
    | Triggered(actions: seq<ActionType>)

  type Registry = map<string, seq<ActionButton>>

  /** A built-in button, never used yet. */
  function DefaultButton(id: string, name: string, action: ActionType, playerId: string, matchId: string): ActionButton {
    ActionButton(id, playerId, matchId, name, "", DefaultActionCooldownMs, 0, true, [action])
  }

  /** The four built-in buttons, in the order the table lists them. */
  function DefaultButtons(playerId: string, matchId: string): (bs: seq<ActionButton>)
    ensures |bs| == 4
    ensures bs[0].id == "moveForward" && bs[0].actions == [Approach]
    ensures bs[1].id == "moveBackward" && bs[1].actions == [Retreat]
    ensures bs[2].id == "attack" && bs[2].actions == [Attack]
    ensures bs[3].id == "defend" && bs[3].actions == [Block]
    ensures forall k | 0 <= k < 4 ::
              bs[k].playerId == playerId && bs[k].matchId == matchId && bs[k].code == ""
              && bs[k].cooldownMs == DefaultActionCooldownMs && bs[k].lastUsedAt == 0 && bs[k].isDefault
  {
    [ DefaultButton("moveForward", "Move Forward", Approach, playerId, matchId),
      DefaultButton("moveBackward", "Move Backward", Retreat, playerId, matchId),
      DefaultButton("attack", "Attack", Attack, playerId, matchId),
      DefaultButton("defend", "Defend", Block, playerId, matchId) ]
  }

  /** A freshly registered custom button; `ATTACK` when no action types are
      given. */
  function CustomButton(id: string, playerId: string, matchId: string, name: string, code: string,
                        actionTypes: Option<seq<ActionType>>): (b: ActionButton)
    ensures b.cooldownMs == CustomActionCooldownMs && b.lastUsedAt == 0 && !b.isDefault
    ensures b.actions == (if actionTypes.Some? then actionTypes.value else [Attack])
  {
    var acts := match actionTypes case Some(ts) => ts case None => [Attack];
    ActionButton(id, playerId, matchId, name, code, CustomActionCooldownMs, 0, false, acts)
  }

  /** The player's buttons, or none for a player without a list. */
  function ButtonsOf(r: Registry, playerId: string): seq<ActionButton> {
    if playerId in r then r[playerId] else []
  }

  /** Index of the first button from `i` on whose id is `actionId`
      (`Array.prototype.find`). */
  function FindFrom(bs: seq<ActionButton>, actionId: string, i: nat): (r: Option<nat>)
    requires i <= |bs|
    ensures r.Some? ==> i <= r.value < |bs| && bs[r.value].id == actionId
    ensures r.Some? ==> forall k | i <= k < r.value :: bs[k].id != actionId
    ensures r.None? ==> forall k | i <= k < |bs| :: bs[k].id != actionId
    decreases |bs| - i
  {
    if i == |bs| then None
    else if bs[i].id == actionId then Some(i)
    else FindFrom(bs, actionId, i + 1)
  }

  /** A button is cooling down when it has been used and less than its
      cooldown has elapsed since. */
  predicate CoolingDown(b: ActionButton, now: int) {
    b.lastUsedAt > 0 && now - b.lastUsedAt < b.cooldownMs
  }

  /** `triggerAction` at time `now`: its answer and the registry after it. */
  function Trigger(r: Registry, playerId: string, actionId: string, now: int): (TriggerResult, Registry) {
    if playerId !in r then (NotTriggered, r)
    else
      var bs := r[playerId];
      match FindFrom(bs, actionId, 0)
      case None => (NotTriggered, r)
      case Some(i) =>
        var b := bs[i];
        if CoolingDown(b, now) then (OnCooldown(b.cooldownMs - (now - b.lastUsedAt)), r)
        else (Triggered(b.actions), r[playerId := bs[i := b.(lastUsedAt := now)]])
  }

  /** `isOnCooldown` at time `now`. */
  predicate OnCooldownAt(r: Registry, playerId: string, actionId: string, now: int) {
    playerId in r && FindFrom(r[playerId], actionId, 0).Some?
    && CoolingDown(r[playerId][FindFrom(r[playerId], actionId, 0).value], now)
  }

  class ActionManager {
    /** Player id to that player's buttons. */
    var actions: Registry

    constructor()
      ensures actions == map[]
    {
      actions := map[];
    }

    /** `initDefaultActions`: the player's list becomes the four built-in
        buttons, whatever it held before. */
    method InitDefaultActions(playerId: string, matchId: string)
      modifies this
      ensures actions == old(actions)[playerId := DefaultButtons(playerId, matchId)]
    {
      actions := actions[playerId := DefaultButtons(playerId, matchId)];
    }

    /** `registerAction`: appends one custom button to the player's list,
        starting a list for a player without one. */
    method RegisterAction(playerId: string, matchId: string, name: string, code: string,
                          actionTypes: Option<seq<ActionType>>, id: string) returns (button: ActionButton)
      modifies this
      ensures button == CustomButton(id, playerId, matchId, name, code, actionTypes)
      ensures actions == old(actions)[playerId := ButtonsOf(old(actions), playerId) + [button]]
    {
      button := CustomButton(id, playerId, matchId, name, code, actionTypes);
      var existing := if playerId in actions then actions[playerId] else [];
      actions := actions[playerId := existing + [button]];
    }

    /** `triggerAction` at time `now`. */
    method TriggerAction(playerId: string, actionId: string, now: int) returns (result: TriggerResult)
      modifies this
      ensures (result, actions) == Trigger(old(actions), playerId, actionId, now)
    {
      if playerId !in actions {
        return NotTriggered;
      }
      var buttons := actions[playerId];
      var found := FindFrom(buttons, actionId, 0);
      if found.None? {
        return NotTriggered;
      }
      var i := found.value;
      var button := buttons[i];
      var elapsed := now - button.lastUsedAt;
      if button.lastUsedAt > 0 && elapsed < button.cooldownMs {
        return OnCooldown(button.cooldownMs - elapsed);
      }
      actions := actions[playerId := buttons[i := button.(lastUsedAt := now)]];
      result := Triggered(button.actions);
    }

    /** `isOnCooldown` at time `now`: true exactly when triggering the same
        button at the same moment would be refused with a remaining time. */
    predicate IsOnCooldown(playerId: string, actionId: string, now: int)
      reads this
      ensures IsOnCooldown(playerId, actionId, now) <==> Trigger(actions, playerId, actionId, now).0.OnCooldown?
    {
      OnCooldownAt(actions, playerId, actionId, now)
    }

    /** `getAvailableActions`: the player's buttons, none for an unknown
        player. */
    function GetAvailableActions(playerId: string): (bs: seq<ActionButton>)
      reads this
      ensures playerId !in actions ==> bs == []
      ensures playerId in actions ==> bs == actions[playerId]
    {
      ButtonsOf(actions, playerId)
    }

    /** `clearActions`: the player's list is removed. */
    method ClearActions(playerId: string)
      modifies this
      ensures actions == old(actions) - {playerId}
      ensures GetAvailableActions(playerId) == []
    {
      actions := actions - {playerId};
    }
  }

  /** An unknown player or button is refused without a remaining time and
      the registry is left as it was. */
  lemma TriggerUnknown(r: Registry, playerId: string, actionId: string, now: int)
    requires forall k | 0 <= k < |ButtonsOf(r, playerId)| :: ButtonsOf(r, playerId)[k].id != actionId
    ensures Trigger(r, playerId, actionId, now) == (NotTriggered, r)
  {
    if playerId in r {
      assert ButtonsOf(r, playerId) == r[playerId];
      assert FindFrom(r[playerId], actionId, 0).None?;
    }
  }

  /** A known button triggers exactly when it was never used or at least its
      cooldown has elapsed; then its `lastUsedAt` becomes `now` and its
      actions are returned. */
  lemma TriggerSucceedsIff(r: Registry, playerId: string, actionId: string, now: int, i: nat)
    requires playerId in r && FindFrom(r[playerId], actionId, 0) == Some(i)
    ensures Trigger(r, playerId, actionId, now).0.Triggered?
            <==> r[playerId][i].lastUsedAt <= 0 || now - r[playerId][i].lastUsedAt >= r[playerId][i].cooldownMs
    ensures Trigger(r, playerId, actionId, now).0.Triggered? ==>
              Trigger(r, playerId, actionId, now).0.actions == r[playerId][i].actions
              && Trigger(r, playerId, actionId, now).1[playerId][i].lastUsedAt == now
    ensures !Trigger(r, playerId, actionId, now).0.Triggered? ==>
              Trigger(r, playerId, actionId, now) ==
                (OnCooldown(r[playerId][i].cooldownMs - (now - r[playerId][i].lastUsedAt)), r)
  {
  }

  /** A refused trigger reports a remaining time in (0, cooldown], as long
      as the clock has not gone back since the button was used. */
  lemma CooldownRemainingBounds(r: Registry, playerId: string, actionId: string, now: int, i: nat)
    requires playerId in r && FindFrom(r[playerId], actionId, 0) == Some(i)
    requires now >= r[playerId][i].lastUsedAt
    ensures Trigger(r, playerId, actionId, now).0.OnCooldown? ==>
              0 < Trigger(r, playerId, actionId, now).0.cooldownRemaining <= r[playerId][i].cooldownMs
  {
  }

  /** Triggering touches only the `lastUsedAt` of the button found: every
      other player, every other button and every other field keep their
      values. */
  lemma OnlyTriggeredButtonChanges(r: Registry, playerId: string, actionId: string, now: int)
    ensures var r' := Trigger(r, playerId, actionId, now).1;
            r'.Keys == r.Keys
            && (forall p | p in r && p != playerId :: r'[p] == r[p])
            && (playerId in r ==>
                  |r'[playerId]| == |r[playerId]|
                  && forall k | 0 <= k < |r[playerId]| ::
                       r'[playerId][k] == r[playerId][k].(lastUsedAt := r'[playerId][k].lastUsedAt)
                       && (r'[playerId][k].lastUsedAt != r[playerId][k].lastUsedAt ==>
                             FindFrom(r[playerId], actionId, 0) == Some(k)))
  {
  }

  /** Right after a successful trigger the same button is on cooldown, for
      as long as its cooldown runs, when the clock is positive. */
  lemma TriggeredThenCooling(r: Registry, playerId: string, actionId: string, now: int, later: int)
    requires Trigger(r, playerId, actionId, now).0.Triggered?
    requires 0 < now <= later
    ensures var r' := Trigger(r, playerId, actionId, now).1;
            var i := FindFrom(r[playerId], actionId, 0).value;
            later - now < r[playerId][i].cooldownMs <==> OnCooldownAt(r', playerId, actionId, later)
  {
    var i := FindFrom(r[playerId], actionId, 0).value;
    var r' := Trigger(r, playerId, actionId, now).1;
    FindSameIds(r[playerId], r'[playerId], actionId, 0);
  }

  /** `find` only looks at ids, so changing other fields does not move it. */
  lemma {:induction false} FindSameIds(bs: seq<ActionButton>, cs: seq<ActionButton>, actionId: string, i: nat)
    requires |bs| == |cs| && i <= |bs|
    requires forall k | 0 <= k < |bs| :: bs[k].id == cs[k].id
    ensures FindFrom(bs, actionId, i) == FindFrom(cs, actionId, i)
    decreases |bs| - i
  {
    if i < |bs| {
      FindSameIds(bs, cs, actionId, i + 1);
    }
  }

  /** A registered button is the last of the player's list and `find`
      reaches it when its id is new to that player. */
  lemma RegisteredIsFound(r: Registry, playerId: string, b: ActionButton)
    requires forall k | 0 <= k < |ButtonsOf(r, playerId)| :: ButtonsOf(r, playerId)[k].id != b.id
    ensures var bs := ButtonsOf(r, playerId) + [b];
            FindFrom(bs, b.id, 0) == Some(|bs| - 1)
  {
    var bs := ButtonsOf(r, playerId) + [b];
    assert bs[|bs| - 1].id == b.id;
  }
}
