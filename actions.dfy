/** The five actions a fighter can take in one tick. */
module Actions {

  datatype ActionType = Approach | Retreat | Attack | Block | Idle

  /** The action's name as it is written in strategies and on the wire. */
  function Name(a: ActionType): (s: string)
    ensures |s| >= 4
  {
    match a
    case Approach => "APPROACH"
    case Retreat => "RETREAT"
    case Attack => "ATTACK"
    case Block => "BLOCK"
    case Idle => "IDLE"
  }

  /** The action a name stands for; any other text names no action. */
  function FromName(s: string): (r: ActionType)
    requires IsActionName(s)
    ensures Name(r) == s
  {
    if s == "APPROACH" then Approach
    else if s == "RETREAT" then Retreat
    else if s == "ATTACK" then Attack
    else if s == "BLOCK" then Block
    else Idle
  }

  predicate IsActionName(s: string) {
    s == "ATTACK" || s == "BLOCK" || s == "APPROACH" || s == "RETREAT" || s == "IDLE"
  }

  lemma NameIsActionName(a: ActionType)
    ensures IsActionName(Name(a)) && FromName(Name(a)) == a
  {
  }
}
