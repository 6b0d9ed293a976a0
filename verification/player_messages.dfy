/** Player.OnMessage: the messages other objects send the player, as one
    datatype, and the pure handler that answers them. */
module PlayerMessages {
  import opened Common
  import opened PlayerModel

  /** The messages the player reacts to. Anything else is `Unrecognised` and ignored. */
  datatype Message =
    | ServeDestination(dest: Vec)        // where the served ball will come down
    | GetCurrentState
    | HighlightPlayer(enable: bool)
    | GameRestart
    | MatchRestart
    | PlayOver
    | TrialScoreLimitReached
    | TrialModeChanged
    | GetHasMultipleHitsBeforePartner
    | Unrecognised

  /** The output fields a query message has filled in. */
  datatype Reply = NoReply | StateReply(state: State) | FlagReply(flag: bool)

  predicate IsRestart(m: Message)
  {
    m == GameRestart || m == MatchRestart
  }

  /** Where a serve destination sends the player: four units left of it, on
      the floor, clamped into the court. */
  function WalkDestination(dest: Vec): (w: Vec)
    ensures InBounds(w) && w.y == Floor
    ensures Left <= dest.x - ServeOffset <= Right ==> w.x == dest.x - ServeOffset
    ensures dest.x - ServeOffset < Left ==> w.x == Left
    ensures dest.x - ServeOffset > Right ==> w.x == Right
  {
    Vec(Clamp(dest.x - ServeOffset, Left, Right), Clamp(0.0, Ceiling, Floor))
  }

  /** A restart puts a player found on the far side of the net back in the
      starting corner, standing still; otherwise it does not move it. */
  function ReturnToCourt(p: Player): (r: Player)
    ensures p.pos.x > 0.0 ==> r.pos == Vec(Left, Floor) && r.vel == Zero
    ensures p.pos.x <= 0.0 ==> r == p
    ensures r == p.(pos := r.pos, vel := r.vel)
  {
    if p.pos.x > 0.0 then p.(pos := Vec(Left, Floor), vel := Zero) else p
  }

  /** The handler. Camera zoom requests (on restarts and play-over) are left out. */
  function OnMessage(p: Player, m: Message): (r: (Player, Reply))
    // Serve: walk to the clamped destination, receiving.
    ensures m.ServeDestination? ==>
              r.0 == p.(walkDest := WalkDestination(m.dest), state := Receiving) && r.1 == NoReply
    // Queries answer from the current state and change nothing.
    ensures m == GetCurrentState ==> r == (p, StateReply(p.state))
    ensures m == GetHasMultipleHitsBeforePartner ==> r == (p, FlagReply(p.multipleHitsBeforePartner))
    ensures m.HighlightPlayer? ==>
              r.0 == p.(renderPriority := if m.enable then HighlightPriority else p.startingRenderPriority)
    // Restarts clear the second-hit flag and bring the player back to its side.
    ensures IsRestart(m) ==>
              && !r.0.multipleHitsBeforePartner
              && r.0.pos == ReturnToCourt(p).pos && r.0.vel == ReturnToCourt(p).vel
              && r.0.state == p.state
    ensures IsRestart(m) ==>
              r.0 == ReturnToCourt(p).(multipleHitsBeforePartner := false, trialLimitReached := r.0.trialLimitReached)
    // The trial messages touch nothing but the trial limit.
    ensures m == TrialScoreLimitReached || m == TrialModeChanged ==>
              r.0 == p.(trialLimitReached := r.0.trialLimitReached)
    // The trial limit is raised by its message and lowered by a game restart or a trial-mode change.
    ensures r.0.trialLimitReached <==>
              m == TrialScoreLimitReached
              || (p.trialLimitReached && m != GameRestart && m != TrialModeChanged)
    ensures m == PlayOver || m == Unrecognised ==> r == (p, NoReply)
    ensures r.1 != NoReply <==> m == GetCurrentState || m == GetHasMultipleHitsBeforePartner
  {
    match m
    case ServeDestination(dest) => (p.(walkDest := WalkDestination(dest), state := Receiving), NoReply)
    case GetCurrentState => (p, StateReply(p.state))
    case HighlightPlayer(enable) =>
      (p.(renderPriority := if enable then HighlightPriority else p.startingRenderPriority), NoReply)
    case GameRestart =>
      (ReturnToCourt(p.(multipleHitsBeforePartner := false, trialLimitReached := false)), NoReply)
    case MatchRestart => (ReturnToCourt(p.(multipleHitsBeforePartner := false)), NoReply)
    case PlayOver => (p, NoReply)
    case TrialScoreLimitReached => (p.(trialLimitReached := true), NoReply)
    case TrialModeChanged => (p.(trialLimitReached := false), NoReply)
    case GetHasMultipleHitsBeforePartner => (p, FlagReply(p.multipleHitsBeforePartner))
    case Unrecognised => (p, NoReply)
  }

  /** Receiving the same serve destination twice gives the same player as once. */
  lemma ServeIsIdempotent(p: Player, dest: Vec)
    ensures OnMessage(OnMessage(p, ServeDestination(dest)).0, ServeDestination(dest))
            == OnMessage(p, ServeDestination(dest))
  {
  }

  /** No message sets the second-hit flag; only the two restarts clear it. */
  lemma OnlyRestartsClearSecondHit(p: Player, m: Message)
    ensures OnMessage(p, m).0.multipleHitsBeforePartner ==> p.multipleHitsBeforePartner
    ensures p.multipleHitsBeforePartner && !OnMessage(p, m).0.multipleHitsBeforePartner ==> IsRestart(m)
  {
  }

  /** Messages keep the walk destination in the court, and move the player
      only by a restart's return to the starting corner. */
  lemma MessagesKeepCourt(p: Player, m: Message)
    requires Valid(p)
    ensures Valid(OnMessage(p, m).0)
    ensures OnMessage(p, m).0.pos == p.pos || (IsRestart(m) && OnMessage(p, m).0.pos == Vec(Left, Floor))
    ensures Settled(p) ==> Settled(OnMessage(p, m).0)
  {
  }
}
