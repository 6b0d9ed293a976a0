/** The player over a session: frames (Update, the messages other objects
    send during the update pass, then PostUpdate) and messages delivered
    between frames, in any order, and what stays true across them. */
module PlayerRun {
  import opened Common
  import opened PlayerModel
  import opened PlayerUpdate
  import opened PlayerMessages
  import opened PlayerProperties

  /** What happens to the player between two observations. A frame carries
      the messages that reach the player after its own Update and before its
      PostUpdate, sent by objects updated later in the same pass. */
  datatype Event = Frame(inputs: TickInputs, during: seq<Message>) | Deliver(msg: Message)

  /** The player after a run of events, with every score event it emitted, in order. */
  datatype Session = Session(player: Player, scores: seq<ScoreKind>)

  /** The messages of one update pass, delivered in order. Their replies go
      back to the senders and are not kept. */
  function DeliverAll(p: Player, ms: seq<Message>): (r: Player)
    ensures Valid(p) ==> Valid(r)
    ensures r.pos == p.pos || r.pos == Vec(Left, Floor)
    ensures (forall i :: 0 <= i < |ms| ==> !IsRestart(ms[i])) ==> r.pos == p.pos
    decreases |ms|
  {
    if |ms| == 0 then p
    else
      assert forall i :: 0 <= i < |ms[1..]| ==> ms[1..][i] == ms[i + 1];
      DeliverAll(OnMessage(p, ms[0]).0, ms[1..])
  }

  /** One event. A frame is the player's Update, then the messages other
      objects send it during the same update pass, then its PostUpdate: the
      engine runs every object's Update before any PostUpdate. */
  function Step(p: Player, e: Event): (r: Result<Session, Fault>)
    ensures r.Failure? <==> e.Frame? && p.state == Receiving && e.inputs.world.ball.None?
    ensures e.Frame? && r.Success? ==> r.value.player.pos.x <= NetOffset
    ensures e.Deliver? ==> r.Success? && r.value.scores == []
  {
    match e
    case Frame(t, during) =>
      (match Update(p, t)
       case Failure(f) => Failure(f)
       case Success(tick) => Success(Session(PostUpdate(DeliverAll(tick.player, during)), tick.scores)))
    case Deliver(m) => Success(Session(OnMessage(p, m).0, []))
  }

  /** A run of events, stopping at the first fault. */
  function Run(p: Player, evs: seq<Event>): Result<Session, Fault>
    decreases |evs|
  {
    if |evs| == 0 then Success(Session(p, []))
    else
      match Step(p, evs[0])
      case Failure(f) => Failure(f)
      case Success(first) =>
        match Run(first.player, evs[1..])
        case Failure(f) => Failure(f)
        case Success(rest) => Success(Session(rest.player, first.scores + rest.scores))
  }

  /** One event keeps a settled, valid player settled and valid. */
  lemma StepKeepsSettled(p: Player, e: Event)
    requires Valid(p) && Settled(p)
    // The event does not fault (see Step).
    requires !(e.Frame? && p.state == Receiving && e.inputs.world.ball.None?)
    ensures Step(p, e).Success?
    ensures Valid(Step(p, e).value.player) && Settled(Step(p, e).value.player)
  {
    match e
    case Frame(t, during) =>
      UpdateKeepsCourt(p, t);
    case Deliver(m) =>
      MessagesKeepCourt(p, m);
  }

  /** However long the session, the player stays in the court, on its own
      side of the net, with a walk destination in the court. */
  lemma {:induction false} RunStaysSettled(p: Player, evs: seq<Event>)
    requires Valid(p) && Settled(p)
    requires Run(p, evs).Success?
    ensures Valid(Run(p, evs).value.player) && Settled(Run(p, evs).value.player)
    decreases |evs|
  {
    if |evs| > 0 {
      StepKeepsSettled(p, evs[0]);
      RunStaysSettled(Step(p, evs[0]).value.player, evs[1..]);
    }
  }

  /** A restart that arrives during the update pass, after the player's own
      Update has carried it past the net, sends it back to the starting
      corner, standing still, before PostUpdate can pin it to the net. */
  lemma RestartDuringFrameReturnsToCorner(p: Player, t: TickInputs, m: Message)
    requires IsRestart(m)
    requires Update(p, t).Success? && Update(p, t).value.player.pos.x > 0.0
    ensures Step(p, Frame(t, [m])).Success?
    ensures Step(p, Frame(t, [m])).value.player.pos == Vec(Left, Floor)
    ensures Step(p, Frame(t, [m])).value.player.vel == Zero
    ensures !Step(p, Frame(t, [m])).value.player.multipleHitsBeforePartner
  {
    var q := Update(p, t).value.player;
    assert [m][1..] == [];
    assert DeliverAll(q, [m]) == OnMessage(q, m).0;
  }

  /** A settled player jumping fast toward the net, with no gestures and no
      ball. */
  function NetJumper(): Player
  {
    Player(Jump, Vec(-14.0, -40.0), Vec(20.0, -1.0), 5, Vec(-40.0, 0.0), false, false, 5, 5)
  }

  function QuietTick(): TickInputs
  {
    TickInputs(GamePlay, Gestures(false, None, Unscripted), World(None, None, None, None, false, -8.0, Zero))
  }

  /** The jumper's Update carries it to (6, -40.8), past the net. Left alone,
      PostUpdate pins it to the net at x = -12, still moving; a match restart
      sent during the same pass returns it to the corner (-90, 0) instead. */
  lemma RestartDuringFrameExample()
    ensures Valid(NetJumper()) && Settled(NetJumper())
    ensures Update(NetJumper(), QuietTick()).Success?
    ensures Update(NetJumper(), QuietTick()).value.player.pos == Vec(6.0, -40.8)
    ensures Step(NetJumper(), Frame(QuietTick(), [])).Success?
    ensures Step(NetJumper(), Frame(QuietTick(), [])).value.player.pos == Vec(NetOffset, -40.8)
    ensures Step(NetJumper(), Frame(QuietTick(), [])).value.player.vel == Vec(20.0, -0.8)
    ensures Step(NetJumper(), Frame(QuietTick(), [MatchRestart])).Success?
    ensures Step(NetJumper(), Frame(QuietTick(), [MatchRestart])).value.player.pos == Vec(Left, Floor)
    ensures Step(NetJumper(), Frame(QuietTick(), [MatchRestart])).value.player.vel == Zero
  {
    var p := NetJumper();
    var t := QuietTick();
    assert PressTap(p, t.pass, t.gestures) == (p, None);
    assert Flick(p, t.pass, t.gestures) == Continue(p, false);
    var p3 := Integrate(p);
    assert p3.pos == Vec(6.0, -40.8) && p3.vel == Vec(20.0, -0.8) && p3.state == Jump;
    RestartDuringFrameReturnsToCorner(p, t, MatchRestart);
  }

  /** The messages that lower the trial limit. */
  predicate LiftsLimit(m: Message)
  {
    m == GameRestart || m == TrialModeChanged
  }

  /** The events that lower the trial limit: such a message, on its own or
      during a frame. */
  predicate LiftsTrialLimit(e: Event)
  {
    match e
    case Deliver(m) => LiftsLimit(m)
    case Frame(_, during) => exists i :: 0 <= i < |during| && LiftsLimit(during[i])
  }

  /** Messages that do not lower the trial limit keep it raised. */
  lemma {:induction false} DeliverAllKeepsTrialLimit(p: Player, ms: seq<Message>)
    requires p.trialLimitReached
    requires forall i :: 0 <= i < |ms| ==> !LiftsLimit(ms[i])
    ensures DeliverAll(p, ms).trialLimitReached
    decreases |ms|
  {
    if |ms| > 0 {
      assert forall i :: 0 <= i < |ms[1..]| ==> ms[1..][i] == ms[i + 1];
      DeliverAllKeepsTrialLimit(OnMessage(p, ms[0]).0, ms[1..]);
    }
  }

  /** At the trial limit, one event that does not lift it keeps it and starts no jump. */
  lemma StepKeepsTrialLimit(p: Player, e: Event)
    requires p.trialLimitReached && !LiftsTrialLimit(e)
    // The event does not fault (see Step).
    requires !(e.Frame? && p.state == Receiving && e.inputs.world.ball.None?)
    ensures Step(p, e).Success?
    ensures Step(p, e).value.player.trialLimitReached
    ensures JumpScore !in Step(p, e).value.scores
  {
    match e
    case Frame(t, during) =>
      UpdateKeepsSettings(p, t);
      JumpScoredOnlyByFlick(p, t);
      DeliverAllKeepsTrialLimit(Update(p, t).value.player, during);
    case Deliver(m) =>
  }

  /** Once the trial limit is reached, no jump starts until a game restart or
      a trial-mode change lifts it. */
  lemma {:induction false} TrialLimitBlocksJumps(p: Player, evs: seq<Event>)
    requires p.trialLimitReached
    requires forall i :: 0 <= i < |evs| ==> !LiftsTrialLimit(evs[i])
    requires Run(p, evs).Success?
    ensures JumpScore !in Run(p, evs).value.scores
    ensures Run(p, evs).value.player.trialLimitReached
    decreases |evs|
  {
    if |evs| > 0 {
      StepKeepsTrialLimit(p, evs[0]);
      var first := Step(p, evs[0]).value;
      assert forall i :: 0 <= i < |evs[1..]| ==> evs[1..][i] == evs[i + 1];
      TrialLimitBlocksJumps(first.player, evs[1..]);
    }
  }
}
