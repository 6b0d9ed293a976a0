/** One tick of the player: Player.Update split into its phases in source
    order (tap, flick, physics, spike resolution, air-time count, receiving),
    and the net-side correction PostUpdate. */
module PlayerUpdate {
  import opened Common
  import opened PlayerModel

  /** A tap is honoured only while jumping, and only in the game-play pass. */
  predicate TapHonored(p: Player, pass: Pass, g: Gestures)
  {
    g.tap && p.state == Jump && pass == GamePlay
  }

  /** A flick is honoured only while idle, in the game-play pass, before the trial limit. */
  predicate FlickHonored(p: Player, pass: Pass, g: Gestures)
  {
    g.flick.Some? && !p.trialLimitReached && p.state == Idle && pass == GamePlay
  }

  /** Tap phase: a spike attempt starts and arms the grace timer; nothing else changes. */
  function PressTap(p: Player, pass: Pass, g: Gestures): (r: (Player, Option<real>))
    ensures r.1.Some? <==> TapHonored(p, pass, g)
    ensures TapHonored(p, pass, g) ==> r.0 == p.(state := SpikeAttempt) && r.1.value == SpikeGraceLifetime
    ensures !TapHonored(p, pass, g) ==> r.0 == p
  {
    if TapHonored(p, pass, g) then (p.(state := SpikeAttempt), Some(SpikeGraceLifetime)) else (p, None)
  }

  /** The velocity a flick delta gives: the delta over 60, over 6.4. */
  function FlickVelocity(delta: Vec): (v: Vec)
    ensures v.x * 384.0 == delta.x && v.y * 384.0 == delta.y
    ensures delta != Zero ==> v != Zero
  {
    Vec((delta.x / FlickFrameDivisor) / FlickScaleDivisor, (delta.y / FlickFrameDivisor) / FlickScaleDivisor)
  }

  datatype FlickOutcome =
    | Continue(player: Player, jumped: bool)
    | Abandon   // a rejected scripted swipe returns from Update at once

  /** Flick phase. */
  function Flick(p: Player, pass: Pass, g: Gestures): (r: FlickOutcome)
    ensures r.Abandon? <==> FlickHonored(p, pass, g) && g.swipe == Scripted(false)
    ensures r.Continue? ==> (r.jumped <==> FlickHonored(p, pass, g))
    ensures r.Continue? && r.jumped ==>
              r.player == p.(state := Jump, vel := FlickVelocity(
                if g.swipe.Scripted? then TutorialSwipeDelta else g.flick.value))
    ensures r.Continue? && !r.jumped ==> r.player == p
  {
    if !FlickHonored(p, pass, g) then Continue(p, false)
    else match g.swipe
      case Scripted(accepted) =>
        if accepted then Continue(p.(state := Jump, vel := FlickVelocity(TutorialSwipeDelta)), true)
        else Abandon
      case Unscripted => Continue(p.(state := Jump, vel := FlickVelocity(g.flick.value)), true)
  }

  /** Where gravity and one step of integration would put the player, before clamping. */
  function Unclamped(p: Player): Vec
  {
    Vec(p.pos.x + p.vel.x, p.pos.y + p.vel.y + Gravity)
  }

  /** The integrated position is below the floor: the player lands this tick. */
  predicate Lands(p: Player)
  {
    Unclamped(p).y > Floor
  }

  /** Gravity, integration, and the vertical clamp with its landing rules. */
  function FallAndLand(p: Player): Player
  {
    var v := Vec(p.vel.x, p.vel.y + Gravity);
    var q := Add(p.pos, v);
    if q.y > Floor then
      if p.state != Receiving then p.(pos := Vec(q.x, Floor), vel := Zero, framesInAir := 0, state := Idle)
      else p.(pos := Vec(q.x, Floor), vel := Vec(v.x, 0.0), framesInAir := 0)
    else if q.y < Ceiling then p.(pos := Vec(q.x, Ceiling), vel := Vec(v.x, 0.0))
    else p.(pos := q, vel := v)
  }

  /** The horizontal clamp against the court's side walls. */
  function ClampSides(p: Player): Player
  {
    if p.pos.x < Left then p.(pos := Vec(Left, p.pos.y), vel := Vec(0.0, p.vel.y))
    else if p.pos.x > Right then p.(pos := Vec(Right, p.pos.y), vel := Vec(0.0, p.vel.y))
    else p
  }

  /** Physics phase: gravity is added to the velocity, the velocity to the
      position, and the position is clamped into the court. A clamped axis
      loses its velocity; landing resets the air counter and, unless the
      player is receiving, stops it and makes it idle. */
  function Integrate(p: Player): (r: Player)
    ensures InBounds(r.pos)
    ensures r.pos.x == Clamp(Unclamped(p).x, Left, Right)
    ensures r.pos.y == Clamp(Unclamped(p).y, Ceiling, Floor)
    ensures r.pos.x != Unclamped(p).x ==> r.vel.x == 0.0
    ensures r.pos.y != Unclamped(p).y ==> r.vel.y == 0.0
    ensures r.pos.y == Unclamped(p).y ==> r.vel.y == p.vel.y + Gravity
    ensures r.pos.x == Unclamped(p).x && !(Lands(p) && p.state != Receiving) ==> r.vel.x == p.vel.x
    ensures Lands(p) ==> r.framesInAir == 0
    ensures Lands(p) && p.state != Receiving ==> r.state == Idle && r.vel == Zero
    ensures Lands(p) && p.state == Receiving ==> r.state == Receiving && r.vel.y == 0.0
    ensures !Lands(p) ==> r.state == p.state && r.framesInAir == p.framesInAir
    ensures r == p.(state := r.state, pos := r.pos, vel := r.vel, framesInAir := r.framesInAir)
  {
    ClampSides(FallAndLand(p))
  }

  /** The order in which a connecting spike emits its score events. */
  const SpikeOrder: seq<ScoreKind> :=
    [HighPoint, FingerTips, LowPoint, HangTime, FadeAway, Upwards, Speedy, Spike]

  /** The position of each spike score in SpikeOrder. */
  function OrderIndex(k: ScoreKind): int
  {
    match k
    case HighPoint => 0
    case FingerTips => 1
    case LowPoint => 2
    case HangTime => 3
    case FadeAway => 4
    case Upwards => 5
    case Speedy => 6
    case Spike => 7
    case JumpScore => -1
  }

  /** No kind occurs twice. */
  predicate Distinct(ks: seq<ScoreKind>)
  {
    forall i, j :: 0 <= i < j < |ks| ==> ks[i] != ks[j]
  }

  /** The kinds appear in strictly increasing SpikeOrder position. */
  predicate Ordered(ks: seq<ScoreKind>)
  {
    forall i, j :: 0 <= i < j < |ks| ==> OrderIndex(ks[i]) < OrderIndex(ks[j])
  }

  lemma SpikeOrderFacts()
    ensures Distinct(SpikeOrder) && Ordered(SpikeOrder)
    ensures forall k :: k in SpikeOrder <==> k != JumpScore
    ensures SpikeOrder[|SpikeOrder| - 1] == Spike
  {
  }

  /** Whether a connecting spike earns score `k`. `p` is the player at contact,
      `b` the ball, `top` the top edge of the player's collision rectangle.
      The checks are independent of one another. */
  predicate Earns(k: ScoreKind, p: Player, b: Ball, top: real)
  {
    match k
    case JumpScore => false
    case HighPoint => Abs(b.vel.y) < 1.0          // near the top of its arc
    case FingerTips => b.bottom - top < 2.0        // at the tips of the fingers
    case LowPoint => b.pos.y >= -15.0              // close to the ground
    case HangTime => p.framesInAir >= HangTimeFrames
    case FadeAway => p.vel.x < 0.0                 // drifting backwards
    case Upwards => b.vel.y < -3.0                 // ball still rising
    case Speedy => LengthSq(p.vel) > 7.5 * 7.5     // speed above 7.5
    case Spike => true
  }

  /** The kinds a connecting spike earns. */
  function Bonuses(p: Player, b: Ball, top: real): (earned: set<ScoreKind>)
    ensures forall k :: k in earned <==> Earns(k, p, b, top)
  {
    (if Abs(b.vel.y) < 1.0 then {HighPoint} else {})
    + (if b.bottom - top < 2.0 then {FingerTips} else {})
    + (if b.pos.y >= -15.0 then {LowPoint} else {})
    + (if p.framesInAir >= HangTimeFrames then {HangTime} else {})
    + (if p.vel.x < 0.0 then {FadeAway} else {})
    + (if b.vel.y < -3.0 then {Upwards} else {})
    + (if LengthSq(p.vel) > 7.5 * 7.5 then {Speedy} else {})
    + {Spike}
  }

  /** The kinds of `ks` that are in `keep`, in the order of `ks`. */
  function Keep(ks: seq<ScoreKind>, keep: set<ScoreKind>): seq<ScoreKind>
  {
    if |ks| == 0 then [] else (if ks[0] in keep then [ks[0]] else []) + Keep(ks[1..], keep)
  }

  /** Keep drops exactly the kinds outside `keep`, never duplicates one, and
      keeps the last kind when it is wanted. */
  lemma {:induction false} KeepFilters(ks: seq<ScoreKind>, keep: set<ScoreKind>)
    ensures forall k :: k in Keep(ks, keep) <==> k in ks && k in keep
    ensures |Keep(ks, keep)| <= |ks|
    ensures Distinct(ks) ==> Distinct(Keep(ks, keep))
    ensures |ks| > 0 && ks[|ks| - 1] in keep ==>
              |Keep(ks, keep)| > 0 && Keep(ks, keep)[|Keep(ks, keep)| - 1] == ks[|ks| - 1]
  {
    if |ks| > 0 {
      KeepFilters(ks[1..], keep);
      assert forall k :: k in ks <==> k == ks[0] || k in ks[1..];
      if Distinct(ks) {
        assert Distinct(ks[1..]);
        assert ks[0] !in ks[1..];
      }
    }
  }

  /** Filtering keeps the order of its input. */
  lemma {:induction false} KeepOrdered(ks: seq<ScoreKind>, keep: set<ScoreKind>)
    requires Ordered(ks)
    ensures Ordered(Keep(ks, keep))
  {
    if |ks| > 0 {
      assert Ordered(ks[1..]);
      KeepOrdered(ks[1..], keep);
      KeepFilters(ks[1..], keep);
      var rest := Keep(ks[1..], keep);
      forall j | 0 <= j < |rest|
        ensures OrderIndex(ks[0]) < OrderIndex(rest[j])
      {
        assert rest[j] in ks[1..];
        var m :| 0 <= m < |ks[1..]| && ks[1..][m] == rest[j];
        assert ks[m + 1] == rest[j];
      }
    }
  }

  /** The score events of a spike that connects: exactly the earned kinds,
      each once, in the source's order, ending with the base Spike event. */
  function SpikeScores(p: Player, b: Ball, top: real): (r: seq<ScoreKind>)
    ensures forall k :: k in r <==> Earns(k, p, b, top)
    ensures 1 <= |r| <= 8 && r[|r| - 1] == Spike
    ensures Distinct(r)
    ensures Ordered(r)
  {
    SpikeOrderFacts();
    KeepFilters(SpikeOrder, Bonuses(p, b, top));
    KeepOrdered(SpikeOrder, Bonuses(p, b, top));
    Keep(SpikeOrder, Bonuses(p, b, top))
  }

  datatype SpikeOutcome = SpikeOutcome(
    player: Player,
    scores: seq<ScoreKind>,
    ballCommand: Option<BallCommand>,
    timerLifetime: Option<real>)

  /** Spike phase, run on the player after physics. `expired` says whether
      the state timer counts as run out at this point of the tick. */
  function ResolveSpike(p: Player, t: World, expired: bool): (r: SpikeOutcome)
    // Outside a spike attempt nothing happens.
    ensures p.state != SpikeAttempt ==> r == SpikeOutcome(p, [], None, None)
    // No ball in range: fall once the timer has expired, without scoring.
    ensures p.state == SpikeAttempt && t.strikeBall.None? ==>
              r.scores == [] && r.ballCommand.None? && r.timerLifetime.None?
              && r.player == (if expired then p.(state := Fall) else p)
    // A ball in range but no net: the attempt goes on, nothing is scored.
    ensures p.state == SpikeAttempt && t.strikeBall.Some? && t.spikePoint.None? ==>
              r.player.state == SpikeAttempt && r.scores == [] && r.ballCommand.None? && r.timerLifetime.None?
              && r.player.vel == p.vel && r.player.pos == p.pos
    // A ball in range and a net: the spike connects.
    ensures p.state == SpikeAttempt && t.strikeBall.Some? && t.spikePoint.Some? ==>
              && r.player.state == Fall
              && r.player.vel == Knockback
              && r.player.pos == p.pos
              && r.scores == SpikeScores(p, t.strikeBall.value, p.pos.y + t.topOffset)
              && r.ballCommand == Some(AimAt(t.strikeBall.value.pos, t.spikePoint.value, SpikeSpeed))
              && r.timerLifetime == Some(SpikeHitLifetime)
    // Any ball in range with a partner that has not hit yet marks a second hit.
    ensures r.player.multipleHitsBeforePartner <==>
              p.multipleHitsBeforePartner
              || (p.state == SpikeAttempt && t.strikeBall.Some? && t.partnerHits.Some? && t.partnerHits.value <= 0)
    // Only the state, the velocity and the second-hit flag change.
    ensures r.player == p.(state := r.player.state, vel := r.player.vel,
                           multipleHitsBeforePartner := r.player.multipleHitsBeforePartner)
  {
    if p.state != SpikeAttempt then SpikeOutcome(p, [], None, None)
    else match t.strikeBall
      case None =>
        SpikeOutcome(if expired then p.(state := Fall) else p, [], None, None)
      case Some(b) =>
        var marked := p.multipleHitsBeforePartner || (t.partnerHits.Some? && t.partnerHits.value <= 0);
        var p1 := p.(multipleHitsBeforePartner := marked);
        match t.spikePoint
        case None => SpikeOutcome(p1, [], None, None)
        case Some(target) =>
          SpikeOutcome(
            p1.(state := Fall, vel := Knockback),
            SpikeScores(p, b, p.pos.y + t.topOffset),
            Some(AimAt(b.pos, target, SpikeSpeed)),
            Some(SpikeHitLifetime))
  }

  /** Air-time phase: one more frame in the air while jumping. */
  function CountAirFrame(p: Player): (r: Player)
    ensures p.state == Jump ==> r.framesInAir == p.framesInAir + 1
    ensures p.state != Jump ==> r == p
    ensures r.(framesInAir := p.framesInAir) == p
  {
    if p.state == Jump then p.(framesInAir := p.framesInAir + 1) else p
  }

  /** The walk that follows the hand-off check while receiving: stop and bump
      when the ball is close; stop on the destination once within one step of
      it; otherwise, when on the ground, walk toward it at walking speed. */
  function Walk(p: Player, b: Ball): (r: Player)
    ensures r.state == p.state && r.vel.y == p.vel.y
    ensures r.pos == p.pos || r.pos == p.walkDest
    ensures DistSq(b.pos, p.pos) <= BumpRange * BumpRange ==> r.pos == p.pos && r.vel.x == 0.0
    ensures r.pos != p.pos ==> DistSq(p.pos, p.walkDest) < WalkSpeed * WalkSpeed && r.vel.x == 0.0
    ensures r.vel.x > 0.0 && r.vel.x != p.vel.x ==> p.walkDest.x > p.pos.x && r.vel.x == WalkSpeed
    ensures r.vel.x < 0.0 && r.vel.x != p.vel.x ==> p.walkDest.x < p.pos.x && r.vel.x == -WalkSpeed
    ensures r.vel.x != p.vel.x && r.vel.x != 0.0 ==> p.pos.y >= Floor
    ensures r == p.(pos := r.pos, vel := r.vel)
  {
    if DistSq(b.pos, p.pos) <= BumpRange * BumpRange then
      p.(vel := Vec(0.0, p.vel.y))
    else if DistSq(p.pos, p.walkDest) < WalkSpeed * WalkSpeed then
      p.(vel := Vec(0.0, p.vel.y), pos := p.walkDest)
    else if p.pos.y >= Floor then
      if p.walkDest.x < p.pos.x then p.(vel := Vec(-WalkSpeed, p.vel.y))
      else if p.walkDest.x > p.pos.x then p.(vel := Vec(WalkSpeed, p.vel.y))
      else p
    else p
  }

  /** With the ball out of range, the walk does what it is for: within one
      step of the destination the player snaps onto it and stops; further
      away it stays put and, on the ground, heads for the destination at
      walking speed; in the air, or already level with it, nothing changes. */
  lemma WalkHeadsForDestination(p: Player, b: Ball)
    requires DistSq(b.pos, p.pos) > BumpRange * BumpRange
    ensures DistSq(p.pos, p.walkDest) < WalkSpeed * WalkSpeed ==>
              Walk(p, b).pos == p.walkDest && Walk(p, b).vel.x == 0.0
    ensures DistSq(p.pos, p.walkDest) >= WalkSpeed * WalkSpeed ==>
              && Walk(p, b).pos == p.pos
              && (p.pos.y >= Floor && p.walkDest.x < p.pos.x ==> Walk(p, b).vel.x == -WalkSpeed)
              && (p.pos.y >= Floor && p.walkDest.x > p.pos.x ==> Walk(p, b).vel.x == WalkSpeed)
              && (p.pos.y < Floor || p.walkDest.x == p.pos.x ==> Walk(p, b) == p)
  {
  }

  /** The served ball is on our side at or below bump height, and a partner exists. */
  predicate BumpsToPartner(t: World)
  {
    t.ball.Some? && t.ball.value.pos.y >= BumpHeight && t.ball.value.pos.x <= 0.0 && t.partnerHits.Some?
  }

  /** Receiving phase. The hand-off to the partner makes the player idle, yet
      the walk still runs in the same tick on the ball list's first element,
      which faults when there is no ball. */
  function Receive(p: Player, t: World): (r: Result<(Player, Option<BallCommand>), Fault>)
    ensures r.Failure? <==> p.state == Receiving && t.ball.None?
    ensures p.state != Receiving ==> r == Success((p, None))
    ensures p.state == Receiving && r.Success? ==>
              && r.value.0.state == (if BumpsToPartner(t) then Idle else Receiving)
              && r.value.1 == (if BumpsToPartner(t) then Some(SetVelocity(t.bumpVelocity)) else None)
              && r.value.0 == Walk(p.(state := r.value.0.state), t.ball.value)
  {
    if p.state != Receiving then Success((p, None))
    else
      var handOff := BumpsToPartner(t);
      var p1 := if handOff then p.(state := Idle) else p;
      var command := if handOff then Some(SetVelocity(t.bumpVelocity)) else None;
      match t.ball
      case None => Failure(NoBallWhileReceiving)
      case Some(b) => Success((Walk(p1, b), command))
  }

  /** The fields a tick never writes: the walk destination, the trial limit
      and the render priorities. */
  predicate SameSettings(q: Player, p: Player)
  {
    && q.walkDest == p.walkDest && q.trialLimitReached == p.trialLimitReached
    && q.renderPriority == p.renderPriority && q.startingRenderPriority == p.startingRenderPriority
  }

  /** The rest of a tick once the gestures are handled: physics, spike, air
      time and receiving. `jumped` says a flick started a jump this tick, and
      `armed` is the grace lifetime a tap armed. The stop watches advance
      before any object updates, so a timer the tap restarted this tick has
      not expired yet. */
  function Advance(p: Player, jumped: bool, armed: Option<real>, w: World): (r: Result<Tick, Fault>)
    ensures r.Failure? <==> p.state == Receiving && w.ball.None?
    ensures r.Success? ==> SameSettings(r.value.player, p)
    // After a tap armed the grace timer, a fall comes only from a connecting spike.
    ensures r.Success? && armed.Some? && p.state == SpikeAttempt && r.value.player.state == Fall ==>
              r.value.timerLifetime == Some(SpikeHitLifetime)
    ensures r.Success? && armed.None? ==> r.value.timerLifetime != Some(SpikeGraceLifetime)
    // The ball is aimed only by a spike that connects.
    ensures r.Success? && r.value.ballCommand.Some? && r.value.ballCommand.value.AimAt? ==>
              r.value.player.state == Fall && Spike in r.value.scores
  {
    var p3 := Integrate(p);
    var s := ResolveSpike(p3, w, w.timerExpired && armed.None?);
    var p4 := CountAirFrame(s.player);
    match Receive(p4, w)
    case Failure(e) => Failure(e)
    case Success((p5, bump)) =>
      Success(Tick(
        p5,
        (if jumped then [JumpScore] else []) + s.scores,
        if s.ballCommand.Some? then s.ballCommand else bump,
        if s.timerLifetime.Some? then s.timerLifetime else armed))
  }

  /** One call of Player.Update: the tap and flick phases, then the rest.
      It faults exactly when a receiving player finds no ball; a tap's grace
      window is never cut short in the tick that opens it; and the ball is
      only aimed by a spike that connects. */
  function Update(p: Player, t: TickInputs): (r: Result<Tick, Fault>)
    ensures r.Failure? <==> p.state == Receiving && t.world.ball.None?
    ensures r.Success? ==> SameSettings(r.value.player, p)
    ensures r.Success? && r.value.timerLifetime == Some(SpikeGraceLifetime) ==> r.value.player.state != Fall
    ensures r.Success? && r.value.ballCommand.Some? && r.value.ballCommand.value.AimAt? ==>
              r.value.player.state == Fall && Spike in r.value.scores
  {
    var (p1, armed) := PressTap(p, t.pass, t.gestures);
    match Flick(p1, t.pass, t.gestures)
    case Abandon => Success(Tick(p1, [], None, armed))
    case Continue(p2, jumped) => Advance(p2, jumped, armed, t.world)
  }

  /** The net-side correction run after every object has updated: the player
      never ends a tick right of the net offset, and nothing else moves. */
  function PostUpdate(p: Player): (r: Player)
    ensures r.pos.x <= NetOffset
    ensures p.pos.x <= NetOffset ==> r == p
    ensures p.pos.x > NetOffset ==> r.pos.x == NetOffset
    ensures r == p.(pos := Vec(r.pos.x, p.pos.y))
  {
    if p.pos.x > NetOffset then p.(pos := Vec(NetOffset, p.pos.y)) else p
  }
}
