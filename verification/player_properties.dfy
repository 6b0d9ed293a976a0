/** Properties of one whole Player.Update, stated over all inputs. */
module PlayerProperties {
  import opened Common
  import opened PlayerModel
  import opened PlayerUpdate

  /** The transition table: the states one tick can lead to from each state.
      Landing makes any state but Receiving idle; a tap and a connecting
      spike can both happen within one tick of a jump. */
  predicate Successor(from: State, to: State)
  {
    match from
    case Idle => to == Idle || to == Jump
    case WaitForMenu => to == WaitForMenu || to == Idle
    case Receiving => to == Receiving || to == Idle
    case Jump => to == Jump || to == SpikeAttempt || to == Fall || to == Idle
    case SpikeAttempt => to == SpikeAttempt || to == Fall || to == Idle
    case Fall => to == Fall || to == Idle
  }

  /** Update faults exactly when the player is receiving and no ball exists. */
  lemma UpdateFaultsOnlyWithoutBall(p: Player, t: TickInputs)
    ensures Update(p, t).Failure? <==> p.state == Receiving && t.world.ball.None?
  {
  }

  /** Every tick keeps a player that was in the court inside it and moves it
      along the transition table. */
  lemma UpdateKeepsCourt(p: Player, t: TickInputs)
    requires Valid(p) && InBounds(p.pos)
    requires Update(p, t).Success?
    ensures InBounds(Update(p, t).value.player.pos)
    ensures Valid(Update(p, t).value.player)
    ensures Successor(p.state, Update(p, t).value.player.state)
  {
    var (p1, armed) := PressTap(p, t.pass, t.gestures);
    match Flick(p1, t.pass, t.gestures)
    case Abandon =>
    case Continue(p2, _) =>
      var p3 := Integrate(p2);
      var p4 := CountAirFrame(ResolveSpike(p3, t.world, t.world.timerExpired && armed.None?).player);
      assert InBounds(p4.pos) && Successor(p.state, p4.state);
      if p4.state == Receiving {
        assert Walk(p4, t.world.ball.value).pos == p4.pos || Walk(p4, t.world.ball.value).pos == p4.walkDest;
      }
  }

  /** A tick never changes the walk destination, the trial limit or the render priorities. */
  lemma UpdateKeepsSettings(p: Player, t: TickInputs)
    requires Update(p, t).Success?
    ensures var q := Update(p, t).value.player;
            && q.walkDest == p.walkDest && q.trialLimitReached == p.trialLimitReached
            && q.renderPriority == p.renderPriority && q.startingRenderPriority == p.startingRenderPriority
  {
  }

  /** A tap that is not honoured has no effect at all: the tick is the same as without it. */
  lemma TapIgnoredUnlessJumping(p: Player, t: TickInputs)
    requires !TapHonored(p, t.pass, t.gestures)
    ensures Update(p, t) == Update(p, t.(gestures := t.gestures.(tap := false)))
  {
  }

  /** A flick that is not honoured has no effect at all. */
  lemma FlickIgnoredUnlessIdle(p: Player, t: TickInputs)
    requires !FlickHonored(p, t.pass, t.gestures)
    ensures Update(p, t) == Update(p, t.(gestures := t.gestures.(flick := None)))
  {
  }

  /** A freshly loaded player waits for the menu, so taps and flicks have no
      effect on its tick until a message changes its state. */
  lemma LoadedPlayerIgnoresGestures(pos: Vec, vel: Vec, renderPriority: int, t: TickInputs)
    ensures var p := Load(pos, vel, renderPriority);
            Update(p, t) == Update(p, t.(gestures := Gestures(false, None, t.gestures.swipe)))
  {
    var p := Load(pos, vel, renderPriority);
    var t1 := t.(gestures := t.gestures.(tap := false));
    TapIgnoredUnlessJumping(p, t);
    FlickIgnoredUnlessIdle(p, t1);
    assert t1.(gestures := t1.gestures.(flick := None)) == t.(gestures := Gestures(false, None, t.gestures.swipe));
  }

  /** A tap with no ball in strike range opens the five-tick grace window and
      never ends the attempt in the same tick, even when the timer had run out
      before the tap restarted it. */
  lemma TapGraceNotCutShort(p: Player, t: TickInputs)
    requires TapHonored(p, t.pass, t.gestures) && t.world.strikeBall.None?
    requires Update(p, t).Success?
    ensures Update(p, t).value.timerLifetime == Some(SpikeGraceLifetime)
    ensures Update(p, t).value.player.state != Fall
    ensures Update(p, t).value.player.state == SpikeAttempt || Update(p, t).value.player.state == Idle
  {
  }

  /** The Jump score is emitted exactly when a flick starts a jump. */
  lemma JumpScoredOnlyByFlick(p: Player, t: TickInputs)
    requires Update(p, t).Success?
    ensures JumpScore in Update(p, t).value.scores <==>
              FlickHonored(p, t.pass, t.gestures) && t.gestures.swipe != Scripted(false)
  {
  }

  /** The air counter grows by one exactly on ticks that end in a jump;
      otherwise it is kept or reset to zero by a landing. */
  lemma AirFramesCountOnlyWhileJumping(p: Player, t: TickInputs)
    requires Update(p, t).Success?
    ensures var q := Update(p, t).value.player;
            && (q.state == Jump ==> q.framesInAir == p.framesInAir + 1)
            && (q.state != Jump ==> q.framesInAir == p.framesInAir || q.framesInAir == 0)
  {
    var (p1, armed) := PressTap(p, t.pass, t.gestures);
    match Flick(p1, t.pass, t.gestures)
    case Abandon =>
    case Continue(p2, jumped) =>
      assert p2.framesInAir == p.framesInAir;
      var p3 := Integrate(p2);
      assert p3.state == Jump ==> p3.framesInAir == p.framesInAir;
      var s := ResolveSpike(p3, t.world, t.world.timerExpired && armed.None?);
      assert s.player.state == Jump ==> p3.state == Jump;
      var p4 := CountAirFrame(s.player);
      assert p4.framesInAir == p3.framesInAir + 1 || p4.framesInAir == p3.framesInAir;
      assert Update(p, t) == Advance(p2, jumped, armed, t.world);
  }

  /** The second-hit flag is never cleared by a tick, and is only raised by a
      ball in strike range during a spike attempt while the partner has no hits. */
  lemma SecondHitOnlyFromSpike(p: Player, t: TickInputs)
    requires Update(p, t).Success?
    ensures p.multipleHitsBeforePartner ==> Update(p, t).value.player.multipleHitsBeforePartner
    ensures Update(p, t).value.player.multipleHitsBeforePartner && !p.multipleHitsBeforePartner ==>
              t.world.strikeBall.Some? && t.world.partnerHits.Some? && t.world.partnerHits.value <= 0
  {
  }

  /** A worked instance for SpikeExample below, not a general result: when
      High Point and Hang Time are the only bonuses earned, a connecting spike
      emits them in that order, followed by Spike. The general order is the
      Ordered clause of SpikeScores. */
  lemma HighPointHangTimeScores(keep: set<ScoreKind>)
    requires keep == {HighPoint, HangTime, Spike}
    ensures Keep(SpikeOrder, keep) == [HighPoint, HangTime, Spike]
  {
    var o := SpikeOrder;
    assert Keep(o[8..], keep) == [];
    assert Keep(o[7..], keep) == [Spike];
    assert Keep(o[4..], keep) == [Spike] by {
      assert Keep(o[6..], keep) == Keep(o[7..], keep);
      assert Keep(o[5..], keep) == Keep(o[6..], keep);
    }
    assert Keep(o[3..], keep) == [HangTime, Spike];
    assert Keep(o[1..], keep) == [HangTime, Spike] by {
      assert Keep(o[2..], keep) == Keep(o[3..], keep);
    }
  }

  /** The player and ball of the worked spike below. */
  function ExamplePlayer(): Player
  {
    Player(SpikeAttempt, Vec(-30.0, -40.0), Vec(1.0, -2.0), 35, Vec(-40.0, 0.0), false, false, 5, 5)
  }

  function ExampleBall(): Ball
  {
    Ball(Vec(-25.0, -20.0), Vec(0.0, 0.5), -16.0)
  }

  function ExampleWorld(): World
  {
    World(Some(ExampleBall()), Some(ExampleBall()), Some(1), Some(Vec(0.0, -30.0)), false, -8.0, Zero)
  }

  /** The example player after physics still attempts its spike, and the bonuses it earns. */
  lemma ExampleContact()
    ensures Integrate(ExamplePlayer()) == ExamplePlayer().(pos := Vec(-29.0, -41.8), vel := Vec(1.0, -1.8))
    ensures Bonuses(Integrate(ExamplePlayer()), ExampleBall(), -49.8) == {HighPoint, HangTime, Spike}
  {
  }

  /** A worked spike: a slow ball (vertical speed 0.5) at height -20, hit after
      35 frames in the air, earns High Point, Hang Time and Spike and nothing
      else, the ball is aimed at the spike point at speed 10, and the player falls. */
  lemma SpikeExample()
    ensures var t := TickInputs(GamePlay, Gestures(false, None, Unscripted), ExampleWorld());
            && Update(ExamplePlayer(), t).Success?
            && Update(ExamplePlayer(), t).value.scores == [HighPoint, HangTime, Spike]
            && Update(ExamplePlayer(), t).value.player.state == Fall
            && Update(ExamplePlayer(), t).value.player.vel == Knockback
            && Update(ExamplePlayer(), t).value.ballCommand == Some(AimAt(ExampleBall().pos, Vec(0.0, -30.0), SpikeSpeed))
  {
    var p := ExamplePlayer();
    var w := ExampleWorld();
    var t := TickInputs(GamePlay, Gestures(false, None, Unscripted), w);
    assert PressTap(p, t.pass, t.gestures) == (p, None);
    assert Flick(p, t.pass, t.gestures) == Continue(p, false);
    ExampleContact();
    var p3 := Integrate(p);
    HighPointHangTimeScores(Bonuses(p3, ExampleBall(), -49.8));
    var s := ResolveSpike(p3, w, false);
    assert s.scores == [HighPoint, HangTime, Spike];
    assert CountAirFrame(s.player) == s.player;
    assert Receive(s.player, w) == Success((s.player, None));
  }
}
