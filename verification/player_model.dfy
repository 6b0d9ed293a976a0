/** The player character's data: its state machine states, the record the
    behaviour keeps between ticks, the court geometry and tuning constants,
    and what one tick observes of the world and hands back to it. */
module PlayerModel {
  import opened Common

  /** The six states of the player; exactly one is current. */
  datatype State =
    | Idle          // standing around
    | WaitForMenu   // the state at load time, before the first match
    | Receiving     // walking to meet the serve
    | Jump          // airborne after a flick
    | SpikeAttempt  // a tap was made while airborne
    | Fall          // the spike resolved or timed out

  /** Everything the behaviour keeps between ticks that feeds back into its
      own decisions. Sound, animation and camera handles are left out. */
  datatype Player = Player(
    state: State,
    pos: Vec,
    vel: Vec,
    framesInAir: nat,
    walkDest: Vec,
    trialLimitReached: bool,
    multipleHitsBeforePartner: bool,
    renderPriority: int,
    startingRenderPriority: int)

  // Court the player may move in: top-left (-90, -80), bottom-right (90, 0).
  // Y grows downwards, so the floor is the largest Y.
  const Left: real := -90.0
  const Right: real := 90.0
  const Ceiling: real := -80.0
  const Floor: real := 0.0

  const Gravity: real := 0.2
  /** Flick deltas are divided by 60 and then by 6.4 to become a velocity. */
  const FlickFrameDivisor: real := 60.0
  const FlickScaleDivisor: real := 6.4
  /** The delta that replaces an accepted scripted tutorial swipe. */
  const TutorialSwipeDelta: Vec := Vec(1440.0, -2200.0)
  /** Grace window armed on a spike attempt, and the immediate expiry armed by a hit. */
  const SpikeGraceLifetime: real := 5.0
  const SpikeHitLifetime: real := 0.0
  const SpikeSpeed: real := 10.0
  const Knockback: Vec := Vec(-1.0, 0.0)
  const HangTimeFrames: nat := 30
  const WalkSpeed: real := 3.0
  /** The ball within this distance makes a receiving player stop and bump. */
  const BumpRange: real := 45.0
  /** A served ball at or below this height, on our side, is bumped to the partner. */
  const BumpHeight: real := -16.0
  /** The walk destination sits this far left of the serve destination. */
  const ServeOffset: real := 4.0
  const NetOffset: real := -12.0
  const HighlightPriority: int := 100

  predicate InBounds(v: Vec)
  {
    Left <= v.x <= Right && Ceiling <= v.y <= Floor
  }

  /** The one invariant the player keeps between ticks that the clamping in
      Update does not restore by itself: the walk destination lies in the court. */
  predicate Valid(p: Player)
  {
    InBounds(p.walkDest)
  }

  /** Where every full tick (Update, then PostUpdate) leaves the player. */
  predicate Settled(p: Player)
  {
    InBounds(p.pos) && p.pos.x <= NetOffset
  }

  /** The player as LoadContent leaves it: waiting for the menu, counters
      and flags cleared, walk destination at the zero vector. Position,
      velocity and render priority belong to the game object and are kept. */
  function Load(pos: Vec, vel: Vec, renderPriority: int): (p: Player)
    ensures p.state == WaitForMenu && p.pos == pos && p.vel == vel
    ensures p.framesInAir == 0
    ensures !p.trialLimitReached && !p.multipleHitsBeforePartner
    ensures p.renderPriority == p.startingRenderPriority == renderPriority
    ensures Valid(p)
  {
    Player(WaitForMenu, pos, vel, 0, Zero, false, false, renderPriority, renderPriority)
  }

  /** How the tutorial treats this tick's flick. */
  datatype Swipe =
    | Unscripted              // no scripted swipe: the gesture's own delta is used
    | Scripted(accepted: bool) // tutorial swipe: a fixed delta if accepted, else the tick is abandoned

  /** What the player observes of the ball: centre, velocity and the bottom
      edge of its collision rectangle. */
  datatype Ball = Ball(pos: Vec, vel: Vec, bottom: real)

  /** This tick's gestures, already filtered by the tutorial's gating: whether
      a tap and a flick (with its delta) arrived and were allowed through, and
      how the tutorial treats the flick. */
  datatype Gestures = Gestures(tap: bool, flick: Option<Vec>, swipe: Swipe)

  /** What one Update observes of the other objects in the world. */
  datatype World = World(
    strikeBall: Option<Ball>,    // first ball the strike-range query returned
    ball: Option<Ball>,          // first volley ball in the world
    partnerHits: Option<int>,    // the partner's hit count, if a partner exists
    spikePoint: Option<Vec>,     // the net's "SpikePoint", if a net exists
    timerExpired: bool,          // the state timer had run out when the tick began
    topOffset: real,             // player's collision-rect top, relative to its position
    bumpVelocity: Vec)           // the randomised arc velocity for a bump

  /** Everything one Update reads from outside the behaviour. */
  datatype TickInputs = TickInputs(pass: Pass, gestures: Gestures, world: World)

  /** The score events the player emits, named as in the score manager. */
  datatype ScoreKind =
    | JumpScore
    | HighPoint
    | FingerTips
    | LowPoint
    | HangTime
    | FadeAway
    | Upwards
    | Speedy
    | Spike

  /** What the player does to the ball. */
  datatype BallCommand =
    | AimAt(from: Vec, target: Vec, speed: real) // velocity of `speed` from `from` toward `target`
    | SetVelocity(v: Vec)

  /** Everything one successful Update produces. */
  datatype Tick = Tick(
    player: Player,
    scores: seq<ScoreKind>,
    ballCommand: Option<BallCommand>,
    timerLifetime: Option<real>)   // the state timer was restarted with this lifetime

  /** The receiving branch indexes the ball list without checking it is non-empty. */
  datatype Fault = NoBallWhileReceiving
}
