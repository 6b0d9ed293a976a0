# BumpSetSpike player and score summary, modelled in Dafny

BumpSetSpike is a beach-volleyball arcade game. This project models two of
its behaviours as pure Dafny functions and proves properties about them.

- **Player**: the player character's per-tick state machine. The states are
  Idle, WaitForMenu, Receiving, Jump, SpikeAttempt and Fall. A tick runs the
  tap and flick gestures, gravity and clamping to the court, spike resolution
  with its bonus score events, the air-time counter, and walking to meet the
  serve. It then runs the net-side correction of `PostUpdate`. The model also
  covers the messages other objects send the player (`OnMessage`).
- **ScoreSummary**: the end-of-round screen. It reveals one row per move
  performed on a timer, counts the current row up to its value, skips to the
  end on a tap and closes on a second tap. After the multiplier and total rows
  it spawns the high-score banner once.

Files:

- `common.dfy` (`Common`): `Option`, `Result`, a real-valued `Vec`, `Clamp`
  and the engine's update passes.
- `player_model.dfy` (`PlayerModel`): the player record, the court geometry,
  the tuning constants, and what a tick reads from the world and hands back.
- `player_update.dfy` (`PlayerUpdate`): `Update` split into its phases, in
  source order, plus `PostUpdate`.
- `player_properties.dfy` (`PlayerProperties`): all-inputs lemmas about one
  whole tick, and a worked spike.
- `player_messages.dfy` (`PlayerMessages`): `OnMessage` and its lemmas.
- `player_run.dfy` (`PlayerRun`): sessions of frames and messages, and the
  invariants that hold across them.
- `score_summary.dfy` (`ScoreSummary`): the summary screen.

What the model takes as inputs. Each tick, the world supplies:

- the current update pass;
- the tap and flick gestures, already filtered by the tutorial's gating;
- the first ball in strike range and the first volley ball;
- the partner's hit count and the net's spike point, each if one exists;
- whether the state timer had expired when the tick began;
- the offset of the player's collision-rectangle top;
- the random arc velocity used for a bump.

A tick hands back the score events it emitted, the command it gave the ball
(aim at a point with a speed, or set a velocity), and the new state-timer
lifetime when it restarted the timer.

Where the code does something a reader may not expect, the model follows the code:

- A flick also emits a `Jump` score event (Player.cs:325).
- A ball in strike range marks a second hit before the partner even when no
  net is found. The test is a partner hit count `<= 0`, not "zero"
  (Player.cs:435-446).
- With a ball in strike range but no net, the spike attempt goes on even
  after the timer has expired. The timeout branch applies only when no ball
  is in range (Player.cs:429, 527).
- A receiving player with no ball in the world indexes an empty list
  (Player.cs:574). That throws, so the tick is not silently degraded. `Update`
  returns `Failure(NoBallWhileReceiving)` there.
- The stop watches advance before any object updates (Game1.cs:468-469). A
  tap restarts the state timer with a 5-tick lifetime (Player.cs:268-269), so
  in the tick of the tap the timer is not expired, whatever it was when the
  tick began. The timeout of Player.cs:527-531 therefore uses the expiry from
  the start of the tick only when no tap armed the timer in this tick.
- When a receiving player lands, the state stays Receiving. Every other state
  becomes Idle, WaitForMenu included (Player.cs:341-401).

## Model

| member | source | states |
|---|---|---|
| PlayerModel.Load | BumpSetSpike/BumpSetSpike/Behaviour/Player.cs:181-221 | A loaded player waits for the menu, keeping the game object's position and velocity, with zero air frames, both flags cleared, its starting render priority saved, and a walk destination inside the court |
| PlayerUpdate.PressTap | BumpSetSpike/BumpSetSpike/Behaviour/Player.cs:251-271 | A tap starts a spike attempt and arms the 5-tick grace timer exactly when the player is jumping in the game-play pass; any other tap changes nothing |
| PlayerUpdate.FlickVelocity | BumpSetSpike/BumpSetSpike/Behaviour/Player.cs:320 | The flick velocity is the gesture delta divided by 384, so a nonzero delta never gives a zero velocity |
| PlayerUpdate.Flick | BumpSetSpike/BumpSetSpike/Behaviour/Player.cs:282-332 | A flick makes the player jump exactly when it is idle, in game play and below the trial limit. The velocity comes from the gesture's delta, or from the fixed tutorial delta for an accepted scripted swipe. A rejected scripted swipe abandons the rest of the tick. Otherwise the player is unchanged |
| PlayerUpdate.Integrate | BumpSetSpike/BumpSetSpike/Behaviour/Player.cs:335-417 | After gravity and integration, each axis of the position is clamped into the court, and a clamped axis loses its velocity. Landing resets the air counter. Landing in any state but Receiving also stops the player and makes it idle. Without a landing the state is kept. Only state, position, velocity and air frames change |
| PlayerUpdate.KeepFilters | BumpSetSpike/BumpSetSpike/Behaviour/Player.cs:467-524 | Filtering the fixed score order by a set keeps exactly the members of that set, keeps them distinct, and keeps the final Spike event when Spike is in the set |
| PlayerUpdate.KeepOrdered | BumpSetSpike/BumpSetSpike/Behaviour/Player.cs:467-524 | Filtering a sequence whose kinds are in strictly increasing source order keeps them in strictly increasing source order |
| PlayerUpdate.SpikeScores | BumpSetSpike/BumpSetSpike/Behaviour/Player.cs:467-524 | A connecting spike emits each bonus exactly when its condition holds (High Point, Finger Tips, Low Point, Hang Time, Fade Away, Upwards, Speedy), each at most once, strictly in that source order, always ending with Spike: between 1 and 8 events |
| PlayerUpdate.ResolveSpike | BumpSetSpike/BumpSetSpike/Behaviour/Player.cs:420-532 | Outside a spike attempt nothing happens. With no ball in range the player falls exactly when the timer counts as expired at this point of the tick. With a ball but no net the attempt goes on and no timer is restarted. With both, the player falls with the knockback velocity, the ball is aimed at the spike point at speed 10, and the zero-length timer is armed. The second-hit flag is raised exactly when a ball is in range and the partner has no hits |
| PlayerUpdate.CountAirFrame | BumpSetSpike/BumpSetSpike/Behaviour/Player.cs:535-538 | The air counter grows by one exactly while jumping, and nothing else changes |
| PlayerUpdate.Walk | BumpSetSpike/BumpSetSpike/Behaviour/Player.cs:574-620 | A receiving player with the ball within 45 units stops where it is. Within one step of its destination it snaps there and stops. Otherwise a grounded player walks toward the destination at speed 3. It moves only onto its destination, and the state never changes; the walking velocities are stated by PlayerUpdate.WalkHeadsForDestination |
| PlayerUpdate.WalkHeadsForDestination | BumpSetSpike/BumpSetSpike/Behaviour/Player.cs:590-620 | With the ball out of bump range: within one step of the destination the player snaps onto it and stops; otherwise a grounded player gets velocity -3 when the destination is to its left and +3 when it is to its right, and an airborne player or one level with the destination is left unchanged |
| PlayerUpdate.Receive | BumpSetSpike/BumpSetSpike/Behaviour/Player.cs:541-621 | Receiving faults exactly when there is no ball. A low ball on our side with a partner present is bumped with the arc velocity and the player becomes idle. The walk then runs in the same tick. Players that are not receiving are untouched |
| PlayerUpdate.Advance | BumpSetSpike/BumpSetSpike/Behaviour/Player.cs:335-621 | The phases after the gestures fault exactly when a receiving player has no ball, never change the walk destination, trial limit or render priorities, restart the timer at zero length when a tap-armed attempt falls, keep the grace lifetime only when a tap armed it, and aim the ball only from a connecting spike that makes the player fall and emits Spike |
| PlayerUpdate.Update | BumpSetSpike/BumpSetSpike/Behaviour/Player.cs:227-634 | One tick faults exactly when a receiving player has no ball, keeps the walk destination, trial limit and render priorities, never ends a tick that armed the grace timer in Fall, and aims the ball only from a spike that makes the player fall and emits Spike |
| PlayerUpdate.PostUpdate | BumpSetSpike/BumpSetSpike/Behaviour/Player.cs:658-670 | After the correction the player is never right of the net offset -12. A player already left of it is unchanged, and only the horizontal position moves |
| PlayerProperties.UpdateFaultsOnlyWithoutBall | BumpSetSpike/BumpSetSpike/Behaviour/Player.cs:541-574 | A tick fails exactly when the player is receiving and no ball exists |
| PlayerProperties.UpdateKeepsCourt | BumpSetSpike/BumpSetSpike/Behaviour/Player.cs:227-621 | A tick keeps a player that started in the court inside it, with its walk destination in the court, and moves the state only along the transition table |
| PlayerProperties.UpdateKeepsSettings | BumpSetSpike/BumpSetSpike/Behaviour/Player.cs:227-621 | A tick never changes the walk destination, the trial-limit flag or the render priorities |
| PlayerProperties.TapIgnoredUnlessJumping | BumpSetSpike/BumpSetSpike/Behaviour/Player.cs:251-271 | A tap that is not honoured has no effect: the whole tick equals the tick without it |
| PlayerProperties.LoadedPlayerIgnoresGestures | BumpSetSpike/BumpSetSpike/Behaviour/Player.cs:181-221 | A freshly loaded player, waiting for the menu, is unaffected by taps and flicks: its tick equals the tick without them |
| PlayerProperties.TapGraceNotCutShort | BumpSetSpike/BumpSetSpike/Behaviour/Player.cs:262-269 | A honoured tap with no ball in strike range arms the 5-tick grace timer and leaves the player in its attempt (or idle after landing), never falling in that tick even when the old timer had expired |
| PlayerProperties.FlickIgnoredUnlessIdle | BumpSetSpike/BumpSetSpike/Behaviour/Player.cs:282-290 | A flick that is not honoured (trial limit, not idle, or not in game play) has no effect on the whole tick |
| PlayerProperties.JumpScoredOnlyByFlick | BumpSetSpike/BumpSetSpike/Behaviour/Player.cs:282-325 | A tick emits the Jump score exactly when an honoured flick is not a rejected tutorial swipe |
| PlayerProperties.AirFramesCountOnlyWhileJumping | BumpSetSpike/BumpSetSpike/Behaviour/Player.cs:341-401 | A tick that ends in a jump adds one air frame. Any other tick keeps the counter or resets it to zero on landing |
| PlayerProperties.SecondHitOnlyFromSpike | BumpSetSpike/BumpSetSpike/Behaviour/Player.cs:435-446 | A tick never clears the second-hit flag. It raises it only with a ball in strike range and a partner with no hits |
| PlayerProperties.HighPointHangTimeScores | BumpSetSpike/BumpSetSpike/Behaviour/Player.cs:467-524 | A worked instance for the spike example: when only High Point, Hang Time and Spike are earned, the events are emitted in exactly that order |
| PlayerProperties.ExampleContact | BumpSetSpike/BumpSetSpike/Behaviour/Player.cs:335-338 | After physics the worked example player is at (-29, -41.8), and against a ball moving down at 0.5 at height -20 it earns exactly High Point, Hang Time and Spike |
| PlayerProperties.SpikeExample | BumpSetSpike/BumpSetSpike/Behaviour/Player.cs:420-532 | A spike on a ball with vertical speed 0.5 at height -20, after 35 frames in the air, scores High Point, Hang Time and Spike only. The player falls with the knockback and the ball is aimed at the spike point at speed 10 |
| PlayerMessages.WalkDestination | BumpSetSpike/BumpSetSpike/Behaviour/Player.cs:681-694 | The walk destination is 4 units left of the serve destination, clamped into the court, on the floor |
| PlayerMessages.ReturnToCourt | BumpSetSpike/BumpSetSpike/Behaviour/Player.cs:721-731 | A player past the net goes back to the starting corner (-90, 0) with zero velocity. Any other player is left unchanged |
| PlayerMessages.OnMessage | BumpSetSpike/BumpSetSpike/Behaviour/Player.cs:679-753 | A serve sets the clamped walk destination and starts receiving. The two queries answer from the current state and change nothing. Highlight sets render priority 100 or restores the starting one. Both restarts clear the second-hit flag, return the player to its court and change nothing else but the trial limit. The trial limit is raised by its message and cleared by a game restart or a trial-mode change, and those two messages change nothing else. Play-over and unknown messages change nothing |
| PlayerMessages.ServeIsIdempotent | BumpSetSpike/BumpSetSpike/Behaviour/Player.cs:681-694 | The same serve destination delivered twice gives the same player as once |
| PlayerMessages.OnlyRestartsClearSecondHit | BumpSetSpike/BumpSetSpike/Behaviour/Player.cs:679-753 | No message raises the second-hit flag, and only the two restarts clear it |
| PlayerMessages.MessagesKeepCourt | BumpSetSpike/BumpSetSpike/Behaviour/Player.cs:679-753 | Messages keep the walk destination in the court. They move the player only by a restart's return to the corner, and a settled player stays settled |
| PlayerRun.StepKeepsSettled | BumpSetSpike/BumpSetSpike/Behaviour/Player.cs:658-670 | One frame (Update, the messages sent during the pass, then PostUpdate) or one message between frames, when it does not fault, keeps a settled player settled: in the court and left of the net |
| PlayerRun.Step | BumpSetSpike/BumpSetSpike/Behaviour/Player.cs:658-670 | One event fails exactly when it is a frame of a receiving player with no ball. After a frame, including any messages delivered between the player's Update and its PostUpdate, the player is never right of the net offset, and a message between frames emits no score events |
| PlayerRun.DeliverAll | BumpSetSpike/BumpSetSpike/Behaviour/Player.cs:679-753 | Messages delivered in a row keep the walk destination in the court, and leave the position alone unless a restart among them returns the player to the starting corner |
| PlayerRun.RunStaysSettled | BumpSetSpike/BumpSetSpike/Behaviour/Player.cs:658-670 | Over any session of frames, with messages arriving during the update pass or between frames, the player stays in the court, left of the net, with its walk destination in the court |
| PlayerRun.RestartDuringFrameReturnsToCorner | BumpSetSpike/BumpSetSpike/Behaviour/Player.cs:722-731 | A restart sent during the update pass to a player its own Update carried past the net puts it back at the corner (-90, 0), standing still, with the second-hit flag cleared, before PostUpdate runs |
| PlayerRun.RestartDuringFrameExample | BumpSetSpike/BumpSetSpike/Behaviour/Player.cs:722-731 | A settled player jumping from (-14, -40) at (20, -1) reaches (6, -40.8). Without a message PostUpdate pins it to x = -12, still moving; a match restart during the pass sends it to (-90, 0) standing still |
| PlayerRun.StepKeepsTrialLimit | BumpSetSpike/BumpSetSpike/Behaviour/Player.cs:739-746 | At the trial limit, an event that does not fault and neither is nor carries a game restart or a trial-mode change succeeds, keeps the limit and starts no jump |
| PlayerRun.DeliverAllKeepsTrialLimit | BumpSetSpike/BumpSetSpike/Behaviour/Player.cs:739-746 | Messages delivered in a row that include no game restart or trial-mode change keep a raised trial limit |
| PlayerRun.TrialLimitBlocksJumps | BumpSetSpike/BumpSetSpike/Behaviour/Player.cs:282-290 | Once the trial limit is reached, no Jump score is emitted and the limit stays until a game restart or a trial-mode change |
| ScoreSummary.NumMoves | BumpSetSpike/BumpSetSpike/Behaviour/ScoreSummary.cs:331-345 | The number of moves performed is at most the number of score types |
| ScoreSummary.NumMovesCountsPositive | BumpSetSpike/BumpSetSpike/Behaviour/ScoreSummary.cs:331-345 | The number of moves is exactly the number of score types with a positive tally |
| ScoreSummary.NumMovesPrefix | BumpSetSpike/BumpSetSpike/Behaviour/ScoreSummary.cs:331-345 | A prefix of the tally has no more moves than the whole, and strictly fewer when it stops before a performed move |
| ScoreSummary.GetNumMoves | BumpSetSpike/BumpSetSpike/Behaviour/ScoreSummary.cs:331-345 | The counting loop computes the number of moves, between 0 and the number of score types |
| ScoreSummary.VisibleRowsCount | BumpSetSpike/BumpSetSpike/Behaviour/ScoreSummary.cs:204-206 | With n rows revealed, exactly min(moves, n + 1) tally rows are drawn |
| ScoreSummary.Reveal | BumpSetSpike/BumpSetSpike/Behaviour/ScoreSummary.cs:133-143 | An expired reveal timer reveals one more row and restarts the count-up at 1. Otherwise nothing changes |
| ScoreSummary.RevealShowsNextRow | BumpSetSpike/BumpSetSpike/Behaviour/ScoreSummary.cs:133-143 | A reveal never hides a drawn row, and draws exactly one more while some performed move is not yet drawn |
| ScoreSummary.OnAddShowsFirstRow | BumpSetSpike/BumpSetSpike/Behaviour/ScoreSummary.cs:98-110 | When the summary appears only the first performed move is drawn, its count starting at 1, and the reveal timer is 15 ticks |
| ScoreSummary.OnAdd | BumpSetSpike/BumpSetSpike/Behaviour/ScoreSummary.cs:98-110 | The summary starts with no rows revealed beyond the first, the count-up at 1, the high-score banner not yet shown, and a 15-tick reveal timer |
| ScoreSummary.HandleUIInput | BumpSetSpike/BumpSetSpike/Behaviour/ScoreSummary.cs:149-173 | Every tap is handled. While moves are still hidden, a tap skips to the last one. Once all are shown, a tap closes the screen. No tap means no change |
| ScoreSummary.TwoTapsClose | BumpSetSpike/BumpSetSpike/Behaviour/ScoreSummary.cs:149-173 | At most two taps close the screen |
| ScoreSummary.SkipShowsEveryMove | BumpSetSpike/BumpSetSpike/Behaviour/ScoreSummary.cs:149-173 | After a skip, a row is drawn exactly when its move was performed |
| ScoreSummary.SkipShowsFullCounts | BumpSetSpike/BumpSetSpike/Behaviour/ScoreSummary.cs:149-173 | After a skip, every drawn row shows its full count, since no row is still counting up |
| ScoreSummary.ShownCount | BumpSetSpike/BumpSetSpike/Behaviour/ScoreSummary.cs:230-239 | The count a drawn row shows never exceeds its tally, and equals the tally once the count-up has reached it |
| ScoreSummary.Render | BumpSetSpike/BumpSetSpike/Behaviour/ScoreSummary.cs:180-325 | A row is drawn exactly when its move was performed and at most n performed moves precede it. The row being revealed shows min(count-up, value), the others their value. Each row's points are count times value. The multiplier shows from n = moves and the total from n = moves + 1. The high-score banner spawns when n >= moves + 2 and it has not been spawned yet. The count-up advances exactly while a row is being revealed |
| ScoreSummary.HighScoreSpawnedAtMostOnce | BumpSetSpike/BumpSetSpike/Behaviour/ScoreSummary.cs:320-324 | Over any sequence of timer ticks, taps and renders, the high-score banner is spawned at most once, and never again once shown |

## Left out

- Sound effects, animation changes, camera zoom, dust and spark effects, and the motion trail. They are fire-and-forget calls into the engine and do not feed back into the player's state.
- The leaderboard check that picks a happy or sad animation on game over (Player.cs:370-386) only chooses an animation.
- Positions of score events: only the kind and order of each event are modelled.
- The tutorial manager's own state machine. Its gating of taps and flicks is an input: the gestures a tick sees are already filtered. A scripted swipe is reduced to accepted or rejected. Its reactions to player actions are left out.
- The random arc velocity of a bump (`GetArcVelocity` with the random manager) is an input of the tick.
- The stop-watch manager: timer expiry at the start of the tick is an input, and the lifetime a tick arms is an output. A restart is taken to make the timer not expired until the next stop-watch update.
- The ball's direction toward the spike point is not normalised. The command records the origin, the target and the speed 10 instead, because the model has no square root.
- Floating point: positions and velocities are exact reals, not 32-bit floats. Lengths are compared squared.
- PlayerModel.Player: `framesInAir` is an unbounded natural, so the 32-bit wrap-around after 2^31 ticks in the air is not modelled.
- ScoreSummary.Summary: `numRowsShown` and the count-up are unbounded integers, and `hitCount * value` does not wrap at 32 bits.
- Spatial queries return lists. Only their first element is observed, as the code does, and other balls are not modelled.
- The engine's two update passes over all objects are reduced, in `PlayerRun.Step`, to the player's Update, then the messages other objects send it during the pass, then its PostUpdate. Other objects are not modelled, so any message sequence may arrive there.
- ScoreSummary.Render: the combo tally and the points per score type come from the score manager. The model takes them as inputs, fixed for the whole summary. The multiplier and total values themselves are not modelled, only whether their rows show.
- Text layout, fonts and draw positions of the summary, and adding and removing the background and banner objects.
- The debug info strings (`GetDebugInfo`) and the tap-start tutorial collision probe (Player.cs:229-249). The probe only decides the tutorial's gating, which is an input here.
