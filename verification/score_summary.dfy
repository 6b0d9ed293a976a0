/** The end-of-round score summary: rows for each move performed are revealed
    one by one on a timer, the current row's count climbs up to its value,
    a tap skips to the end and a second tap closes the screen. Drawing and
    text layout are left out; what remains is which rows and numbers show. */
module ScoreSummary {
  import opened Common

  /** The reveal state: rows revealed so far, the count shown on the row
      being revealed, and whether the high-score banner has been spawned. */
  datatype Summary = Summary(numRowsShown: nat, countShown: int, highScoreShown: bool)

  /** Ticks between two row reveals. */
  const RevealLifetime: int := 15

  /** The state and reveal-timer lifetime when the summary is added. */
  function OnAdd(): (r: (Summary, int))
    ensures r.0.numRowsShown == 0 && r.0.countShown == 1 && !r.0.highScoreShown
    ensures r.1 == RevealLifetime
  {
    (Summary(0, 1, false), RevealLifetime)
  }

  /** The number of moves performed at least once: the entries of the combo
      tally (one per score type) that are positive. */
  function NumMoves(combo: seq<int>): (n: nat)
    ensures n <= |combo|
  {
    if |combo| == 0 then 0
    else NumMoves(combo[..|combo| - 1]) + (if combo[|combo| - 1] > 0 then 1 else 0)
  }

  function PositiveIndices(combo: seq<int>): set<int>
  {
    set i | 0 <= i < |combo| && combo[i] > 0
  }

  /** NumMoves counts exactly the score types with a positive tally. */
  lemma {:induction false} NumMovesCountsPositive(combo: seq<int>)
    ensures NumMoves(combo) == |PositiveIndices(combo)|
  {
    if |combo| > 0 {
      var init := combo[..|combo| - 1];
      NumMovesCountsPositive(init);
      var last := |combo| - 1;
      if combo[last] > 0 {
        assert PositiveIndices(combo) == PositiveIndices(init) + {last};
        assert last !in PositiveIndices(init);
      } else {
        assert PositiveIndices(combo) == PositiveIndices(init);
      }
    }
  }

  /** A prefix never has more moves than the whole tally. */
  lemma {:induction false} NumMovesPrefix(combo: seq<int>, i: nat)
    requires i <= |combo|
    ensures NumMoves(combo[..i]) <= NumMoves(combo)
    ensures i < |combo| && combo[i] > 0 ==> NumMoves(combo[..i]) < NumMoves(combo)
    decreases |combo|
  {
    if i < |combo| {
      var init := combo[..|combo| - 1];
      if i < |combo| - 1 {
        assert init[..i] == combo[..i];
        NumMovesPrefix(init, i);
      } else {
        assert init == combo[..i];
      }
    } else {
      assert combo[..i] == combo;
    }
  }

  /** GetNumMoves: one pass over the tally. */
  method GetNumMoves(combo: seq<int>) returns (count: int)
    ensures count == NumMoves(combo)
    ensures 0 <= count <= |combo|
  {
    count := 0;
    var i := 0;
    while i < |combo|
      invariant 0 <= i <= |combo|
      invariant count == NumMoves(combo[..i])
    {
      assert combo[..i + 1][..i] == combo[..i];
      if combo[i] > 0 {
        count := count + 1;
      }
      i := i + 1;
    }
    assert combo[..i] == combo;
  }

  /** Row `i` of the tally is drawn: its move was performed and no more than
      `n` performed moves come before it. */
  predicate Visible(combo: seq<int>, n: int, i: int)
  {
    0 <= i < |combo| && combo[i] > 0 && NumMoves(combo[..i]) <= n
  }

  /** How many tally rows are drawn when `n` rows have been revealed. */
  function VisibleRows(combo: seq<int>, n: int): nat
  {
    if |combo| == 0 then 0
    else VisibleRows(combo[..|combo| - 1], n) + (if Visible(combo, n, |combo| - 1) then 1 else 0)
  }

  /** With `n` rows revealed, the first n + 1 performed moves are drawn. */
  lemma {:induction false} VisibleRowsCount(combo: seq<int>, n: nat)
    ensures VisibleRows(combo, n) == Min(NumMoves(combo), n + 1)
  {
    if |combo| > 0 {
      VisibleRowsCount(combo[..|combo| - 1], n);
    }
  }

  /** Update: an expired reveal timer reveals one more row and restarts the
      count-up; otherwise nothing changes. */
  function Reveal(s: Summary, expired: bool): (r: Summary)
    ensures expired ==> r == s.(numRowsShown := s.numRowsShown + 1, countShown := 1)
    ensures !expired ==> r == s
  {
    if expired then s.(numRowsShown := s.numRowsShown + 1, countShown := 1) else s
  }

  /** A reveal never hides a drawn row, and while some performed move is not
      yet drawn it draws exactly one more. */
  lemma RevealShowsNextRow(s: Summary, combo: seq<int>, expired: bool)
    ensures forall i :: Visible(combo, s.numRowsShown, i) ==> Visible(combo, Reveal(s, expired).numRowsShown, i)
    ensures expired && s.numRowsShown + 1 < NumMoves(combo) ==>
              VisibleRows(combo, Reveal(s, expired).numRowsShown) == VisibleRows(combo, s.numRowsShown) + 1
  {
    VisibleRowsCount(combo, s.numRowsShown);
    VisibleRowsCount(combo, s.numRowsShown + 1);
  }

  /** The summary as it is first drawn: only the first performed move shows,
      its count starting at one, and no trailing rows. */
  lemma OnAddShowsFirstRow(combo: seq<int>)
    requires NumMoves(combo) > 0
    ensures OnAdd().1 == RevealLifetime
    ensures VisibleRows(combo, OnAdd().0.numRowsShown) == 1
    ensures OnAdd().0.countShown == 1
    ensures OnAdd().0.numRowsShown < NumMoves(combo)
  {
    VisibleRowsCount(combo, 0);
  }

  datatype TapOutcome = TapOutcome(next: Summary, handled: bool, close: bool)

  /** HandleUIInput: a tap first skips the reveal to the last move, and once
      every move shows it closes the screen. Every tap is handled. */
  function HandleUIInput(s: Summary, combo: seq<int>, tap: bool): (r: TapOutcome)
    ensures r.handled <==> tap
    ensures r.close <==> tap && s.numRowsShown >= NumMoves(combo)
    ensures r.close || !tap ==> r.next == s
    ensures tap && !r.close ==> r.next == s.(numRowsShown := NumMoves(combo))
  {
    if !tap then TapOutcome(s, false, false)
    else if s.numRowsShown < NumMoves(combo) then TapOutcome(s.(numRowsShown := NumMoves(combo)), true, false)
    else TapOutcome(s, true, true)
  }

  /** At most two taps close the screen. */
  lemma TwoTapsClose(s: Summary, combo: seq<int>)
    ensures var first := HandleUIInput(s, combo, true);
            first.close || HandleUIInput(first.next, combo, true).close
  {
  }

  /** A tap that does not close draws exactly the performed moves. */
  lemma SkipShowsEveryMove(s: Summary, combo: seq<int>, i: int)
    requires !HandleUIInput(s, combo, true).close
    requires 0 <= i < |combo|
    ensures Visible(combo, HandleUIInput(s, combo, true).next.numRowsShown, i) <==> combo[i] > 0
  {
    NumMovesPrefix(combo, i);
  }

  /** After a tap that does not close, every drawn row shows its full count. */
  lemma SkipShowsFullCounts(s: Summary, combo: seq<int>, i: int)
    requires !HandleUIInput(s, combo, true).close
    requires 0 <= i < |combo| && combo[i] > 0
    ensures ShownCount(HandleUIInput(s, combo, true).next, combo, i) == combo[i]
  {
    NumMovesPrefix(combo, i);
  }

  /** One tally row as drawn: the count shown and the points it is worth. */
  datatype Cell = Cell(count: int, points: int)

  /** What one Render draws. `rows[i]` is the cell of score type `i`, if drawn. */
  datatype Screen = Screen(
    rows: seq<Option<Cell>>,
    multiplierShown: bool,
    totalShown: bool,
    spawnsHighScore: bool,
    next: Summary)

  /** The count a drawn row shows: the row being revealed counts up to its
      value, the rows before it show their value. */
  function ShownCount(s: Summary, combo: seq<int>, i: int): (c: int)
    requires 0 <= i < |combo|
    ensures c <= combo[i]
    ensures s.countShown >= combo[i] ==> c == combo[i]
  {
    if NumMoves(combo[..i]) == s.numRowsShown then Min(s.countShown, combo[i]) else combo[i]
  }

  /** The high-score banner is spawned on this render. */
  predicate SpawnsHighScore(s: Summary, combo: seq<int>)
  {
    s.numRowsShown >= NumMoves(combo) + 2 && !s.highScoreShown
  }

  /** The reveal state after one render. */
  function AfterRender(s: Summary, combo: seq<int>): Summary
  {
    s.(countShown := s.countShown + (if s.numRowsShown < NumMoves(combo) then 1 else 0),
       highScoreShown := s.highScoreShown || SpawnsHighScore(s, combo))
  }

  /** Render, without the drawing: which rows show, with which numbers. `values`
      holds the points each score type is worth. */
  method Render(s: Summary, combo: seq<int>, values: seq<int>) returns (screen: Screen)
    requires |values| == |combo|
    ensures && |screen.rows| == |combo|
            && forall i :: 0 <= i < |combo| ==>
                 && (screen.rows[i].Some? <==> Visible(combo, s.numRowsShown, i))
                 && (screen.rows[i].Some? ==>
                       screen.rows[i] == Some(Cell(ShownCount(s, combo, i), ShownCount(s, combo, i) * values[i])))
    ensures screen.multiplierShown <==> s.numRowsShown >= NumMoves(combo)
    ensures screen.totalShown <==> s.numRowsShown >= NumMoves(combo) + 1
    ensures screen.spawnsHighScore <==> SpawnsHighScore(s, combo)
    ensures screen.next == AfterRender(s, combo)
  {
    var rows: seq<Option<Cell>> := [];
    var count := 0;
    var countShown := s.countShown;
    var i := 0;
    while i < |combo|
      invariant 0 <= i <= |combo|
      invariant |rows| == i
      invariant count == Min(NumMoves(combo[..i]), s.numRowsShown + 1)
      invariant countShown == s.countShown + (if NumMoves(combo[..i]) > s.numRowsShown then 1 else 0)
      invariant forall j :: 0 <= j < i ==> (rows[j].Some? <==> Visible(combo, s.numRowsShown, j))
      invariant forall j :: 0 <= j < i && rows[j].Some? ==>
                  rows[j] == Some(Cell(ShownCount(s, combo, j), ShownCount(s, combo, j) * values[j]))
    {
      assert combo[..i + 1][..i] == combo[..i];
      if combo[i] > 0 && count <= s.numRowsShown {
        var hitCount := combo[i];
        if count == s.numRowsShown {
          hitCount := Min(countShown, hitCount);
          countShown := countShown + 1;
        }
        rows := rows + [Some(Cell(hitCount, hitCount * values[i]))];
        count := count + 1;
      } else {
        rows := rows + [None];
      }
      i := i + 1;
    }
    assert combo[..i] == combo;
    var numMoves := GetNumMoves(combo);
    var spawn := s.numRowsShown >= numMoves + 2 && !s.highScoreShown;
    screen := Screen(
      rows,
      s.numRowsShown >= numMoves,
      s.numRowsShown >= numMoves + 1,
      spawn,
      s.(countShown := countShown, highScoreShown := s.highScoreShown || spawn));
  }

  /** What can happen to the summary between two renders, besides rendering. */
  datatype SummaryEvent = TimerTick(expired: bool) | Touch(tap: bool) | Draw

  /** How many renders of a run spawn the high-score banner. The run ends
      when a tap closes the screen. */
  function HighScoreSpawns(s: Summary, combo: seq<int>, evs: seq<SummaryEvent>): nat
    decreases |evs|
  {
    if |evs| == 0 then 0
    else match evs[0]
      case TimerTick(expired) => HighScoreSpawns(Reveal(s, expired), combo, evs[1..])
      case Touch(tap) =>
        var o := HandleUIInput(s, combo, tap);
        if o.close then 0 else HighScoreSpawns(o.next, combo, evs[1..])
      case Draw =>
        (if SpawnsHighScore(s, combo) then 1 else 0) + HighScoreSpawns(AfterRender(s, combo), combo, evs[1..])
  }

  /** The high-score banner is spawned at most once, and never again once it has been. */
  lemma {:induction false} HighScoreSpawnedAtMostOnce(s: Summary, combo: seq<int>, evs: seq<SummaryEvent>)
    ensures HighScoreSpawns(s, combo, evs) <= (if s.highScoreShown then 0 else 1)
    decreases |evs|
  {
    if |evs| > 0 {
      match evs[0]
      case TimerTick(expired) =>
        HighScoreSpawnedAtMostOnce(Reveal(s, expired), combo, evs[1..]);
      case Touch(tap) =>
        var o := HandleUIInput(s, combo, tap);
        if !o.close {
          HighScoreSpawnedAtMostOnce(o.next, combo, evs[1..]);
        }
      case Draw =>
        HighScoreSpawnedAtMostOnce(AfterRender(s, combo), combo, evs[1..]);
    }
  }
}
