/**
  The tournament engine (TournamentSystem): the replicated bracket state, the three
  operations that change it (start, record a result, reset), the authority flag that
  gates them, and the view decisions derived from the state.

  The replicated fields form a Snapshot value. StartStep, RecordStep and ResetStep say
  what each operation does to a snapshot; the class TournamentSystem performs the same
  operations in place on its fields and arrays and is proved to agree with them.
*/
module Tournament {
  import opened Bracket

  /** The synchronized fields of the engine, as one value. */
  datatype Snapshot = Snapshot(
    playerNames: seq<string>,
    matchResults: seq<int>,
    currentRound: nat,
    currentMatch: nat,
    inProgress: bool,
    winnerId: string)

  datatype Status = NotStarted | InProgress | Completed

  /** The three top-level panels of the engine's display. */
  datatype Panel = MainMenu | BracketDisplay | WinnerDisplay

  /** Which of the three panel objects are active. */
  datatype Panels = Panels(mainMenu: bool, bracketDisplay: bool, winnerDisplay: bool)

  /** A name slot of the bracket view: a player's name, or "TBD". */
  datatype Label = Named(name: string) | Tbd

  /** The result value of a match that has not been played. */
  const Undecided: int := -1

  // ---------------------------------------------------------------------------
  // Dummy roster names: "Player " + (i + 1)

  function DigitChar(d: nat): char
    requires d < 10
  {
    "0123456789"[d]
  }

  function DecimalString(n: nat): string
    decreases n
  {
    if n < 10 then [DigitChar(n)] else DecimalString(n / 10) + [DigitChar(n % 10)]
  }

  function DummyName(i: nat): (name: string)
    ensures name != ""
  {
    "Player " + DecimalString(i + 1)
  }

  // ---------------------------------------------------------------------------
  // Well-formed snapshots

  /** The flat slot of the match the cursor points at. */
  function CursorIndex(maxPlayers: int, s: Snapshot): int
  {
    MatchIndex(maxPlayers, s.currentRound, s.currentMatch)
  }

  function LastResult(s: Snapshot): int
    requires |s.matchResults| > 0
  {
    s.matchResults[|s.matchResults| - 1]
  }

  /** The invariant of the engine's state. While a tournament runs, the cursor names a match
      of the bracket, every slot from the cursor on is undecided, all names are set and no
      winner is set. Otherwise the cursor is either at (0, 0) with no winner (not started)
      or at (totalRounds, 0) with the winner being the name of the final's recorded winner. */
  ghost predicate WellFormed(maxPlayers: int, totalRounds: nat, s: Snapshot)
  {
    && ValidSize(maxPlayers, totalRounds)
    && |s.playerNames| == maxPlayers
    && |s.matchResults| == maxPlayers - 1
    && (s.inProgress ==>
          && InBracket(maxPlayers, totalRounds, s.currentRound, s.currentMatch)
          && s.winnerId == ""
          && (forall i | 0 <= i < |s.playerNames| :: s.playerNames[i] != "")
          && (forall k | 0 <= k < |s.matchResults| && CursorIndex(maxPlayers, s) <= k :: s.matchResults[k] == Undecided))
    && (!s.inProgress ==>
          && s.currentMatch == 0
          && ((s.currentRound == 0 && s.winnerId == "")
              || (&& s.currentRound == totalRounds
                  && 0 <= LastResult(s) < |s.playerNames|
                  && s.winnerId == s.playerNames[LastResult(s)]
                  && s.winnerId != "")))
  }

  /** Every decided match (every slot before the cursor) holds a roster index. */
  ghost predicate RecordedAreRoster(maxPlayers: int, s: Snapshot)
  {
    forall k | 0 <= k < |s.matchResults| && k < CursorIndex(maxPlayers, s) :: 0 <= s.matchResults[k] < |s.playerNames|
  }

  function StatusOf(totalRounds: nat, s: Snapshot): Status
  {
    if s.inProgress then InProgress
    else if s.currentRound == totalRounds then Completed
    else NotStarted
  }

  /** The recorded result would be the final's: the tournament completes with it. */
  predicate RecordsFinal(maxPlayers: int, isHost: bool, s: Snapshot)
  {
    isHost && s.inProgress && CursorIndex(maxPlayers, s) == |s.matchResults| - 1
  }

  /** What a record that acts needs of its winner so that the source completes it: UpdateUI
      (run before the snapshot is sent) names every decided winner through playerNames, so
      each must be below maxPlayers, and the final's winner is also read by the completion,
      so it must be a roster index. A negative earlier winner is shown as "TBD" and is accepted. */
  predicate WinnerAccepted(maxPlayers: int, isHost: bool, s: Snapshot, winner: int)
  {
    isHost && s.inProgress ==> winner < maxPlayers && (RecordsFinal(maxPlayers, isHost, s) ==> 0 <= winner)
  }

  // ---------------------------------------------------------------------------
  // The operations, on snapshots

  /** StartTournament: only the host, only when no tournament runs. All results become
      undecided, the cursor goes to (0, 0), the winner is cleared and every name slot is filled. */
  function StartStep(isHost: bool, s: Snapshot): (r: Snapshot)
    ensures r.inProgress <==> isHost || s.inProgress
    ensures r.inProgress == s.inProgress ==> r == s
    ensures |r.playerNames| == |s.playerNames| && |r.matchResults| == |s.matchResults|
  {
    if !isHost || s.inProgress then s
    else Snapshot(
      seq(|s.playerNames|, i requires 0 <= i => DummyName(i)),
      seq(|s.matchResults|, _ => Undecided),
      0, 0, true, "")
  }

  /** RecordMatchResult: only the host, only while a tournament runs. The winner is written at
      the cursor's slot, the cursor advances, and after the last match the tournament ends with
      the final's winner's name. The winner is not checked against the two candidates. */
  function RecordStep(maxPlayers: int, totalRounds: nat, isHost: bool, s: Snapshot, winner: int): (r: Snapshot)
    requires WellFormed(maxPlayers, totalRounds, s)
    requires WinnerAccepted(maxPlayers, isHost, s, winner)
    ensures WellFormed(maxPlayers, totalRounds, r)
    ensures RecordedAreRoster(maxPlayers, s) && 0 <= winner < maxPlayers ==> RecordedAreRoster(maxPlayers, r)
  {
    if !isHost || !s.inProgress then s
    else
      AdvanceIsNextSlot(maxPlayers, totalRounds, s.currentRound, s.currentMatch);
      IndexWithinRound(maxPlayers, totalRounds, s.currentRound, s.currentMatch);
      var results := s.matchResults[CursorIndex(maxPlayers, s) := winner];
      var next := Advance(maxPlayers, s.currentRound, s.currentMatch);
      if next.0 >= totalRounds then
        Snapshot(s.playerNames, results, next.0, next.1, false, s.playerNames[results[|results| - 1]])
      else
        s.(matchResults := results, currentRound := next.0, currentMatch := next.1)
  }

  /** ResetTournament: only the host. Cursor to (0, 0), no winner, nothing in progress, all
      results undecided; the names stay. */
  function ResetStep(isHost: bool, s: Snapshot): (r: Snapshot)
    ensures !r.inProgress <==> isHost || !s.inProgress
    ensures r.inProgress ==> r == s
    ensures r.playerNames == s.playerNames && |r.matchResults| == |s.matchResults|
  {
    if !isHost then s
    else s.(matchResults := seq(|s.matchResults|, _ => Undecided), currentRound := 0, currentMatch := 0,
            inProgress := false, winnerId := "")
  }

  // ---------------------------------------------------------------------------
  // View decisions

  /** OnDeserialization: the bracket while in progress, else the winner panel if a winner
      is set, else the main menu. */
  function DeserializedPanel(s: Snapshot): (p: Panel)
    ensures p == BracketDisplay <==> s.inProgress
    ensures p == WinnerDisplay <==> !s.inProgress && s.winnerId != ""
  {
    if s.inProgress then BracketDisplay
    else if s.winnerId != "" then WinnerDisplay
    else MainMenu
  }

  /** Exactly the panel p is active. */
  function Showing(p: Panel): (ps: Panels)
    ensures ps.mainMenu == (p == MainMenu) && ps.bracketDisplay == (p == BracketDisplay)
    ensures ps.winnerDisplay == (p == WinnerDisplay)
  {
    Panels(p == MainMenu, p == BracketDisplay, p == WinnerDisplay)
  }

  /** UpdateUI, the name shown for one player slot: in round 0 the roster name of the
      slot's player when that index is inside the roster; in later rounds the name of the
      feeding match's winner when that match is decided, else "TBD". */
  function SlotLabel(maxPlayers: int, s: Snapshot, round: nat, m: int, position: int): (shown: Label)
    requires position == 0 || position == 1
    requires round == 0 ==> 0 <= m * 2 + position
    requires round > 0 ==> 0 <= MatchIndex(maxPlayers, round - 1, FeederMatch(m, position)) < |s.matchResults|
    requires round > 0 ==> s.matchResults[MatchIndex(maxPlayers, round - 1, FeederMatch(m, position))] < |s.playerNames|
    ensures var p := PlayerIndex(maxPlayers, s.matchResults, round, m, position);
      && (shown == Tbd <==> p < 0 || |s.playerNames| <= p)
      && (shown.Named? ==> shown.name == s.playerNames[p])
  {
    if round == 0 then
      var p := PlayerIndex(maxPlayers, s.matchResults, 0, m, position);
      if p < |s.playerNames| then Named(s.playerNames[p]) else Tbd
    else
      var prev := MatchIndex(maxPlayers, round - 1, FeederMatch(m, position));
      if s.matchResults[prev] >= 0 then Named(s.playerNames[s.matchResults[prev]]) else Tbd
  }

  /** UpdateUI, the "Win" mark of one player slot: the match is decided and its recorded
      result is this slot's player index. */
  function WinMark(maxPlayers: int, s: Snapshot, round: nat, m: int, position: int): (marked: bool)
    requires 0 <= MatchIndex(maxPlayers, round, m) < |s.matchResults|
    requires round > 0 ==> 0 <= MatchIndex(maxPlayers, round - 1, FeederMatch(m, position)) < |s.matchResults|
    ensures marked ==> 0 <= s.matchResults[MatchIndex(maxPlayers, round, m)]
    ensures marked && round == 0 ==> s.matchResults[MatchIndex(maxPlayers, round, m)] == 2 * m + position
  {
    var result := s.matchResults[MatchIndex(maxPlayers, round, m)];
    result >= 0 && result == PlayerIndex(maxPlayers, s.matchResults, round, m, position)
  }

  // ---------------------------------------------------------------------------
  // Properties of the operations

  /** Starting twice is starting once: the second start finds the tournament running. */
  lemma StartIsIdempotent(isHost: bool, s: Snapshot)
    ensures StartStep(isHost, StartStep(isHost, s)) == StartStep(isHost, s)
  {
  }

  /** Resetting twice is resetting once. */
  lemma ResetIsIdempotent(isHost: bool, s: Snapshot)
    ensures ResetStep(isHost, ResetStep(isHost, s)) == ResetStep(isHost, s)
  {
  }

  /** A start that acts leaves a running tournament at the first match of round 0 with every
      result undecided and every name slot filled; a refused start changes nothing. */
  lemma StartBeginsAtFirstMatch(maxPlayers: int, totalRounds: nat, isHost: bool, s: Snapshot)
    requires WellFormed(maxPlayers, totalRounds, s)
    ensures var r := StartStep(isHost, s);
      && WellFormed(maxPlayers, totalRounds, r)
      && (isHost && !s.inProgress ==>
            && r.inProgress && CursorIndex(maxPlayers, r) == 0 && RecordedAreRoster(maxPlayers, r)
            && (forall k | 0 <= k < |r.matchResults| :: r.matchResults[k] == Undecided)
            && (forall i | 0 <= i < |r.playerNames| :: r.playerNames[i] != ""))
      && (!isHost || s.inProgress ==> r == s)
  {
    RoundSize(maxPlayers, totalRounds, 0);
  }

  /** A reset that acts returns to the not-started state and keeps the roster. */
  lemma ResetReturnsToNotStarted(maxPlayers: int, totalRounds: nat, isHost: bool, s: Snapshot)
    requires WellFormed(maxPlayers, totalRounds, s)
    ensures var r := ResetStep(isHost, s);
      && WellFormed(maxPlayers, totalRounds, r)
      && (isHost ==>
            StatusOf(totalRounds, r) == NotStarted && r.playerNames == s.playerNames && RecordedAreRoster(maxPlayers, r))
      && (!isHost ==> r == s)
  {
  }

  /** Recording writes exactly the cursor's slot, which was undecided, and moves the cursor
      to the next flat slot. Nothing happens without authority or outside a running tournament. */
  lemma RecordWritesCursorSlot(maxPlayers: int, totalRounds: nat, isHost: bool, s: Snapshot, winner: int)
    requires WellFormed(maxPlayers, totalRounds, s)
    requires WinnerAccepted(maxPlayers, isHost, s, winner)
    ensures var r := RecordStep(maxPlayers, totalRounds, isHost, s, winner);
      && (isHost && s.inProgress ==>
            && 0 <= CursorIndex(maxPlayers, s) < |s.matchResults|
            && s.matchResults[CursorIndex(maxPlayers, s)] == Undecided
            && r.matchResults == s.matchResults[CursorIndex(maxPlayers, s) := winner]
            && CursorIndex(maxPlayers, r) == CursorIndex(maxPlayers, s) + 1
            && r.playerNames == s.playerNames)
      && (!isHost || !s.inProgress ==> r == s)
  {
    if isHost && s.inProgress {
      AdvanceIsNextSlot(maxPlayers, totalRounds, s.currentRound, s.currentMatch);
      IndexWithinRound(maxPlayers, totalRounds, s.currentRound, s.currentMatch);
    }
  }

  /** After a result is recorded for match m of round r (not the final), the player at
      position m % 2 of match m / 2 of round r + 1 is that winner. */
  lemma RecordPropagatesWinner(maxPlayers: int, totalRounds: nat, s: Snapshot, winner: int)
    requires WellFormed(maxPlayers, totalRounds, s) && s.inProgress
    requires s.currentRound + 1 < totalRounds && winner < maxPlayers
    ensures !RecordsFinal(maxPlayers, true, s)
    ensures var r := RecordStep(maxPlayers, totalRounds, true, s, winner);
      var nextRound, nextMatch, position := s.currentRound + 1, s.currentMatch / 2, s.currentMatch % 2;
      && InBracket(maxPlayers, totalRounds, nextRound, nextMatch)
      && 0 <= MatchIndex(maxPlayers, nextRound - 1, FeederMatch(nextMatch, position)) < |r.matchResults|
      && PlayerIndex(maxPlayers, r.matchResults, nextRound, nextMatch, position) == winner
  {
    AdvanceIsNextSlot(maxPlayers, totalRounds, s.currentRound, s.currentMatch);
    WinnerPropagates(maxPlayers, totalRounds, s.matchResults, s.currentRound, s.currentMatch, winner);
  }

  /** The candidates of the current match are roster indices: in round 0 by pairing, later
      because their feeding matches are already decided. */
  lemma CandidatesAreRoster(maxPlayers: int, totalRounds: nat, s: Snapshot, position: int)
    requires WellFormed(maxPlayers, totalRounds, s) && RecordedAreRoster(maxPlayers, s) && s.inProgress
    requires position == 0 || position == 1
    ensures CursorIndex(maxPlayers, s) < |s.matchResults|
    ensures s.currentRound > 0 ==>
      0 <= MatchIndex(maxPlayers, s.currentRound - 1, FeederMatch(s.currentMatch, position)) < CursorIndex(maxPlayers, s)
    ensures 0 <= PlayerIndex(maxPlayers, s.matchResults, s.currentRound, s.currentMatch, position) < maxPlayers
  {
    IndexWithinRound(maxPlayers, totalRounds, s.currentRound, s.currentMatch);
    if s.currentRound == 0 {
      FirstRoundPairs(maxPlayers, totalRounds, s.matchResults, s.currentMatch, position);
    } else {
      FeedersPrecede(maxPlayers, totalRounds, s.currentRound, s.currentMatch, position);
    }
  }

  /** In a running tournament a later-round slot of the bracket view shows "TBD" exactly when
      its feeding match has not been played yet (is at or after the cursor). */
  lemma TbdExactlyWhenUnplayed(maxPlayers: int, totalRounds: nat, s: Snapshot, round: nat, m: int, position: int)
    requires WellFormed(maxPlayers, totalRounds, s) && RecordedAreRoster(maxPlayers, s) && s.inProgress
    requires InBracket(maxPlayers, totalRounds, round, m) && round > 0
    requires position == 0 || position == 1
    ensures var feeder := MatchIndex(maxPlayers, round - 1, FeederMatch(m, position));
      && 0 <= feeder < |s.matchResults|
      && s.matchResults[feeder] < |s.playerNames|
      && (SlotLabel(maxPlayers, s, round, m, position) == Tbd <==> feeder >= CursorIndex(maxPlayers, s))
  {
    FeedersPrecede(maxPlayers, totalRounds, round, m, position);
    IndexWithinRound(maxPlayers, totalRounds, round, m);
  }

  /** Round 0 never shows "TBD": its slots are the roster itself. */
  lemma FirstRoundNeverTbd(maxPlayers: int, totalRounds: nat, s: Snapshot, m: int, position: int)
    requires WellFormed(maxPlayers, totalRounds, s)
    requires InBracket(maxPlayers, totalRounds, 0, m) && (position == 0 || position == 1)
    ensures 0 <= m * 2 + position < |s.playerNames|
    ensures SlotLabel(maxPlayers, s, 0, m, position) == Named(s.playerNames[m * 2 + position])
  {
    FirstRoundPairs(maxPlayers, totalRounds, s.matchResults, m, position);
  }

  /** After recording one of the current match's two candidates, the "Win" mark is shown on
      that candidate's slot; in round 0, where the two candidates differ, not on the other. */
  lemma WinMarkOnRecordedCandidate(maxPlayers: int, totalRounds: nat, s: Snapshot, position: int)
    requires WellFormed(maxPlayers, totalRounds, s) && RecordedAreRoster(maxPlayers, s) && s.inProgress
    requires position == 0 || position == 1
    ensures s.currentRound > 0 ==>
      0 <= MatchIndex(maxPlayers, s.currentRound - 1, FeederMatch(s.currentMatch, position)) < |s.matchResults|
    ensures 0 <= PlayerIndex(maxPlayers, s.matchResults, s.currentRound, s.currentMatch, position) < maxPlayers
    ensures var round, m := s.currentRound, s.currentMatch;
      var winner := PlayerIndex(maxPlayers, s.matchResults, round, m, position);
      var r := RecordStep(maxPlayers, totalRounds, true, s, winner);
      && 0 <= MatchIndex(maxPlayers, round, m) < |r.matchResults|
      && (round > 0 ==> 0 <= MatchIndex(maxPlayers, round - 1, FeederMatch(m, 1 - position)) < |r.matchResults|)
      && WinMark(maxPlayers, r, round, m, position)
      && (round == 0 ==> !WinMark(maxPlayers, r, round, m, 1 - position))
  {
    CandidatesAreRoster(maxPlayers, totalRounds, s, position);
    CandidatesAreRoster(maxPlayers, totalRounds, s, 1 - position);
    IndexWithinRound(maxPlayers, totalRounds, s.currentRound, s.currentMatch);
    var winner := PlayerIndex(maxPlayers, s.matchResults, s.currentRound, s.currentMatch, position);
    RecordWritesCursorSlot(maxPlayers, totalRounds, true, s, winner);
  }

  /** The panel an observer derives from a snapshot tells the tournament's status. */
  lemma PanelTellsStatus(maxPlayers: int, totalRounds: nat, s: Snapshot)
    requires WellFormed(maxPlayers, totalRounds, s)
    ensures DeserializedPanel(s) == match StatusOf(totalRounds, s)
      case InProgress => BracketDisplay
      case Completed => WinnerDisplay
      case NotStarted => MainMenu
  {
  }

  /** The panels StartTournament switches as written: the main menu off and the bracket on;
      the winner panel keeps whatever state it had. */
  function StartPanelsAsWritten(before: Panels): (after: Panels)
    ensures !after.mainMenu && after.bracketDisplay
    ensures after.winnerDisplay == before.winnerDisplay
  {
    before.(mainMenu := false, bracketDisplay := true)
  }

  /** Starting again after a completed tournament, without a reset in between: the host
      still shows the winner panel, and the panel switch as written leaves the winner panel
      and the bracket active together, while an observer derives the bracket alone from
      the started snapshot. */
  lemma RestartAfterCompletionAsWritten(maxPlayers: int, totalRounds: nat, s: Snapshot)
    requires WellFormed(maxPlayers, totalRounds, s) && StatusOf(totalRounds, s) == Completed
    ensures var started := StartStep(true, s);
      && StatusOf(totalRounds, started) == InProgress
      && StartPanelsAsWritten(Showing(DeserializedPanel(s))) == Panels(false, true, true)
      && StartPanelsAsWritten(Showing(DeserializedPanel(s))) != Showing(DeserializedPanel(started))
  {
  }

  // ---------------------------------------------------------------------------
  // A whole tournament

  /** The snapshot after the host records `winners`, in order, starting from s. */
  ghost function RecordRun(maxPlayers: int, totalRounds: nat, s: Snapshot, winners: seq<int>): (r: Snapshot)
    requires WellFormed(maxPlayers, totalRounds, s)
    requires forall i | 0 <= i < |winners| :: 0 <= winners[i] < maxPlayers
    ensures WellFormed(maxPlayers, totalRounds, r)
    decreases |winners|
  {
    if winners == [] then s
    else RecordStep(maxPlayers, totalRounds, true, RecordRun(maxPlayers, totalRounds, s, winners[..|winners| - 1]), winners[|winners| - 1])
  }

  /** A running tournament whose cursor is at slot 0 stands at the first match of round 0. */
  lemma FirstSlotIsOrigin(maxPlayers: int, totalRounds: nat, s: Snapshot)
    requires WellFormed(maxPlayers, totalRounds, s) && s.inProgress && CursorIndex(maxPlayers, s) == 0
    ensures (s.currentRound, s.currentMatch) == (0, 0)
  {
    RoundSize(maxPlayers, totalRounds, 0);
    if s.currentRound > 0 {
      IndexWithinRound(maxPlayers, totalRounds, s.currentRound, s.currentMatch);
      OffsetMonotone(maxPlayers, totalRounds, 1, s.currentRound);
    }
  }

  /** One record by the host in a running tournament: the roster stays, the cursor's slot
      gets the winner, the cursor takes one Advance step, and the tournament keeps running
      exactly when that step stays inside the bracket. */
  lemma RecordMovesCursor(maxPlayers: int, totalRounds: nat, s: Snapshot, winner: int)
    requires WellFormed(maxPlayers, totalRounds, s) && s.inProgress && 0 <= winner < maxPlayers
    ensures 0 <= CursorIndex(maxPlayers, s) < |s.matchResults|
    ensures var r := RecordStep(maxPlayers, totalRounds, true, s, winner);
      var next := Advance(maxPlayers, s.currentRound, s.currentMatch);
      && r.playerNames == s.playerNames
      && r.matchResults == s.matchResults[CursorIndex(maxPlayers, s) := winner]
      && (r.currentRound, r.currentMatch) == next
      && (r.inProgress <==> CursorIndex(maxPlayers, s) < maxPlayers - 2)
  {
    AdvanceIsNextSlot(maxPlayers, totalRounds, s.currentRound, s.currentMatch);
    IndexWithinRound(maxPlayers, totalRounds, s.currentRound, s.currentMatch);
  }

  /** One step of that walk: a running snapshot whose first k results are the first k of
      `winners` and whose cursor is CursorAfter(k), for k = |winners| - 1, takes the last of
      `winners` to k + 1 records along. */
  lemma RecordExtendsWalk(maxPlayers: int, totalRounds: nat, p: Snapshot, winners: seq<int>)
    requires WellFormed(maxPlayers, totalRounds, p) && p.inProgress
    requires 0 < |winners| <= maxPlayers - 1 && 0 <= winners[|winners| - 1] < maxPlayers
    requires (p.currentRound, p.currentMatch) == CursorAfter(maxPlayers, |winners| - 1)
    requires p.matchResults[..|winners| - 1] == winners[..|winners| - 1]
    ensures var r := RecordStep(maxPlayers, totalRounds, true, p, winners[|winners| - 1]);
      && r.playerNames == p.playerNames
      && (r.currentRound, r.currentMatch) == CursorAfter(maxPlayers, |winners|)
      && r.matchResults[..|winners|] == winners
      && (r.inProgress <==> |winners| < maxPlayers - 1)
  {
    var n, w := |winners| - 1, winners[|winners| - 1];
    CursorWalksInOrder(maxPlayers, totalRounds, n);
    assert CursorIndex(maxPlayers, p) == n;
    RecordMovesCursor(maxPlayers, totalRounds, p, w);
    assert p.matchResults[n := w][..n + 1] == p.matchResults[..n] + [w];
    assert winners[..n] + [w] == winners;
  }

  /** The walk behind TournamentCompletesAfterAllMatches: from the first match, after k
      recorded winners the roster is unchanged, the cursor is CursorAfter(k), the first k
      results are those winners, and the tournament still runs exactly while k < maxPlayers - 1. */
  lemma {:induction false} RecordRunWalks(maxPlayers: int, totalRounds: nat, s: Snapshot, winners: seq<int>)
    requires WellFormed(maxPlayers, totalRounds, s) && s.inProgress && CursorIndex(maxPlayers, s) == 0
    requires |winners| <= maxPlayers - 1
    requires forall i | 0 <= i < |winners| :: 0 <= winners[i] < maxPlayers
    ensures var r := RecordRun(maxPlayers, totalRounds, s, winners);
      && r.playerNames == s.playerNames
      && (r.currentRound, r.currentMatch) == CursorAfter(maxPlayers, |winners|)
      && r.matchResults[..|winners|] == winners
      && (r.inProgress <==> |winners| < maxPlayers - 1)
    decreases |winners|
  {
    var n := |winners|;
    if n == 0 {
      FirstSlotIsOrigin(maxPlayers, totalRounds, s);
    } else {
      var prefix, w := winners[..n - 1], winners[n - 1];
      var p := RecordRun(maxPlayers, totalRounds, s, prefix);
      assert RecordRun(maxPlayers, totalRounds, s, winners) == RecordStep(maxPlayers, totalRounds, true, p, w);
      RecordRunWalks(maxPlayers, totalRounds, s, prefix);
      RecordExtendsWalk(maxPlayers, totalRounds, p, winners);
    }
  }

  /** A tournament completes after exactly maxPlayers - 1 results. From a fresh start, after k
      recorded winners the results hold those winners in order, the rest is undecided, the
      cursor stands where CursorAfter(k) says, and the tournament is still running exactly
      while k < maxPlayers - 1; at k = maxPlayers - 1 the winner is the final's winner's name. */
  lemma TournamentCompletesAfterAllMatches(maxPlayers: int, totalRounds: nat, s: Snapshot, winners: seq<int>)
    requires WellFormed(maxPlayers, totalRounds, s) && s.inProgress && CursorIndex(maxPlayers, s) == 0
    requires |winners| <= maxPlayers - 1
    requires forall i | 0 <= i < |winners| :: 0 <= winners[i] < maxPlayers
    ensures var r := RecordRun(maxPlayers, totalRounds, s, winners);
      && r.playerNames == s.playerNames
      && (r.currentRound, r.currentMatch) == CursorAfter(maxPlayers, |winners|)
      && r.matchResults[..|winners|] == winners
      && (forall k | |winners| <= k < |r.matchResults| :: r.matchResults[k] == Undecided)
      && (r.inProgress <==> |winners| < maxPlayers - 1)
      && (|winners| == maxPlayers - 1 ==>
            StatusOf(totalRounds, r) == Completed && r.winnerId == s.playerNames[winners[|winners| - 1]])
  {
    var r := RecordRun(maxPlayers, totalRounds, s, winners);
    var n := |winners|;
    RecordRunWalks(maxPlayers, totalRounds, s, winners);
    CursorWalksInOrder(maxPlayers, totalRounds, n);
    if n == maxPlayers - 1 {
      assert LastResult(r) == r.matchResults[..n][n - 1];
    }
  }

  // ---------------------------------------------------------------------------
  // The engine object

  class TournamentSystem {
    const maxPlayers: int
    const totalRounds: nat
    const totalMatches: int
    const playerNames: array<string>
    const matchResults: array<int>
    var currentRound: nat
    var currentMatch: nat
    var tournamentInProgress: bool
    var winnerId: string
    /** Local authority flag: only the host's operations change anything. */
    var isHost: bool
    /** Activity of the main menu, bracket and winner panels on this client. */
    var panels: Panels
    /** How many snapshots this client has sent out (RequestSerialization calls). */
    ghost var serializations: nat

    function CurrentSnapshot(): Snapshot
      reads this, playerNames, matchResults
    {
      Snapshot(playerNames[..], matchResults[..], currentRound, currentMatch, tournamentInProgress, winnerId)
    }

    /** The engine's invariant; besides the snapshot's own, the panels this client shows are
        the ones any observer derives from the snapshot. */
    ghost predicate Valid()
      reads this, playerNames, matchResults
    {
      && totalMatches == maxPlayers - 1
      && WellFormed(maxPlayers, totalRounds, CurrentSnapshot())
      && panels == Showing(DeserializedPanel(CurrentSnapshot()))
    }

    /** Start(): allocates the roster and result arrays, derives the round count from the
        player count, and shows the main menu. */
    constructor (maxPlayers: int)
      requires IsPowerOfTwo(maxPlayers) && maxPlayers >= 2
      ensures Valid() && fresh(playerNames) && fresh(matchResults)
      ensures this.maxPlayers == maxPlayers && Pow2(totalRounds) == maxPlayers
      ensures CurrentSnapshot() == Snapshot(seq(maxPlayers, _ => ""), seq(maxPlayers - 1, _ => 0), 0, 0, false, "")
      ensures !isHost && serializations == 0
    {
      this.maxPlayers := maxPlayers;
      totalRounds := Log2(maxPlayers);
      totalMatches := maxPlayers - 1;
      playerNames := new string[maxPlayers](_ => "");
      matchResults := new int[maxPlayers - 1](_ => 0);
      currentRound, currentMatch := 0, 0;
      tournamentInProgress := false;
      winnerId := "";
      isHost := false;
      panels := Showing(MainMenu);
      serializations := 0;
    }

    /** OnPlayerJoined: the host is whoever owns the engine's object. */
    method OnPlayerJoined(localIsOwner: bool)
      modifies this`isHost
      ensures isHost == localIsOwner
    {
      isHost := localIsOwner;
    }

    /** RequestOwnership: a client that does not own the object takes it and becomes host;
        an owner's flag is left as it is. */
    method RequestOwnership(localIsOwner: bool)
      modifies this`isHost
      ensures isHost == (old(isHost) || !localIsOwner)
    {
      if !localIsOwner {
        isHost := true;
      }
    }

    /** GetMatchIndex: sums the sizes of the rounds before `round`, then adds `m`. */
    method GetMatchIndex(round: nat, m: int) returns (index: int)
      ensures index == MatchIndex(maxPlayers, round, m)
    {
      var offset := 0;
      for i := 0 to round
        invariant offset == MatchOffset(maxPlayers, i)
      {
        offset := offset + Shr(maxPlayers, i + 1);
      }
      index := offset + m;
    }

    method StartTournament()
      requires Valid()
      modifies this, playerNames, matchResults
      ensures Valid()
      ensures CurrentSnapshot() == StartStep(old(isHost), old(CurrentSnapshot()))
      ensures isHost == old(isHost)
      ensures serializations == old(serializations) + (if old(isHost) && !old(tournamentInProgress) then 1 else 0)
    {
      if !isHost || tournamentInProgress {
        return;
      }
      ghost var before := CurrentSnapshot();
      tournamentInProgress := true;
      currentRound := 0;
      currentMatch := 0;
      winnerId := "";
      ClearResults();
      FillDummyNames();
      panels := Showing(BracketDisplay);
      serializations := serializations + 1;
      assert CurrentSnapshot() == StartStep(true, before);
      StartBeginsAtFirstMatch(maxPlayers, totalRounds, true, before);
    }

    method RecordMatchResult(winner: int)
      requires Valid()
      requires WinnerAccepted(maxPlayers, isHost, CurrentSnapshot(), winner)
      modifies this, matchResults
      ensures Valid()
      ensures CurrentSnapshot() == RecordStep(maxPlayers, totalRounds, old(isHost), old(CurrentSnapshot()), winner)
      ensures isHost == old(isHost)
      ensures serializations == old(serializations) + (if old(isHost) && old(tournamentInProgress) then 1 else 0)
    {
      if !isHost || !tournamentInProgress {
        return;
      }
      ghost var before := CurrentSnapshot();
      AdvanceIsNextSlot(maxPlayers, totalRounds, currentRound, currentMatch);
      IndexWithinRound(maxPlayers, totalRounds, currentRound, currentMatch);
      var index := GetMatchIndex(currentRound, currentMatch);
      matchResults[index] := winner;
      currentMatch := currentMatch + 1;
      var matchesInRound := Shr(maxPlayers, currentRound + 1);
      if currentMatch >= matchesInRound {
        currentRound := currentRound + 1;
        currentMatch := 0;
        if currentRound >= totalRounds {
          tournamentInProgress := false;
          winnerId := playerNames[matchResults[matchResults.Length - 1]];
          // ShowWinner
          panels := panels.(bracketDisplay := false, winnerDisplay := true);
        }
      }
      serializations := serializations + 1;
      assert CurrentSnapshot() == RecordStep(maxPlayers, totalRounds, true, before, winner);
    }

    method ResetTournament()
      requires Valid()
      modifies this, matchResults
      ensures Valid()
      ensures CurrentSnapshot() == ResetStep(old(isHost), old(CurrentSnapshot()))
      ensures isHost == old(isHost)
      ensures serializations == old(serializations) + (if old(isHost) then 1 else 0)
    {
      if !isHost {
        return;
      }
      tournamentInProgress := false;
      currentRound := 0;
      currentMatch := 0;
      winnerId := "";
      ClearResults();
      panels := Showing(MainMenu);
      serializations := serializations + 1;
    }

    /** The loop shared by the start and the reset: every result becomes undecided (-1). */
    method ClearResults()
      modifies matchResults
      ensures matchResults[..] == seq(matchResults.Length, _ => Undecided)
    {
      for i := 0 to matchResults.Length
        invariant forall k | 0 <= k < i :: matchResults[k] == Undecided
      {
        matchResults[i] := Undecided;
      }
    }

    /** The start's second loop: name slot i becomes "Player " followed by i + 1. */
    method FillDummyNames()
      requires playerNames.Length == maxPlayers
      modifies playerNames
      ensures playerNames[..] == seq(maxPlayers, i requires 0 <= i => DummyName(i))
    {
      for i := 0 to maxPlayers
        invariant forall k | 0 <= k < i :: playerNames[k] == DummyName(k)
      {
        playerNames[i] := DummyName(i);
      }
    }
  }
}
