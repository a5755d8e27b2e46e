# Single-elimination tournament and navigation selector, modelled in Dafny

This project models the integer and boolean core of a VRChat world's UdonSharp scripts:

- **The tournament engine** (`TournamentSystem`). It runs a single-elimination bracket for
  `maxPlayers = 2^totalRounds` players. All `maxPlayers - 1` match results sit in one flat
  array, round after round. A cursor `(currentRound, currentMatch)` walks that array as the
  host records winners. Only the host's start, record and reset change anything. Every other
  client derives which panel to show from the synchronised state.
- **The control panel** (`TournamentUISetup`). It registers players into a bounded list
  without duplicates. It gates the start and reset buttons on admin status. Its two "player
  wins" buttons submit one of the current match's two candidates to the engine.
- **The navigation selector** (`NavigationManager`). It chooses VOR or ILS and one system of
  that kind. It switches exactly the matching display container on. It decides which system
  the frequency and OBS knobs act on.

Modules:

- `Bracket` (`bracket.dfy`) holds the pure index arithmetic. It covers the round sizes
  `maxPlayers >> (r + 1)`, the flat index of a match and its inverse (a bijection onto
  `[0, maxPlayers - 1)`), the cursor step, and the lookup of a match's two players.
- `Tournament` (`tournament.dfy`) holds the engine. A `Snapshot` datatype carries the
  synchronised state. The pure steps `StartStep`, `RecordStep` and `ResetStep` say what each
  operation does to it. The class `TournamentSystem` does the same in place, with arrays and
  loops, and each of its methods is proved equal to its step. The invariant `WellFormed`
  says what a reachable state looks like. Lemmas prove the promised properties about the
  steps, up to "the tournament completes after exactly `maxPlayers - 1` results".
- `TournamentUI` (`tournament_ui.dfy`) holds the control panel. The registration effect is a
  function on the registered list, proved to keep the list bounded and free of duplicates
  and blank names. The class `TournamentUISetup` scans and appends in place. It drives the
  engine object through that object's methods.
- `Navigation` (`navigation.dfy`) holds the selector. The class `NavigationManager` keeps the
  selection and refreshes two arrays of display flags in loops. Lemmas prove that at most
  one display is on, and that it is the system the knobs act on.
- `Wrappers` (`wrappers.dfy`) holds `Option`.

Network and platform effects are not modelled. Authority is a boolean. The owner and master
checks become parameters. `RequestSerialization` is a ghost counter `serializations`. A C#
`null` string is the empty string, and a null systems array is an empty array. Each guard in
the source treats null and empty alike.

## Model

| member | source | states |
|---|---|---|
| Bracket.Log2 | Assets/vrchat-tournament-system.cs:43 | the round count of a power-of-two player count is its exact base-2 logarithm: 2^result equals the player count |
| Bracket.Pow2IsPowerOfTwo | Assets/vrchat-tournament-system.cs:43 | every 2^k is accepted as a player count, and its round count is k |
| Bracket.ShrPow2 | Assets/vrchat-tournament-system.cs:114 | shifting 2^n right by k places (k at most n) gives 2^(n-k) |
| Bracket.RoundSize | Assets/vrchat-tournament-system.cs:114 | round r of a 2^n-player bracket has 2^(n-r-1) matches, at least one |
| Bracket.RoundHalving | Assets/vrchat-tournament-system.cs:114 | each round has exactly half the matches of the round before it |
| Bracket.OffsetClosedForm | Assets/vrchat-tournament-system.cs:137-145 | the offset summed by GetMatchIndex's loop for round r equals maxPlayers - 2^(n-r) |
| Bracket.TotalMatches | Assets/vrchat-tournament-system.cs:44-47 | all rounds together hold maxPlayers - 1 matches, the length of the result array; the final sits at slot maxPlayers - 2 |
| Bracket.IndexWithinRound | Assets/vrchat-tournament-system.cs:137-145 | the matches of round r occupy exactly the slots from the offset of r up to the offset of r + 1, all inside [0, maxPlayers - 1) |
| Bracket.OffsetMonotone | Assets/vrchat-tournament-system.cs:137-145 | a later round starts at a slot no earlier than an earlier round |
| Bracket.MatchIndexOrdered | Assets/vrchat-tournament-system.cs:137-145 | one match comes before another in play order (round, then match) if and only if its flat index is smaller |
| Bracket.MatchIndexInjective | Assets/vrchat-tournament-system.cs:137-145 | two matches of the bracket with the same flat index are the same match |
| Bracket.MatchAtFromCorrect | Assets/vrchat-tournament-system.cs:137-145 | the round-by-round search for a slot ends at a match of the bracket whose flat index is that slot |
| Bracket.MatchIndexOfMatchAt | Assets/vrchat-tournament-system.cs:137-145 | onto: every slot of [0, maxPlayers - 1) is the flat index of a match of the bracket |
| Bracket.MatchAtOfMatchIndex | Assets/vrchat-tournament-system.cs:137-145 | one-to-one: mapping a match of the bracket to its slot and back returns the same match |
| Bracket.EightPlayerLayout | Assets/vrchat-tournament-system.cs:137-145 | with 8 players the rounds have 4, 2 and 1 matches, and (0,3), (1,1) and (2,0) sit at slots 3, 5 and 6 |
| Bracket.Advance | Assets/vrchat-tournament-system.cs:111-118 | one cursor step either moves to the next match of the same round or to match 0 of the next round, and stays in the round exactly while matches remain in it |
| Bracket.AdvanceIsNextSlot | Assets/vrchat-tournament-system.cs:111-126 | one cursor step moves to the next flat slot; it leaves the bracket, at (totalRounds, 0), exactly after the final |
| Bracket.CursorWalksInOrder | Assets/vrchat-tournament-system.cs:111-126 | after k steps from (0,0) the cursor stands on slot k, on the match stored there while k < maxPlayers - 1, and at (totalRounds, 0) after exactly maxPlayers - 1 steps |
| Bracket.FirstRoundPairs | Assets/vrchat-tournament-system.cs:150-154 | in round 0 the players of match m are roster entries 2m and 2m + 1 |
| Bracket.PlayerIndex | Assets/vrchat-tournament-system.cs:148-171 | a later-round player is one of the recorded results; a round-0 player at position p of match m is the roster entry whose pair is m and whose place in the pair is p |
| Bracket.FeedersPrecede | Assets/vrchat-tournament-system.cs:156-169 | the two matches feeding a later-round match are in the bracket, one round earlier, and come before it in play order |
| Bracket.WinnerPropagates | Assets/vrchat-tournament-system.cs:158-169 | the result stored for match m of round r is the player at position m % 2 of match m / 2 of round r + 1 |
| Tournament.DummyName | Assets/vrchat-tournament-system.cs:86-89 | every generated player name is non-empty, so a started roster has no blank entry |
| Tournament.StartStep | Assets/vrchat-tournament-system.cs:69-89 | after a start the tournament runs exactly when the client is host or it already ran; a start that leaves the running flag as it was changes nothing; the sizes of the roster and the results are kept |
| Tournament.StartIsIdempotent | Assets/vrchat-tournament-system.cs:71 | a second start changes nothing, because the first left the tournament running |
| Tournament.ResetStep | Assets/vrchat-tournament-system.cs:246-256 | after a reset nothing runs exactly when the client is host or nothing ran; a tournament still running was not touched; the roster is kept |
| Tournament.ResetIsIdempotent | Assets/vrchat-tournament-system.cs:246-256 | resetting twice gives the same state as resetting once |
| Tournament.RecordStep | Assets/vrchat-tournament-system.cs:103-134 | recording keeps the state well formed, and keeps every decided result a roster index when the winner is one; it is defined for every winner the source's own name lookups accept |
| Tournament.DeserializedPanel | Assets/vrchat-tournament-system.cs:287-304 | the bracket is shown if and only if a tournament runs; the winner panel if and only if none runs and a winner is set |
| Tournament.Showing | Assets/vrchat-tournament-system.cs:287-304 | exactly the chosen one of the three panels is active |
| Tournament.SlotLabel | Assets/vrchat-tournament-system.cs:195-214 | a bracket slot shows "TBD" if and only if its player index is outside the roster; otherwise it shows that roster name |
| Tournament.WinMark | Assets/vrchat-tournament-system.cs:218-230 | "Win" marks only a decided match, and in round 0 only the slot whose roster index was recorded |
| Tournament.StartBeginsAtFirstMatch | Assets/vrchat-tournament-system.cs:71-89 | a start by the host with nothing running leaves a running tournament at the first match, every result undecided and every name set; any other start changes nothing |
| Tournament.ResetReturnsToNotStarted | Assets/vrchat-tournament-system.cs:246-256 | a reset by the host returns to the not-started state and keeps the roster; any other reset changes nothing |
| Tournament.RecordWritesCursorSlot | Assets/vrchat-tournament-system.cs:105-108 | a record by the host in a running tournament writes only the cursor's slot, which was undecided, and moves the cursor one slot on; otherwise nothing changes |
| Tournament.RecordPropagatesWinner | Assets/vrchat-tournament-system.cs:105-169 | after recording a non-final match, the winner is the matching candidate of the next round's match |
| Tournament.CandidatesAreRoster | Assets/vrchat-tournament-system.cs:148-171 | in a running tournament both candidates of the current match are roster indices, because their feeding matches are already decided |
| Tournament.TbdExactlyWhenUnplayed | Assets/vrchat-tournament-system.cs:204-214 | in a running tournament a later-round slot shows "TBD" exactly when its feeding match is at or after the cursor |
| Tournament.FirstRoundNeverTbd | Assets/vrchat-tournament-system.cs:195-200 | round-0 slots always show the roster names 2m and 2m + 1 |
| Tournament.WinMarkOnRecordedCandidate | Assets/vrchat-tournament-system.cs:218-230 | after one of the two candidates is recorded, "Win" shows on that candidate's slot, and in round 0 not on the other |
| Tournament.PanelTellsStatus | Assets/vrchat-tournament-system.cs:287-304 | the panel derived from a well-formed state shows the status: bracket when running, winner when completed, main menu when not started |
| Tournament.StartPanelsAsWritten | Assets/vrchat-tournament-system.cs:95-96 | the start's panel switch turns the main menu off and the bracket on, and leaves the winner panel as it was |
| Tournament.RestartAfterCompletionAsWritten | Assets/vrchat-tournament-system.cs:94-96 | starting again after completion leaves the winner panel and the bracket active together, unlike the single panel an observer derives |
| Tournament.RecordRun | Assets/vrchat-tournament-system.cs:103-134 | any sequence of records by the host keeps the state well formed |
| Tournament.RecordMovesCursor | Assets/vrchat-tournament-system.cs:105-126 | one record by the host in a running tournament keeps the roster, writes the winner at the cursor's slot, takes one Advance step, and keeps running exactly when the recorded match was not the final |
| Tournament.RecordExtendsWalk | Assets/vrchat-tournament-system.cs:105-126 | from a running state k records along, the next winner leaves the cursor at the (k + 1)-th position, the first k + 1 results equal the winners so far, and the tournament runs exactly while k + 1 < maxPlayers - 1 |
| Tournament.FirstSlotIsOrigin | Assets/vrchat-tournament-system.cs:75-76 | a running tournament whose cursor is at slot 0 stands at match 0 of round 0 |
| Tournament.RecordRunWalks | Assets/vrchat-tournament-system.cs:105-126 | from the first match, after k recorded winners the roster is unchanged, the cursor is the k-th cursor position, the first k results are those winners, and the tournament runs exactly while k < maxPlayers - 1 |
| Tournament.TournamentCompletesAfterAllMatches | Assets/vrchat-tournament-system.cs:111-126 | from a fresh start, after k roster winners the results hold them in order, the cursor is at slot k, the tournament runs while k < maxPlayers - 1, and at k = maxPlayers - 1 it has completed with the final winner's name |
| Tournament.TournamentSystem.constructor | Assets/vrchat-tournament-system.cs:40-57 | the round count is log2 of the player count, the arrays have maxPlayers and maxPlayers - 1 entries, and the main menu is shown |
| Tournament.TournamentSystem.OnPlayerJoined | Assets/vrchat-tournament-system.cs:59-66 | the client is host exactly when it owns the engine |
| Tournament.TournamentSystem.RequestOwnership | Assets/vrchat-tournament-system.cs:271-278 | a client that does not own the engine becomes host; an owner's flag is kept |
| Tournament.TournamentSystem.GetMatchIndex | Assets/vrchat-tournament-system.cs:137-145 | the loop's sum plus m is the flat index MatchIndex |
| Tournament.TournamentSystem.StartTournament | Assets/vrchat-tournament-system.cs:69-100 | the new state is StartStep of the old one, the invariant and the single derived panel are kept, and a snapshot is sent exactly when it acted |
| Tournament.TournamentSystem.RecordMatchResult | Assets/vrchat-tournament-system.cs:103-134 | the new state is RecordStep of the old one, the invariant is kept, the winner panel replaces the bracket after the final, and a snapshot is sent exactly when it acted |
| Tournament.TournamentSystem.ResetTournament | Assets/vrchat-tournament-system.cs:244-268 | the new state is ResetStep of the old one, the main menu is shown, and a snapshot is sent exactly when it acted |
| Tournament.TournamentSystem.ClearResults | Assets/vrchat-tournament-system.cs:253-256 | after the loop every result slot holds -1 (undecided); the start runs the same loop at lines 79-82 |
| Tournament.TournamentSystem.FillDummyNames | Assets/vrchat-tournament-system.cs:86-89 | after the loop name slot i holds the generated name for player i + 1 |
| TournamentUI.TrimStart | Assets/tournament-ui-setup.cs:69 | the result is the suffix left after dropping leading white space |
| TournamentUI.TrimEnd | Assets/tournament-ui-setup.cs:69 | the result is the prefix left after dropping trailing white space |
| TournamentUI.Trim | Assets/tournament-ui-setup.cs:69 | the trimmed name is empty if and only if the input is all white space; otherwise it starts and ends with a non-space |
| TournamentUI.TrimIsMiddleSlice | Assets/tournament-ui-setup.cs:69 | the trimmed name is one contiguous slice of the input, and every character dropped before or after it is white space |
| TournamentUI.Registered | Assets/tournament-ui-setup.cs:67-92 | registration either leaves the list as it was or appends the trimmed name, which is then non-blank and new; it appends only while registration is open and the list is not full |
| TournamentUI.RegisterEnabledIffSomeNameFits | Assets/tournament-ui-setup.cs:117 | the register button is enabled exactly when some typed name would be registered |
| TournamentUI.RegistrationKeepsRosterGood | Assets/tournament-ui-setup.cs:73-92 | registration keeps the list free of duplicates and blank names and within capacity, keeps earlier entries in place, and adds at most one name |
| TournamentUI.RegisterActsIffEnabled | Assets/tournament-ui-setup.cs:67-92 | a fresh non-blank name is appended if and only if registration is open and the list is not full; a blank or duplicate name changes nothing |
| TournamentUI.CurrentCandidate | Assets/tournament-ui-setup.cs:160-166 | a candidate exists exactly while a tournament runs; it is the engine's player index for that position and a roster index |
| TournamentUI.SecondCandidateAfterFinalOutOfRange | Assets/tournament-ui-setup.cs:164-166 | after completion the cursor is (totalRounds, 0), and the second candidate's lookup reads slot maxPlayers - 1, one past the end of the results |
| TournamentUI.DeserializedMode | Assets/tournament-ui-setup.cs:255-270 | the match control panel is shown if and only if registration is closed |
| TournamentUI.TournamentUISetup.constructor | Assets/tournament-ui-setup.cs:34-46 | an empty list with capacity maxPlayers, registration open, the registration panel shown, admin status checked |
| TournamentUI.TournamentUISetup.CheckAdminStatus | Assets/tournament-ui-setup.cs:55-62 | the client is admin exactly when it is the instance master or the owner |
| TournamentUI.TournamentUISetup.RegisterPlayer | Assets/tournament-ui-setup.cs:65-103 | the registered list becomes Registered of the old list and the input, the invariant is kept, and a snapshot is sent exactly when the list grew |
| TournamentUI.TournamentUISetup.StartTournament | Assets/tournament-ui-setup.cs:120-155 | the start button is enabled exactly when a press acts, which is for an admin with two or more players: registration closes, the client takes the engine's authority, and the engine takes StartStep |
| TournamentUI.TournamentUISetup.SubmitWinner | Assets/tournament-ui-setup.cs:179-214 | an admin's click records the candidate at that position as the winner, so the winner is always one of the two candidates; nothing happens otherwise |
| TournamentUI.TournamentUISetup.Player1Win | Assets/tournament-ui-setup.cs:179-195 | an admin's click records the first candidate of the current match via RecordStep |
| TournamentUI.TournamentUISetup.Player2Win | Assets/tournament-ui-setup.cs:198-214 | an admin's click records the second candidate of the current match via RecordStep |
| TournamentUI.TournamentUISetup.ResetUI | Assets/tournament-ui-setup.cs:217-231 | registration reopens with an empty list, and a snapshot is sent |
| TournamentUI.TournamentUISetup.ResetTournament | Assets/tournament-ui-setup.cs:234-252 | only an admin acts: the engine takes ResetStep and registration reopens with an empty list; otherwise nothing changes |
| Navigation.Toggled | Assets/navigation-manager.cs:47 | the new type is 0 or 1, and it is 1 exactly when the old type was 0 |
| Navigation.ToggleTwiceRestores | Assets/navigation-manager.cs:47 | toggling twice restores the type exactly when it was 0 or 1 |
| Navigation.CsRem | Assets/navigation-manager.cs:62-66 | C#'s remainder lies in [0, b) for a non-negative dividend, is the dividend itself below b, and is 0 at b |
| Navigation.NextIndex | Assets/navigation-manager.cs:60-67 | "next" keeps a non-negative index inside the selected array, steps one on, wraps from the last system to 0, and changes nothing when that array is empty |
| Navigation.NextVisitsEverySystem | Assets/navigation-manager.cs:58-72 | from the first system, k presses of "next" select system k for k < n and system 0 at k = n |
| Navigation.RefreshedCount | Assets/navigation-manager.cs:97-118 | after a refresh an array has one display on exactly when its kind is selected and the index names a present container; otherwise none |
| Navigation.AtMostOneDisplayActive | Assets/navigation-manager.cs:97-118 | across both arrays at most one display is on, and one is on exactly when the selected index names a present container of the selected kind |
| Navigation.FrequencyTarget | Assets/navigation-manager.cs:79-86 | the frequency knob acts on the selected system exactly when the selected array is non-empty and the index is below its length |
| Navigation.ObsTarget | Assets/navigation-manager.cs:167-170 | the OBS knob acts only when VOR is selected and the index is inside a non-empty VOR array, and then it acts on the VOR at the selected index |
| Navigation.ObsActsOnlyOnSelectedVor | Assets/navigation-manager.cs:165-171 | whenever the OBS knob acts on a VOR, the frequency knob's target is that same VOR; the OBS knob never acts while ILS is selected |
| Navigation.ActiveDisplayIsTuned | Assets/navigation-manager.cs:79-118 | every display that is on after a refresh is the system the frequency knob acts on |
| Navigation.CaptionFollowsSelection | Assets/navigation-manager.cs:126-129 | after a toggle the type caption names the other kind, and whenever the frequency knob has a target the caption names that target's kind |
| Navigation.NavigationManager.constructor | Assets/navigation-manager.cs:36-40 | the first VOR is selected and both arrays are refreshed for it |
| Navigation.NavigationManager.ToggleNavigationType | Assets/navigation-manager.cs:45-53 | the type flips, the index returns to 0, the displays are refreshed, the invariant is kept, and a snapshot is sent |
| Navigation.NavigationManager.NextNavigationSystem | Assets/navigation-manager.cs:58-72 | the index becomes NextIndex of the old one, the displays are refreshed, the index stays inside a non-empty selected array, and a snapshot is sent |
| Navigation.NavigationManager.UpdateActiveSystem | Assets/navigation-manager.cs:94-119 | each present container of each array is on exactly when its kind and index are the selected ones; missing entries stay missing |

## Left out

- The floating-point navigation geometry is not modelled. This covers the projections, the
  trigonometry, degree wrap-around, the frequency matching and clamping, and the per-frame
  updates in `navigation-base.cs`, `ils-system.cs` and `vor-system.cs`. These files are not
  part of this model.
- Navigation.FrequencyTarget: models only which system `AdjustFrequency` and `AdjustOBS`
  delegate to. The float adjustment and the delegated tuning are left out. A null system
  element would throw in the source; the model does not tell that case apart.
- The identifier and frequency texts of `UpdateUIDisplay` are not modelled. Only the type
  caption is (`TypeLabel`, with `CaptionFollowsSelection`).
- `NavigationManager` has no deserialisation handler. So an observer's display containers
  are not refreshed when the selection arrives. The model covers only the client that
  changes the selection.
- Networking is reduced to booleans. Ownership transfer, snapshot delivery and its order,
  and the later loss of host status are not modelled. `RequestSerialization` is counted in
  the ghost field `serializations`.
- UI widget effects are not modelled: text assignments, `Button.interactable`, and the
  round caption. Only the decisions they show are modelled: `SlotLabel`, `WinMark`,
  `DeserializedPanel`, `DeserializedMode`, and the enable predicates. The player-win
  buttons' enable flag is `isAdmin`.
- `UpdateUI` visits every match in a loop. The model states the label of each slot
  (`SlotLabel`, `WinMark`) and proves the properties of those labels, rather than modelling
  the loop.
- The registered names are never passed to the engine; the source itself says this (line
  141 of `tournament-ui-setup.cs`). The engine fills its roster with the names
  "Player 1" to "Player n", as the source does.
- TournamentUI.Trim: strips the ASCII white-space characters, NEL and no-break space. It is
  not the full Unicode white-space set of .NET's `Trim`.
- Bracket.Shr: models `>>` as repeated floor halving. The 32-bit width and the masking of
  the shift count to five bits are not modelled. They matter only above 2^30 players.
- Tournament.TournamentSystem.constructor: requires a power-of-two player count of at least
  2. The source computes the round count with a float logarithm, and its bracket arithmetic
  only fits power-of-two sizes.
- Tournament.TournamentSystem.RecordMatchResult: requires `WinnerAccepted`: a winner below
  `maxPlayers` for every record that acts, and a roster index for the final. The source
  fails otherwise. It reads `playerNames[winner]` for the final (line 124). For every record it
  runs `UpdateUI` (line 130) before `RequestSerialization` (line 133), and `UpdateUI` reads
  `playerNames[matchResults[prev]]` for every decided feeding match (lines 208-214). A winner
  of `maxPlayers` or more therefore throws after the state has changed and before a snapshot
  is sent; that half-done record is not modelled. A negative non-final winner is shown as
  "TBD" and is accepted, as in the source.
- The source does not build as written, and the model follows its evident reading. In
  `RecordMatchResult(int winnerId)` (line 103 of `vrchat-tournament-system.cs`) the parameter
  hides the synced string field, and line 124 assigns a string to that int parameter. The
  model reads line 124 as `this.winnerId = ...`, so completion sets the synced winner's name.
  Also, `tournament-ui-setup.cs` (lines 37, 83, 109, 117, 161-166, 184-188 and 203-207) reads
  `maxPlayers`, `currentRound`, `currentMatch` and `GetPlayerIndex`, which the engine
  declares private (lines 24, 30, 31 and 148). The model treats them as accessible. The
  winner's name in `TournamentCompletesAfterAllMatches` and `RecordMatchResult`, and the
  first finding below, hold only under this reading.
- A C# `null` string is modelled as `""` and a null systems array as an empty array. Every
  guard in the source treats the two alike.

## Findings

| source | as written | input that shows it | evidently intended | confidence | as-written member | corrected member |
|---|---|---|---|---|---|---|
| Assets/tournament-ui-setup.cs:164-166 | after the final is recorded, the match control refresh still looks up both candidates at the cursor (totalRounds, 0); the second lookup reads result slot maxPlayers - 1, one past the end of the array | 2 players: an admin clicks Player1Win once; the final is recorded, the cursor becomes (1, 0), and the lookup of GetPlayerIndex(1, 0, 1) reads matchResults[1] of a 1-entry array, which stops the behaviour (reading the engine members as accessible, as the source evidently intends) | look up and submit candidates only while a tournament runs | not executed | TournamentUI.SecondCandidateAfterFinalOutOfRange | TournamentUI.CurrentCandidate |
| Assets/vrchat-tournament-system.cs:95-96 | starting turns the main menu off and the bracket on, but leaves the winner panel as it was | a 2-player tournament completes on the host, which then shows the winner panel; the host starts again without a reset, and the winner panel and the bracket are both active | show exactly the bracket, as the deserialisation handler does for every other client | not executed | Tournament.RestartAfterCompletionAsWritten | Tournament.TournamentSystem.StartTournament |
