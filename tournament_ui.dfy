/**
  The tournament's control panel (TournamentUISetup): player registration into a bounded,
  duplicate-free list, the admin-only start and reset, the two "player wins" buttons that
  submit one of the current match's candidates to the engine, and the enable decisions of
  the buttons.
*/
module TournamentUI {
  import opened Wrappers
  import opened Bracket
  import opened Tournament

  // ---------------------------------------------------------------------------
  // Names typed into the registration field

  /** The white-space characters stripped by Trim (ASCII white space, NEL and no-break space). */
  predicate IsWhiteSpace(c: char)
  {
    c == ' ' || c == '\t' || c == '\n' || c == '\r' || c == '\U{000B}' || c == '\U{000C}' || c == '\U{0085}' || c == '\U{00A0}'
  }

  /** Drops leading white space: what is left is a suffix whose first character is not white space. */
  function TrimStart(s: string): (t: string)
    ensures |t| <= |s| && t == s[|s| - |t|..]
    ensures t == "" || !IsWhiteSpace(t[0])
    ensures forall i | 0 <= i < |s| - |t| :: IsWhiteSpace(s[i])
  {
    if |s| > 0 && IsWhiteSpace(s[0]) then TrimStart(s[1..]) else s
  }

  /** Drops trailing white space: what is left is a prefix whose last character is not white space. */
  function TrimEnd(s: string): (t: string)
    ensures |t| <= |s| && t == s[..|t|]
    ensures t == "" || !IsWhiteSpace(t[|t| - 1])
    ensures forall i | |t| <= i < |s| :: IsWhiteSpace(s[i])
  {
    if |s| > 0 && IsWhiteSpace(s[|s| - 1]) then TrimEnd(s[..|s| - 1]) else s
  }

  /** String.Trim: drops white space at both ends. */
  function Trim(s: string): (t: string)
    ensures t == "" <==> forall i | 0 <= i < |s| :: IsWhiteSpace(s[i])
    ensures t != "" ==> !IsWhiteSpace(t[0]) && !IsWhiteSpace(t[|t| - 1])
  {
    var u := TrimStart(s);
    var t := TrimEnd(u);
    t
  }

  /** Trim keeps a contiguous slice of its input, starting at offset `a`, and everything it
      drops, before and after that slice, is white space. */
  lemma TrimIsMiddleSlice(s: string) returns (a: nat)
    ensures a + |Trim(s)| <= |s| && Trim(s) == s[a..a + |Trim(s)|]
    ensures forall i | 0 <= i < a :: IsWhiteSpace(s[i])
    ensures forall i | a + |Trim(s)| <= i < |s| :: IsWhiteSpace(s[i])
  {
    var u := TrimStart(s);
    var t := TrimEnd(u);
    a := |s| - |u|;
    assert Trim(s) == t;
    assert t == s[a..a + |t|] by {
      assert u == s[a..] && t == u[..|t|];
    }
    forall i | a + |t| <= i < |s|
      ensures IsWhiteSpace(s[i])
    {
      assert IsWhiteSpace(u[i - a]);
    }
  }

  predicate NoDuplicates(names: seq<string>)
  {
    forall i, j | 0 <= i < j < |names| :: names[i] != names[j]
  }

  /** A registered list: no name twice, no blank name, at most `capacity` names. */
  predicate GoodRoster(names: seq<string>, capacity: int)
  {
    NoDuplicates(names) && (forall i | 0 <= i < |names| :: names[i] != "") && |names| <= capacity
  }

  // ---------------------------------------------------------------------------
  // Registration, on values

  /** RegisterPlayer's effect on the registered list: the trimmed name is appended unless
      registration is closed, the name is blank, it is already registered, or the list is full. */
  function Registered(roster: seq<string>, registrationOpen: bool, capacity: int, input: string): (after: seq<string>)
    ensures after == roster || (after == roster + [Trim(input)] && Trim(input) != "" && Trim(input) !in roster)
    ensures after != roster ==> registrationOpen && |roster| < capacity
  {
    var name := Trim(input);
    if !registrationOpen || name == "" || name in roster || |roster| >= capacity then roster
    else roster + [name]
  }

  /** The register button is enabled while registration is open and the list is not full. */
  predicate RegisterEnabled(registrationOpen: bool, count: int, capacity: int)
  {
    registrationOpen && count < capacity
  }

  /** The start button is enabled for an admin once two players are registered. */
  predicate StartEnabled(isAdmin: bool, count: int)
  {
    isAdmin && count >= 2
  }

  /** Appending a new, non-blank name to a good list with room left keeps it good. */
  lemma AppendFreshKeepsGood(roster: seq<string>, capacity: int, name: string)
    requires GoodRoster(roster, capacity) && name != "" && name !in roster && |roster| < capacity
    ensures GoodRoster(roster + [name], capacity)
  {
    var after := roster + [name];
    forall i, j | 0 <= i < j < |after| ensures after[i] != after[j] {
      if j == |roster| {
        assert after[i] == roster[i] && after[j] == name;
      }
    }
  }

  /** Registration keeps the list good, keeps every earlier entry in place, and adds at most one. */
  lemma RegistrationKeepsRosterGood(roster: seq<string>, registrationOpen: bool, capacity: int, input: string)
    requires GoodRoster(roster, capacity)
    ensures var after := Registered(roster, registrationOpen, capacity, input);
      && GoodRoster(after, capacity)
      && after[..|roster|] == roster
      && |roster| <= |after| <= |roster| + 1
  {
    var name := Trim(input);
    if registrationOpen && name != "" && name !in roster && |roster| < capacity {
      assert (roster + [name])[..|roster|] == roster;
      AppendFreshKeepsGood(roster, capacity, name);
    }
  }

  /** The length of the longest name in the list. */
  function LongestName(names: seq<string>): (n: nat)
    ensures forall i | 0 <= i < |names| :: |names[i]| <= n
  {
    if names == [] then 0
    else
      var k := LongestName(names[..|names| - 1]);
      var last := |names[|names| - 1]|;
      if last > k then last else k
  }

  /** The register button is enabled exactly when some typed name would be registered. */
  lemma RegisterEnabledIffSomeNameFits(roster: seq<string>, registrationOpen: bool, capacity: int)
    ensures RegisterEnabled(registrationOpen, |roster|, capacity) <==>
      exists input :: Registered(roster, registrationOpen, capacity, input) != roster
  {
    if RegisterEnabled(registrationOpen, |roster|, capacity) {
      var name := seq(LongestName(roster) + 1, _ => 'x');
      assert name !in roster;
      assert Trim(name) == name;
      assert Registered(roster, registrationOpen, capacity, name) != roster;
    }
  }

  /** A fresh, non-blank name is registered exactly when the register button is enabled;
      a name made only of white space, or one already registered, never is. */
  lemma RegisterActsIffEnabled(roster: seq<string>, registrationOpen: bool, capacity: int, input: string)
    ensures Trim(input) != "" && Trim(input) !in roster ==>
      ((Registered(roster, registrationOpen, capacity, input) == roster + [Trim(input)])
       <==> RegisterEnabled(registrationOpen, |roster|, capacity))
    ensures (forall i | 0 <= i < |input| :: IsWhiteSpace(input[i])) || Trim(input) in roster ==>
      Registered(roster, registrationOpen, capacity, input) == roster
  {
    if Trim(input) != "" && Trim(input) !in roster && !RegisterEnabled(registrationOpen, |roster|, capacity) {
      assert |Registered(roster, registrationOpen, capacity, input)| == |roster|;
    }
  }

  // ---------------------------------------------------------------------------
  // The current match's candidates

  /** The player index submitted for `position` of the current match, as Player1Win and
      Player2Win look it up; present only while a tournament runs. */
  function CurrentCandidate(maxPlayers: int, totalRounds: nat, s: Snapshot, position: int): (c: Option<int>)
    requires WellFormed(maxPlayers, totalRounds, s) && (position == 0 || position == 1)
    ensures c.Some? <==> s.inProgress
    ensures c.Some? ==>
      && (s.currentRound > 0 ==>
            0 <= MatchIndex(maxPlayers, s.currentRound - 1, FeederMatch(s.currentMatch, position)) < |s.matchResults|)
      && c.value == PlayerIndex(maxPlayers, s.matchResults, s.currentRound, s.currentMatch, position)
    ensures c.Some? && RecordedAreRoster(maxPlayers, s) ==> 0 <= c.value < maxPlayers
  {
    if !s.inProgress then None
    else
      IndexWithinRound(maxPlayers, totalRounds, s.currentRound, s.currentMatch);
      if s.currentRound > 0 then
        FeedersPrecede(maxPlayers, totalRounds, s.currentRound, s.currentMatch, position);
        Some(PlayerIndex(maxPlayers, s.matchResults, s.currentRound, s.currentMatch, position))
      else
        FirstRoundPairs(maxPlayers, totalRounds, s.matchResults, s.currentMatch, position);
        Some(PlayerIndex(maxPlayers, s.matchResults, s.currentRound, s.currentMatch, position))
  }

  /** Once a tournament has completed, the cursor is (totalRounds, 0) and the lookup of the
      second candidate of that cursor reads the result slot maxPlayers - 1, one past the end
      of the result array: PlayerIndex's precondition fails there. */
  lemma SecondCandidateAfterFinalOutOfRange(maxPlayers: int, totalRounds: nat, s: Snapshot)
    requires WellFormed(maxPlayers, totalRounds, s) && StatusOf(totalRounds, s) == Completed
    ensures s.currentRound == totalRounds && s.currentMatch == 0
    ensures MatchIndex(maxPlayers, s.currentRound - 1, FeederMatch(s.currentMatch, 1)) == |s.matchResults|
  {
    TotalMatches(maxPlayers, totalRounds);
  }

  // ---------------------------------------------------------------------------
  // The control panel object

  /** Which of the registration panel and the match control panel is shown. */
  datatype Mode = Registration | MatchControl

  /** OnDeserialization: the match control panel once registration is closed. */
  function DeserializedMode(registrationOpen: bool): (mode: Mode)
    ensures mode == MatchControl <==> !registrationOpen
  {
    if !registrationOpen then MatchControl else Registration
  }

  class TournamentUISetup {
    const tournamentSystem: TournamentSystem
    const registeredPlayers: array<string>
    var registeredPlayerCount: nat
    var registrationOpen: bool
    var isAdmin: bool
    /** Activity of the registration panel and of the match control panel on this client. */
    var registrationPanelActive: bool
    var matchControlPanelActive: bool
    /** How many snapshots this client has sent out (RequestSerialization calls). */
    ghost var serializations: nat

    /** The registered names: the first registeredPlayerCount entries of the array. */
    function Roster(): seq<string>
      reads this, registeredPlayers
      requires registeredPlayerCount <= registeredPlayers.Length
    {
      registeredPlayers[..registeredPlayerCount]
    }

    function Snapshot(): Snapshot
      reads tournamentSystem, tournamentSystem.playerNames, tournamentSystem.matchResults
    {
      tournamentSystem.CurrentSnapshot()
    }

    ghost predicate Valid()
      reads this, registeredPlayers, tournamentSystem, tournamentSystem.playerNames, tournamentSystem.matchResults
    {
      && tournamentSystem.Valid()
      && RecordedAreRoster(tournamentSystem.maxPlayers, Snapshot())
      && registeredPlayers != tournamentSystem.playerNames
      && registeredPlayers.Length == tournamentSystem.maxPlayers
      && registeredPlayerCount <= registeredPlayers.Length
      && GoodRoster(Roster(), registeredPlayers.Length)
      && registrationPanelActive == (DeserializedMode(registrationOpen) == Registration)
      && matchControlPanelActive == (DeserializedMode(registrationOpen) == MatchControl)
    }

    /** Start(): an empty list of capacity maxPlayers, registration open, admin status checked. */
    constructor (system: TournamentSystem, isMaster: bool, isOwner: bool)
      requires system.Valid() && RecordedAreRoster(system.maxPlayers, system.CurrentSnapshot())
      ensures Valid() && fresh(registeredPlayers)
      ensures tournamentSystem == system && Roster() == [] && registrationOpen
      ensures isAdmin == (isMaster || isOwner) && serializations == 0
    {
      tournamentSystem := system;
      registeredPlayers := new string[system.maxPlayers](_ => "");
      registeredPlayerCount := 0;
      registrationOpen := true;
      isAdmin := isMaster || isOwner;
      registrationPanelActive := true;
      matchControlPanelActive := false;
      serializations := 0;
    }

    /** CheckAdminStatus: the instance master or the owner of this object is admin. */
    method CheckAdminStatus(isMaster: bool, isOwner: bool)
      modifies this`isAdmin
      ensures isAdmin == (isMaster || isOwner)
    {
      isAdmin := isMaster || isOwner;
    }

    predicate RegisterButtonEnabled()
      reads this
    {
      RegisterEnabled(registrationOpen, registeredPlayerCount, tournamentSystem.maxPlayers)
    }

    predicate StartButtonEnabled()
      reads this
    {
      StartEnabled(isAdmin, registeredPlayerCount)
    }

    method RegisterPlayer(input: string)
      requires Valid()
      modifies this, registeredPlayers
      ensures Valid()
      ensures Roster() == Registered(old(Roster()), old(registrationOpen), registeredPlayers.Length, input)
      ensures registrationOpen == old(registrationOpen) && isAdmin == old(isAdmin)
      ensures registrationPanelActive == old(registrationPanelActive) && matchControlPanelActive == old(matchControlPanelActive)
      ensures serializations == old(serializations) + (if Roster() == old(Roster()) then 0 else 1)
    {
      if !registrationOpen {
        return;
      }
      var playerName := Trim(input);
      if playerName == "" {
        return;
      }
      for i := 0 to registeredPlayerCount
        invariant playerName !in registeredPlayers[..i]
      {
        if registeredPlayers[i] == playerName {
          assert playerName in Roster();
          return;
        }
      }
      assert registeredPlayers[..registeredPlayerCount] == Roster();
      if registeredPlayerCount < tournamentSystem.maxPlayers {
        ghost var before := Roster();
        AppendFreshKeepsGood(before, registeredPlayers.Length, playerName);
        registeredPlayers[registeredPlayerCount] := playerName;
        registeredPlayerCount := registeredPlayerCount + 1;
        assert Roster() == before + [playerName];
        serializations := serializations + 1;
      }
    }

    /** StartTournament: an admin with at least two registered players closes registration,
        takes the engine's authority and starts the engine. */
    method StartTournament(engineOwnedLocally: bool)
      requires Valid()
      modifies this, tournamentSystem, tournamentSystem.playerNames, tournamentSystem.matchResults
      ensures Valid()
      ensures var acted := old(StartButtonEnabled());
        && registrationOpen == (old(registrationOpen) && !acted)
        && tournamentSystem.isHost == (old(tournamentSystem.isHost) || (acted && !engineOwnedLocally))
        && Snapshot() == StartStep(acted && tournamentSystem.isHost, old(Snapshot()))
        && serializations == old(serializations) + (if acted then 1 else 0)
      ensures Roster() == old(Roster()) && isAdmin == old(isAdmin)
    {
      if !isAdmin || registeredPlayerCount < 2 {
        return;
      }
      ghost var before := Snapshot();
      registrationOpen := false;
      tournamentSystem.RequestOwnership(engineOwnedLocally);
      tournamentSystem.StartTournament();
      StartBeginsAtFirstMatch(tournamentSystem.maxPlayers, tournamentSystem.totalRounds, tournamentSystem.isHost, before);
      registrationPanelActive := false;
      matchControlPanelActive := true;
      serializations := serializations + 1;
    }

    /** Player1Win / Player2Win: an admin submits the current match's candidate at `position`
        (0 or 1) as its winner. */
    method SubmitWinner(position: int)
      requires Valid() && (position == 0 || position == 1)
      modifies tournamentSystem, tournamentSystem.matchResults
      ensures Valid()
      ensures var s := old(Snapshot());
        var ts := tournamentSystem;
        match CurrentCandidate(ts.maxPlayers, ts.totalRounds, s, position)
        case Some(w) =>
          Snapshot() == (if old(isAdmin) then RecordStep(ts.maxPlayers, ts.totalRounds, ts.isHost, s, w) else s)
        case None => Snapshot() == s
      ensures tournamentSystem.isHost == old(tournamentSystem.isHost)
    {
      if !isAdmin {
        return;
      }
      var candidate := CurrentCandidate(tournamentSystem.maxPlayers, tournamentSystem.totalRounds, Snapshot(), position);
      if candidate.Some? {
        tournamentSystem.RecordMatchResult(candidate.value);
      }
    }

    method Player1Win()
      requires Valid()
      modifies tournamentSystem, tournamentSystem.matchResults
      ensures Valid()
      ensures var s := old(Snapshot());
        var ts := tournamentSystem;
        match CurrentCandidate(ts.maxPlayers, ts.totalRounds, s, 0)
        case Some(w) =>
          Snapshot() == (if old(isAdmin) then RecordStep(ts.maxPlayers, ts.totalRounds, ts.isHost, s, w) else s)
        case None => Snapshot() == s
    {
      SubmitWinner(0);
    }

    method Player2Win()
      requires Valid()
      modifies tournamentSystem, tournamentSystem.matchResults
      ensures Valid()
      ensures var s := old(Snapshot());
        var ts := tournamentSystem;
        match CurrentCandidate(ts.maxPlayers, ts.totalRounds, s, 1)
        case Some(w) =>
          Snapshot() == (if old(isAdmin) then RecordStep(ts.maxPlayers, ts.totalRounds, ts.isHost, s, w) else s)
        case None => Snapshot() == s
    {
      SubmitWinner(1);
    }

    /** ResetUI: back to an open, empty registration (the array's old entries stay but are
        no longer counted). No admin check. */
    method ResetUI()
      requires Valid()
      modifies this
      ensures Valid()
      ensures registrationOpen && Roster() == [] && isAdmin == old(isAdmin)
      ensures serializations == old(serializations) + 1
    {
      registrationPanelActive := true;
      matchControlPanelActive := false;
      registrationOpen := true;
      registeredPlayerCount := 0;
      serializations := serializations + 1;
    }

    /** ResetTournament: an admin takes the engine's authority, resets the engine, then the panel. */
    method ResetTournament(engineOwnedLocally: bool)
      requires Valid()
      modifies this, tournamentSystem, tournamentSystem.matchResults
      ensures Valid()
      ensures old(isAdmin) ==>
        && tournamentSystem.isHost == (old(tournamentSystem.isHost) || !engineOwnedLocally)
        && Snapshot() == ResetStep(tournamentSystem.isHost, old(Snapshot()))
        && registrationOpen && Roster() == []
      ensures !old(isAdmin) ==>
        && Snapshot() == old(Snapshot()) && Roster() == old(Roster())
        && registrationOpen == old(registrationOpen) && tournamentSystem.isHost == old(tournamentSystem.isHost)
    {
      if !isAdmin {
        return;
      }
      tournamentSystem.RequestOwnership(engineOwnedLocally);
      tournamentSystem.ResetTournament();
      ghost var s := old(Snapshot());
      ResetReturnsToNotStarted(tournamentSystem.maxPlayers, tournamentSystem.totalRounds, tournamentSystem.isHost, s);
      ResetUI();
    }
  }
}
