/**
 * The role generator screen of the offline game: setup with its role
 * counters, the names screen, role distribution, and the pass-the-phone
 * vote that ends with the win check.
 */
module Generator {
  import opened Options
  import opened Strings
  import opened RoleCatalog
  import opened VoteTally

  /** The screens of the generator. */
  datatype Phase = Setup | Names | Distribution | Timer | GameOver

  /** What the countdown is for. */
  datatype TimerMode = Discussion | VotingTime

  // ---------------------------------------------------------------------
  // Setup
  // ---------------------------------------------------------------------

  /** What "Continue to Names" does with the parsed count and the counters. */
  datatype NamesStep =
    | TooFewPlayers
    | TooManyRoles(players: int, total: int)
    | CountRangeError
    | OpenNames(count: nat)

  /** The two checks of `proceedToNames`: a number of at least 3 players,
      then no more special roles than players. A count that passes both but
      is 2^32 or more makes `Array(count)` throw. */
  function NamesGuard(count: Option<int>, c: RoleConfig): (r: NamesStep)
    ensures r == TooFewPlayers <==> !PlayerCountOk(count)
    ensures r.TooManyRoles? <==> PlayerCountOk(count) && TotalSpecial(c) > count.value
    ensures r.TooManyRoles? ==> r.players == count.value && r.total == TotalSpecial(c)
    ensures r == CountRangeError <==>
              PlayerCountOk(count) && TotalSpecial(c) <= count.value && count.value >= ArrayLengthLimit
    ensures r.OpenNames? <==> PlayerCountOk(count) && TotalSpecial(c) <= count.value < ArrayLengthLimit
    ensures r.OpenNames? ==> count == Some(r.count)
  {
    if !PlayerCountOk(count) then TooFewPlayers
    else if TotalSpecial(c) > count.value then TooManyRoles(count.value, TotalSpecial(c))
    else if count.value >= ArrayLengthLimit then CountRangeError
    else OpenNames(count.value)
  }

  /** A setup the guard lets through always yields a role list with one
      role per player, holding exactly the configured special roles. */
  lemma AcceptedSetupFits(count: Option<int>, c: RoleConfig)
    requires ConfigInvariant(c) && NamesGuard(count, c).OpenNames?
    ensures |RoleList(c, count.value)| == count.value
    ensures multiset(RoleList(c, count.value))[Mafia] == c.mafia
    ensures multiset(RoleList(c, count.value))[Detective] == c.detective
    ensures multiset(RoleList(c, count.value))[Doctor] == c.doctor
    ensures multiset(RoleList(c, count.value))[Villager] == count.value - TotalSpecial(c)
  {
    RoleListCounts(c, count.value);
  }

  // ---------------------------------------------------------------------
  // The win check
  // ---------------------------------------------------------------------

  /** Living players on a team. */
  function AliveOn(ps: seq<Player>, t: Team): nat {
    |OnTeam(Alive(ps), t)|
  }

  /**
   * `checkWinCondition`'s verdict: the town wins when no mafia is alive;
   * otherwise the mafia wins when its living members are at least as many
   * as the living town; otherwise the game goes on. The source counts the
   * town as the living players who are not mafia.
   */
  function Winner(ps: seq<Player>): (w: Option<Team>)
    ensures w == Some(TownTeam) <==> AliveOn(ps, MafiaTeam) == 0
    ensures w == Some(MafiaTeam) <==> AliveOn(ps, MafiaTeam) > 0 && AliveOn(ps, MafiaTeam) >= AliveOn(ps, TownTeam)
    ensures w.None? <==> 0 < AliveOn(ps, MafiaTeam) < AliveOn(ps, TownTeam)
  {
    var alive := Alive(ps);
    var mCount := |OnTeam(alive, MafiaTeam)|;
    var tCount := |alive| - mCount;
    TeamsPartition(alive);
    if mCount == 0 then Some(TownTeam)
    else if mCount >= tCount then Some(MafiaTeam)
    else None
  }

  /** The mafia players of a roster are the mafia entries of its roles. */
  lemma {:induction false} MafiaCountIsRoleCount(ps: seq<Player>)
    ensures |OnTeam(ps, MafiaTeam)| == multiset(RolesOf(ps))[Mafia]
  {
    if ps != [] {
      assert RolesOf(ps) == [ps[0].role] + RolesOf(ps[1..]);
      MafiaCountIsRoleCount(ps[1..]);
    }
  }

  /** A freshly generated roster is already decided exactly when the mafia
      makes up at least half of the players, and then for the mafia. */
  lemma FreshGameVerdict(c: RoleConfig, roles: seq<Role>, names: seq<string>)
    requires ConfigInvariant(c) && TotalSpecial(c) <= |names|
    requires |roles| == |names| && multiset(roles) == multiset(RoleList(c, |names|))
    ensures Winner(MakePlayers(roles, names)) == if 2 * c.mafia >= |names| then Some(MafiaTeam) else None
  {
    var ps := MakePlayers(roles, names);
    AllAlive(ps);
    MafiaCountIsRoleCount(ps);
    RoleListCounts(c, |names|);
    TeamsPartition(ps);
  }

  /** Every living mafia member voted out in turn ends the game for the
      town, whatever the town has lost meanwhile. */
  lemma TownWinsOnceMafiaGone(ps: seq<Player>, k: int)
    requires 0 <= k < |ps| && ps[k].alive && ps[k].role == Mafia && AliveOn(ps, MafiaTeam) == 1
    ensures Winner(ps[k := ps[k].(alive := false)]) == Some(TownTeam)
  {
    TeamAliveAfterKill(ps, k, MafiaTeam);
  }

  // ---------------------------------------------------------------------
  // The vote
  // ---------------------------------------------------------------------

  /** Every ballot names a player, so every counted target, and so the
      player a count eliminates, is a player. */
  lemma TalliedTargetsArePlayers(ballots: map<int, int>, n: int)
    requires forall v :: v in ballots ==> 1 <= ballots[v] <= n
    ensures forall t :: t in CountsOf(ballots) ==> 1 <= t <= n
    ensures Resolve(CountsOf(ballots)).Eliminated? ==> 1 <= Resolve(CountsOf(ballots)).id <= n
  {
    forall t | t in CountsOf(ballots) ensures 1 <= t <= n {
      ValueHasKey(ballots, t);
    }
  }

  /** The generator screen's state and its handlers. */
  class GeneratorGame {
    var phase: Phase
    var playerCount: string
    var playerNames: seq<string>
    var enableTimer: bool
    /** The discussion-minutes field, read by `startTimer`. */
    var timeLimit: string
    var players: seq<Player>
    var currentPlayerIndex: int
    var showRole: bool
    /** Seconds left on the countdown; `None` stands for NaN. */
    var timeRemaining: Option<int>
    var timerActive: bool
    var timerMode: TimerMode
    var gameResult: Option<Team>
    var roleConfig: RoleConfig
    var showVotingModal: bool
    /** Voter id to target id: one ballot per voter. */
    var votes: map<int, int>
    var currentVoterIndex: int
    var votingComplete: bool

    /** What the handlers keep: players numbered 1..n, the counters at or
        above their floors, a names screen that matches the parsed count and
        fits the counters, ballots cast by and for players, and a voter
        index that points into the roster. */
    predicate Valid()
      reads this`players, this`roleConfig, this`phase, this`playerNames, this`votes, this`currentVoterIndex
    {
      IdsAreIndices(players) &&
      ConfigInvariant(roleConfig) &&
      (phase == Names ==> |playerNames| >= 3 && TotalSpecial(roleConfig) <= |playerNames|) &&
      ((phase == Setup || phase == Names) ==> votes == map[] && currentVoterIndex == 0) &&
      (forall v :: v in votes ==> 1 <= v <= |players| && 1 <= votes[v] <= |players|) &&
      0 <= currentVoterIndex && (currentVoterIndex == 0 || currentVoterIndex < |players|)
    }

    constructor ()
      ensures Valid()
      ensures phase == Setup && playerCount == "5" && playerNames == [] && !enableTimer && timeLimit == "5"
      ensures players == [] && currentPlayerIndex == 0 && !showRole && timeRemaining == Some(0) && !timerActive
      ensures timerMode == Discussion
      ensures gameResult == None && roleConfig == DefaultConfig && !showVotingModal && votes == map[]
      ensures currentVoterIndex == 0 && !votingComplete
    {
      phase := Setup;
      playerCount := "5";
      playerNames := [];
      enableTimer := false;
      timeLimit := "5";
      players := [];
      currentPlayerIndex := 0;
      showRole := false;
      timeRemaining := Some(0);
      timerActive := false;
      timerMode := Discussion;
      gameResult := None;
      roleConfig := DefaultConfig;
      showVotingModal := false;
      votes := map[];
      currentVoterIndex := 0;
      votingComplete := false;
    }

    /** `resetGame`: back to the setup screen with no players, names or
        ballots, the indices and the clock at zero and no result. The role
        counters, the count field and the timer settings are kept. */
    method ResetGame()
      requires Valid()
      modifies this`phase, this`players, this`playerNames, this`votes, this`currentVoterIndex
      modifies this`currentPlayerIndex, this`showRole, this`votingComplete, this`timerActive
      modifies this`timeRemaining, this`gameResult
      ensures Valid()
      ensures phase == Setup && players == [] && playerNames == [] && votes == map[]
      ensures currentVoterIndex == 0 && currentPlayerIndex == 0 && !showRole && !votingComplete
      ensures !timerActive && timeRemaining == Some(0) && gameResult == None
    {
      phase := Setup;
      players := [];
      playerNames := [];
      votes := map[];
      currentVoterIndex := 0;
      currentPlayerIndex := 0;
      showRole := false;
      votingComplete := false;
      timerActive := false;
      timeRemaining := Some(0);
      gameResult := None;
    }

    /** The player-count field of the setup screen. */
    method SetPlayerCount(s: string)
      requires Valid() && phase == Setup
      modifies this`playerCount
      ensures Valid() && playerCount == s
    {
      playerCount := s;
    }

    /** The timer switch of the setup screen. */
    method SetEnableTimer(on: bool)
      requires Valid()
      modifies this`enableTimer
      ensures Valid() && enableTimer == on
    {
      enableTimer := on;
    }

    /** The discussion-time field of the setup screen. */
    method SetTimeLimit(s: string)
      requires Valid()
      modifies this`timeLimit
      ensures Valid() && timeLimit == s
    {
      timeLimit := s;
    }

    /** The "+" (`up`) or "−" button of a special role's counter: "−" never
        takes the mafia below 1 or the others below 0. */
    method StepRole(r: Role, up: bool)
      requires Valid() && phase == Setup && IsSpecial(r)
      modifies this`roleConfig
      ensures Valid()
      ensures roleConfig == if up then Increment(old(roleConfig), r) else Decrement(old(roleConfig), r)
    {
      SteppersKeepInvariant(roleConfig, r, up);
      roleConfig := if up then Increment(roleConfig, r) else Decrement(roleConfig, r);
    }

    /** `proceedToNames`: refused, with nothing changed, for a count that is
        not a number or below 3 and for more special roles than players; a
        count too large for `Array` throws, also changing nothing; otherwise
        the names screen opens with `count` empty names. */
    method ProceedToNames() returns (step: NamesStep)
      requires Valid() && phase == Setup
      modifies this`playerNames, this`phase
      ensures Valid()
      ensures step == NamesGuard(ParseInt(playerCount), roleConfig)
      ensures step.OpenNames? ==>
                phase == Names && playerNames == seq(step.count, _ => "") && ParseInt(playerCount) == Some(|playerNames|)
      ensures !step.OpenNames? ==> phase == old(phase) && playerNames == old(playerNames)
    {
      step := NamesGuard(ParseInt(playerCount), roleConfig);
      if step.OpenNames? {
        playerNames := seq(step.count, _ => "");
        phase := Names;
      }
    }

    /** The back button of the names screen. */
    method BackToSetup()
      requires Valid() && phase == Names
      modifies this`phase
      ensures Valid() && phase == Setup
    {
      phase := Setup;
    }

    /** `updatePlayerName`: the name at `index` is replaced. */
    method UpdatePlayerName(index: int, name: string)
      requires Valid() && 0 <= index < |playerNames|
      modifies this`playerNames
      ensures Valid() && playerNames == old(playerNames)[index := name]
    {
      playerNames := playerNames[index := name];
    }

    /**
     * `generateRoles`: refused, with nothing changed, while a name is blank.
     * Otherwise the configured roles and the villagers are put in some order
     * (the source shuffles at random) and player i gets id i + 1, the i-th
     * name trimmed and the i-th role, alive.
     */
    method GenerateRoles() returns (ok: bool)
      requires Valid() && phase == Names && ParseInt(playerCount) == Some(|playerNames|)
      modifies this`players, this`phase
      ensures Valid()
      ensures ok <==> AllNamed(playerNames)
      ensures !ok ==> phase == old(phase) && players == old(players)
      ensures ok ==>
                phase == Distribution && |players| == |playerNames| &&
                multiset(RolesOf(players)) == multiset(RoleList(roleConfig, |playerNames|)) &&
                players == MakePlayers(RolesOf(players), playerNames)
    {
      var emptyNames := EmptyNames(playerNames);
      if |emptyNames| > 0 {
        return false;
      }
      var count := ParseInt(playerCount).value;
      var roles := BuildRoles(roleConfig, count);
      RoleListLength(roleConfig, count);
      var shuffled := Shuffle(roles);
      players := MakePlayers(shuffled, playerNames);
      phase := Distribution;
      return true;
    }

    /** `showNextRole`: the next player sees their role; after the last one
        the timer screen opens when the timer is enabled, and otherwise the
        screen is left (`leave`) with the state as it was. */
    method ShowNextRole() returns (leave: bool)
      requires Valid()
      modifies this`currentPlayerIndex, this`showRole, this`phase
      ensures Valid()
      ensures old(currentPlayerIndex) < |players| - 1 ==>
                !leave && currentPlayerIndex == old(currentPlayerIndex) + 1 && !showRole && phase == old(phase)
      ensures old(currentPlayerIndex) >= |players| - 1 ==>
                leave == !enableTimer && currentPlayerIndex == old(currentPlayerIndex) &&
                showRole == old(showRole) && phase == (if enableTimer then Timer else old(phase))
    {
      leave := false;
      if currentPlayerIndex < |players| - 1 {
        currentPlayerIndex := currentPlayerIndex + 1;
        showRole := false;
      } else if enableTimer {
        phase := Timer;
      } else {
        leave := true;
      }
    }

    /** `startTimer(mode)`: the countdown is set to the parsed minutes times
        60, which is NaN when the field is not a number, and started. */
    method StartTimer(mode: TimerMode)
      requires Valid()
      modifies this`timerMode, this`timeRemaining, this`timerActive
      ensures Valid() && timerMode == mode && timerActive
      ensures timeRemaining.Some? <==> ParseInt(timeLimit).Some?
      ensures timeRemaining.Some? ==> timeRemaining.value == ParseInt(timeLimit).value * 60
    {
      timerMode := mode;
      var minutes := ParseInt(timeLimit);
      timeRemaining := if minutes.Some? then Some(minutes.value * 60) else None;
      timerActive := true;
    }

    /** `startVoting`: no ballots, the first player votes first, and the
        voting sheet opens. */
    method StartVoting()
      requires Valid()
      modifies this`votes, this`currentVoterIndex, this`votingComplete, this`showVotingModal
      ensures Valid()
      ensures votes == map[] && currentVoterIndex == 0 && !votingComplete && showVotingModal
    {
      votes := map[];
      currentVoterIndex := 0;
      votingComplete := false;
      showVotingModal := true;
    }

    /**
     * `castVote`: the current voter's ballot is set to `targetId`, replacing
     * an earlier ballot of the same voter; then the next player votes, or,
     * after the last player, voting is complete.
     */
    method CastVote(targetId: int)
      requires Valid() && phase == Timer && players != [] && 1 <= targetId <= |players|
      modifies this`votes, this`currentVoterIndex, this`votingComplete
      ensures Valid()
      ensures votes == old(votes)[players[old(currentVoterIndex)].id := targetId]
      ensures players[old(currentVoterIndex)].id == old(currentVoterIndex) + 1
      ensures old(currentVoterIndex) < |players| - 1 ==>
                currentVoterIndex == old(currentVoterIndex) + 1 && votingComplete == old(votingComplete)
      ensures old(currentVoterIndex) == |players| - 1 ==>
                currentVoterIndex == old(currentVoterIndex) && votingComplete
    {
      var voter := players[currentVoterIndex];
      assert voter.id == currentVoterIndex + 1;
      votes := votes[voter.id := targetId];
      if currentVoterIndex < |players| - 1 {
        currentVoterIndex := currentVoterIndex + 1;
      } else {
        votingComplete := true;
      }
    }

    /** `checkWinCondition`: a decided game moves to the game-over screen
        with its winner; otherwise nothing changes. */
    method CheckWinCondition(currentPlayers: seq<Player>) returns (over: bool)
      requires Valid()
      modifies this`gameResult, this`phase
      ensures Valid()
      ensures over <==> Winner(currentPlayers).Some?
      ensures over ==> phase == GameOver && gameResult == Winner(currentPlayers)
      ensures !over ==> phase == old(phase) && gameResult == old(gameResult)
    {
      var alivePlayers := Alive(currentPlayers);
      var mCount := |OnTeam(alivePlayers, MafiaTeam)|;
      var tCount := |alivePlayers| - mCount;
      if mCount == 0 {
        gameResult := Some(TownTeam);
        phase := GameOver;
        return true;
      }
      if mCount >= tCount {
        gameResult := Some(MafiaTeam);
        phase := GameOver;
        return true;
      }
      return false;
    }

    /**
     * `closeVoting`: the ballots are counted, one per voter. A single target
     * at the highest count is marked dead and the win check runs on the new
     * roster; a tie, or no ballot at all, eliminates no one. Every branch
     * closes the sheet, clears the ballots and the completion flag and
     * resets the voter index.
     */
    method CloseVoting() returns (outcome: Outcome, over: bool)
      requires Valid() && phase == Timer
      modifies this`showVotingModal, this`players, this`votes, this`votingComplete
      modifies this`currentVoterIndex, this`gameResult, this`phase
      ensures Valid()
      ensures outcome == Resolve(CountsOf(old(votes)))
      ensures outcome.Eliminated? ==> 1 <= outcome.id <= |players| && players == MarkDead(old(players), outcome.id)
      ensures !outcome.Eliminated? ==> players == old(players)
      ensures over <==> outcome.Eliminated? && Winner(players).Some?
      ensures over ==> phase == GameOver && gameResult == Winner(players)
      ensures !over ==> phase == old(phase) && gameResult == old(gameResult)
      ensures !showVotingModal && votes == map[] && !votingComplete && currentVoterIndex == 0
    {
      showVotingModal := false;
      var voteCounts := Tally(votes);
      TalliedTargetsArePlayers(votes, |players|);
      outcome := Resolve(voteCounts);
      over := false;
      if outcome.Eliminated? {
        MarkDeadOfIndexedIds(players, outcome.id);
        var updatedPlayers := MarkDead(players, outcome.id);
        players := updatedPlayers;
        votes := map[];
        votingComplete := false;
        currentVoterIndex := 0;
        over := CheckWinCondition(updatedPlayers);
      } else {
        votes := map[];
        votingComplete := false;
        currentVoterIndex := 0;
      }
    }
  }
}
