/**
 * The narrator screen of the offline game: the setup and names screens,
 * role generation, the night (the mafia's kill, the doctor's save and the
 * detective's investigation) and the day vote.
 */
module Narrator {
  import opened Options
  import opened Strings
  import opened RoleCatalog
  import opened VoteTally

  /** The screens of the narrator. A "gameOver" screen is named in a comment
      of the source but no handler ever enters it. */
  datatype Phase = Setup | Names | Roles | Night | Day | Voting

  // ---------------------------------------------------------------------
  // Setup: the number of players
  // ---------------------------------------------------------------------

  /** What the setup screen's "continue" does with the parsed player count. */
  datatype NamesStep = TooFewPlayers | OpenNames(count: nat) | CountRangeError

  /** `proceedToNames` as written: only `count < 3` is refused. A count that
      is not a number compares false with 3 and reaches `Array(count)`,
      which throws a RangeError, as it does for a count of 2^32 or more. */
  function NamesGuardAsWritten(count: Option<int>): (r: NamesStep)
    ensures r == CountRangeError <==> count.None? || count.value >= ArrayLengthLimit
    ensures r == TooFewPlayers <==> count.Some? && count.value < 3
    ensures r.OpenNames? ==> count == Some(r.count) && 3 <= r.count < ArrayLengthLimit
  {
    match count
    case None => CountRangeError
    case Some(n) => if n < 3 then TooFewPlayers else if n >= ArrayLengthLimit then CountRangeError else OpenNames(n)
  }

  /** An empty or non-numeric count field makes the written guard throw. */
  lemma NonNumericCountThrows()
    ensures NamesGuardAsWritten(ParseInt("")) == CountRangeError
    ensures NamesGuardAsWritten(ParseInt("x")) == CountRangeError
  {
    ParseIntNoDigits("");
    ParseIntNoDigits("x");
  }

  /** The guard as intended (and as the generator screen writes it): a count
      that is not a number is refused like a count below 3. A count too large
      for `Array` still throws, as it does on the generator screen. */
  function NamesGuard(count: Option<int>): (r: NamesStep)
    ensures r == CountRangeError <==> PlayerCountOk(count) && count.value >= ArrayLengthLimit
    ensures r.OpenNames? <==> PlayerCountOk(count) && count.value < ArrayLengthLimit
    ensures r.OpenNames? ==> count == Some(r.count)
  {
    if !PlayerCountOk(count) then TooFewPlayers
    else if count.value >= ArrayLengthLimit then CountRangeError
    else OpenNames(count.value)
  }

  /** On every number the two guards agree; only a count that is not a
      number tells them apart. */
  lemma NamesGuardAgrees(count: Option<int>)
    ensures count.Some? ==> NamesGuard(count) == NamesGuardAsWritten(count)
    ensures count.None? ==> NamesGuardAsWritten(count) == CountRangeError && NamesGuard(count) == TooFewPlayers
  {
  }

  // ---------------------------------------------------------------------
  // Role generation checks
  // ---------------------------------------------------------------------

  /** The refusals of `generateRoles`, in the order it tests them. */
  datatype RoleCheck = MissingNames | TooManyRoles(count: int, total: int) | NeedMafia | RolesOk

  function CheckRoles(names: seq<string>, c: RoleConfig, count: Option<int>): (r: RoleCheck)
    ensures r == MissingNames <==> !AllNamed(names)
    ensures r.TooManyRoles? <==> AllNamed(names) && count.Some? && TotalSpecial(c) > count.value
    ensures r.TooManyRoles? ==> r.count == count.value && r.total == TotalSpecial(c)
    ensures r == NeedMafia <==>
              AllNamed(names) && (count.None? || TotalSpecial(c) <= count.value) && c.mafia < 1
    ensures r == RolesOk <==>
              AllNamed(names) && (count.None? || TotalSpecial(c) <= count.value) && c.mafia >= 1
  {
    if |EmptyNames(names)| > 0 then MissingNames
    else if count.Some? && TotalSpecial(c) > count.value then TooManyRoles(count.value, TotalSpecial(c))
    else if c.mafia < 1 then NeedMafia
    else RolesOk
  }

  // ---------------------------------------------------------------------
  // The night
  // ---------------------------------------------------------------------

  /** `nightActions` is keyed by role name (`selectNightTarget`) or by the
      acting player's id (`submitNightAction`). */
  datatype NightKey = RoleKey(role: Role) | ActorKey(actorId: int)

  datatype NightAction =
    | ByRole(role: Role, targetId: int, targetName: Option<string>)
    | ByActor(actorId: int, actorName: string, actorRole: Role, targetId: int, targetName: Option<string>)

  /** `players.find(p => p.id === id)?.name`. */
  function NameOf(ps: seq<Player>, id: int): (r: Option<string>)
    ensures r.None? ==> forall j :: 0 <= j < |ps| ==> ps[j].id != id
    ensures r.Some? ==> exists i :: IsFirstWithId(ps, i, id) && r.value == ps[i].name
  {
    match Find(ps, id)
    case None => None
    case Some(i) => Some(ps[i].name)
  }

  /** The target recorded under a role's own key, if any. */
  function TargetOf(actions: map<NightKey, NightAction>, r: Role): Option<int> {
    if RoleKey(r) in actions then Some(actions[RoleKey(r)].targetId) else None
  }

  /** `selectNightTarget`: the role's entry is replaced; the others stay. */
  function RecordTarget(actions: map<NightKey, NightAction>, ps: seq<Player>, role: Role, targetId: int)
    : (r: map<NightKey, NightAction>)
    ensures r.Keys == actions.Keys + {RoleKey(role)}
    ensures TargetOf(r, role) == Some(targetId)
    ensures r[RoleKey(role)].targetName == NameOf(ps, targetId)
    ensures forall q :: q != role ==> TargetOf(r, q) == TargetOf(actions, q)
    ensures forall k :: k in actions && k != RoleKey(role) ==> k in r && r[k] == actions[k]
  {
    actions[RoleKey(role) := ByRole(role, targetId, NameOf(ps, targetId))]
  }

  /** A second selection for a role replaces the first. */
  lemma RecordTargetOverwrites(actions: map<NightKey, NightAction>, ps: seq<Player>, role: Role, t1: int, t2: int)
    ensures RecordTarget(RecordTarget(actions, ps, role, t1), ps, role, t2) == RecordTarget(actions, ps, role, t2)
  {
  }

  /**
   * The index of the player killed in the night: the mafia's target dies
   * unless it is the doctor's target, and only if the player found under
   * that id is alive.
   */
  function NightVictim(actions: map<NightKey, NightAction>, ps: seq<Player>): (v: Option<nat>)
    ensures v.Some? ==>
              TargetOf(actions, Mafia).Some? && TargetOf(actions, Doctor) != TargetOf(actions, Mafia) &&
              IsFirstWithId(ps, v.value, TargetOf(actions, Mafia).value) && ps[v.value].alive
    ensures v.None? ==>
              TargetOf(actions, Mafia).None? || TargetOf(actions, Doctor) == TargetOf(actions, Mafia) ||
              forall i :: IsFirstWithId(ps, i, TargetOf(actions, Mafia).value) ==> !ps[i].alive
  {
    match TargetOf(actions, Mafia)
    case None => None
    case Some(t) =>
      if TargetOf(actions, Doctor) == Some(t) then None
      else
        match Find(ps, t)
        case None => None
        case Some(k) => if ps[k].alive then Some(k) else None
  }

  /** The roster after the night's kill. */
  function AfterNight(actions: map<NightKey, NightAction>, ps: seq<Player>): seq<Player> {
    match NightVictim(actions, ps)
    case None => ps
    case Some(k) => ps[k := ps[k].(alive := false)]
  }

  /** At most one player dies in the night, nobody else changes, and the
      doctor's target always survives. */
  lemma NightKillsAtMostOne(actions: map<NightKey, NightAction>, ps: seq<Player>)
    ensures |AfterNight(actions, ps)| == |ps|
    ensures forall i :: 0 <= i < |ps| && NightVictim(actions, ps) != Some(i) ==> AfterNight(actions, ps)[i] == ps[i]
    ensures |Alive(AfterNight(actions, ps))| == |Alive(ps)| - (if NightVictim(actions, ps).Some? then 1 else 0)
    ensures forall i :: 0 <= i < |ps| && TargetOf(actions, Doctor) == Some(ps[i].id) ==>
              AfterNight(actions, ps)[i] == ps[i]
  {
    match NightVictim(actions, ps)
    case None =>
    case Some(k) => AliveAfterKill(ps, k);
  }

  /** Actions recorded under a player's id never affect the night's result:
      only the role keys are read. */
  lemma ActorActionsIgnored(actions: map<NightKey, NightAction>, ps: seq<Player>, id: int, a: NightAction)
    ensures NightVictim(actions[ActorKey(id) := a], ps) == NightVictim(actions, ps)
    ensures DetectiveReportOf(actions[ActorKey(id) := a], ps) == DetectiveReportOf(actions, ps)
  {
    var actions' := actions[ActorKey(id) := a];
    assert forall r :: TargetOf(actions', r) == TargetOf(actions, r);
  }

  datatype DetectiveReport = DetectiveReport(targetName: Option<string>, isMafia: bool)

  /** The detective's report: the name stored with the selection, and whether
      the player found under the target id has the mafia role. */
  function DetectiveReportOf(actions: map<NightKey, NightAction>, ps: seq<Player>): (r: Option<DetectiveReport>)
    ensures r.Some? <==> TargetOf(actions, Detective).Some?
    ensures r.Some? ==> r.value.targetName == actions[RoleKey(Detective)].targetName
    ensures r.Some? ==>
              (r.value.isMafia <==> exists i :: IsFirstWithId(ps, i, TargetOf(actions, Detective).value) && ps[i].role == Mafia)
  {
    if RoleKey(Detective) !in actions then None
    else
      var a := actions[RoleKey(Detective)];
      match Find(ps, a.targetId)
      case None => Some(DetectiveReport(a.targetName, false))
      case Some(i) => Some(DetectiveReport(a.targetName, ps[i].role == Mafia))
  }

  /** The kill changes no id and no role, so the report is the same before
      and after it. */
  lemma ReportUnaffectedByKill(actions: map<NightKey, NightAction>, ps: seq<Player>, k: int)
    requires 0 <= k < |ps|
    ensures DetectiveReportOf(actions, ps[k := ps[k].(alive := false)]) == DetectiveReportOf(actions, ps)
  {
    if RoleKey(Detective) in actions {
      var t := actions[RoleKey(Detective)].targetId;
      FindAfterKill(ps, k, t);
    }
  }

  /** The automated night sequence calls `processNightActions` from the
      screen as it was when the night began, whose actions are still the
      empty map: the night then resolves as if nobody had chosen, so no one
      dies and the detective gets no report. */
  lemma StaleNightSequenceResolvesNothing(ps: seq<Player>)
    ensures NightVictim(map[], ps) == None && AfterNight(map[], ps) == ps
    ensures DetectiveReportOf(map[], ps) == None
  {
    assert TargetOf(map[], Mafia) == None;
  }

  /** Read from the current actions instead, a mafia choice of a living,
      unsaved player kills that player, and a detective choice yields a
      report on the chosen player. */
  lemma SelectedTargetDies(ps: seq<Player>, t: int)
    requires IdsAreIndices(ps) && 1 <= t <= |ps| && ps[t - 1].alive
    ensures NightVictim(RecordTarget(map[], ps, Mafia, t), ps) == Some(t - 1)
    ensures DetectiveReportOf(RecordTarget(map[], ps, Detective, t), ps) ==
              Some(DetectiveReport(Some(ps[t - 1].name), ps[t - 1].role == Mafia))
  {
    FindOfIndexedIds(ps, t);
    var a := RecordTarget(map[], ps, Mafia, t);
    assert TargetOf(a, Doctor) == None;
  }

  // ---------------------------------------------------------------------
  // Votes
  // ---------------------------------------------------------------------

  /** `castVote`: one more vote for `id`, every other count unchanged. */
  function AddVote(votes: map<int, int>, id: int): (r: map<int, int>)
    ensures r.Keys == votes.Keys + {id}
    ensures r[id] == (if id in votes then votes[id] else 0) + 1
    ensures forall other :: other in votes && other != id ==> r[other] == votes[other]
  {
    votes[id := (if id in votes then votes[id] else 0) + 1]
  }

  /** The counts after the given votes, cast in order from no votes. */
  function CastAll(ids: seq<int>): map<int, int> {
    if ids == [] then map[] else AddVote(CastAll(ids[..|ids| - 1]), ids[|ids| - 1])
  }

  /** Each player's count is the number of votes cast for them, and only
      players who received a vote have a count. */
  lemma {:induction false} CastAllCounts(ids: seq<int>, id: int)
    ensures id in CastAll(ids) <==> id in ids
    ensures id in CastAll(ids) ==> CastAll(ids)[id] == multiset(ids)[id]
  {
    if ids != [] {
      var init := ids[..|ids| - 1];
      assert ids == init + [ids[|ids| - 1]];
      CastAllCounts(init, id);
    }
  }

  // ---------------------------------------------------------------------
  // The day timer
  // ---------------------------------------------------------------------

  /** The seconds `startDayPhase` puts on the clock: the parsed minutes times
      60 when that is positive; otherwise the timer is not started. */
  function DayTimer(timeLimit: string): (r: Option<nat>)
    ensures r.Some? <==> ParseInt(timeLimit).Some? && ParseInt(timeLimit).value > 0
    ensures r.Some? ==> r.value == ParseInt(timeLimit).value * 60
  {
    var m := ParseInt(timeLimit);
    if m.Some? && m.value > 0 then Some(m.value * 60) else None
  }

  datatype NightOpen = PlayerDead | NoNightAction | Opened

  /** The narrator screen's state and its handlers. */
  class NarratorGame {
    var phase: Phase
    var playerCount: string
    var timeLimit: string
    var killMode: bool
    var roleConfig: RoleConfig
    var playerNames: seq<string>
    var players: seq<Player>
    var assignedRoles: seq<Role>
    var currentPlayerIndex: int
    var showRole: bool
    var timeRemaining: int
    var timerActive: bool
    var eliminatedPlayers: seq<Player>
    var votes: map<int, int>
    var currentRound: int
    var nightActions: map<NightKey, NightAction>
    var currentNightPlayer: Option<Player>

    /** What the handlers keep: players numbered 1..n, the counters at or
        above their floors, a names screen sized by the parsed count, votes
        only for existing players and only once the roster exists, and a
        round from 1. */
    predicate Valid()
      reads this`players, this`roleConfig, this`phase, this`playerNames, this`votes, this`currentRound
    {
      IdsAreIndices(players) &&
      ConfigInvariant(roleConfig) &&
      (phase == Names ==> |playerNames| >= 3) &&
      ((phase == Setup || phase == Names) ==> votes == map[]) &&
      (forall id :: id in votes ==> 1 <= id <= |players| && votes[id] >= 1) &&
      currentRound >= 1
    }

    constructor ()
      ensures Valid()
      ensures phase == Setup && playerCount == "5" && timeLimit == "5" && !killMode
      ensures roleConfig == DefaultConfig && playerNames == [] && players == [] && assignedRoles == []
      ensures currentPlayerIndex == 0 && !showRole && timeRemaining == 0 && !timerActive
      ensures eliminatedPlayers == [] && votes == map[] && currentRound == 1
      ensures nightActions == map[] && currentNightPlayer == None
    {
      phase := Setup;
      playerCount := "5";
      timeLimit := "5";
      killMode := false;
      roleConfig := DefaultConfig;
      playerNames := [];
      players := [];
      assignedRoles := [];
      currentPlayerIndex := 0;
      showRole := false;
      timeRemaining := 0;
      timerActive := false;
      eliminatedPlayers := [];
      votes := map[];
      currentRound := 1;
      nightActions := map[];
      currentNightPlayer := None;
    }

    /** The player-count field of the setup screen. */
    method SetPlayerCount(s: string)
      requires Valid() && phase == Setup
      modifies this`playerCount
      ensures Valid() && playerCount == s
    {
      playerCount := s;
    }

    /** The discussion-time field of the setup screen. */
    method SetTimeLimit(s: string)
      requires Valid()
      modifies this`timeLimit
      ensures Valid() && timeLimit == s
    {
      timeLimit := s;
    }

    /** The kill-mode switch of the setup screen. */
    method SetKillMode(on: bool)
      requires Valid()
      modifies this`killMode
      ensures Valid() && killMode == on
    {
      killMode := on;
    }

    /** The "+" (`up`) or "−" button of a special role's counter. */
    method StepRole(r: Role, up: bool)
      requires Valid() && phase == Setup && IsSpecial(r)
      modifies this`roleConfig
      ensures Valid()
      ensures roleConfig == if up then Increment(old(roleConfig), r) else Decrement(old(roleConfig), r)
    {
      SteppersKeepInvariant(roleConfig, r, up);
      roleConfig := if up then Increment(roleConfig, r) else Decrement(roleConfig, r);
    }

    /** `proceedToNames`, with the intended guard: on acceptance the names
        screen opens with `count` empty names; otherwise nothing changes. */
    method ProceedToNames() returns (step: NamesStep)
      requires Valid() && phase == Setup
      modifies this`playerNames, this`phase
      ensures Valid()
      ensures step == NamesGuard(ParseInt(playerCount))
      ensures step.OpenNames? ==>
                phase == Names && playerNames == seq(step.count, _ => "") && ParseInt(playerCount) == Some(|playerNames|)
      ensures !step.OpenNames? ==> phase == old(phase) && playerNames == old(playerNames)
    {
      step := NamesGuard(ParseInt(playerCount));
      if step.OpenNames? {
        playerNames := seq(step.count, _ => "");
        phase := Names;
      }
    }

    /** The back button of the names screen. */
    method BackToSetup()
      requires Valid() && phase == Names
      modifies this`phase
      ensures Valid() && phase == Setup
    {
      phase := Setup;
    }

    /** `updatePlayerName`: the name at `index` is replaced. */
    method UpdatePlayerName(index: int, name: string)
      requires Valid() && 0 <= index < |playerNames|
      modifies this`playerNames
      ensures Valid() && playerNames == old(playerNames)[index := name]
    {
      playerNames := playerNames[index := name];
    }

    /**
     * `generateRoles`: refused, with nothing changed, for a blank name, for
     * more special roles than players or for no mafia. Otherwise the roles
     * are built, put in some order (the source shuffles at random), and
     * player i gets id i + 1, the i-th name trimmed and the i-th role.
     */
    method GenerateRoles() returns (check: RoleCheck)
      requires Valid() && phase == Names && ParseInt(playerCount) == Some(|playerNames|)
      modifies this`phase, this`players, this`assignedRoles
      ensures Valid()
      ensures check == CheckRoles(playerNames, roleConfig, ParseInt(playerCount))
      ensures check != RolesOk ==> phase == old(phase) && players == old(players) && assignedRoles == old(assignedRoles)
      ensures check == RolesOk ==>
                phase == Roles && |assignedRoles| == |playerNames| &&
                multiset(assignedRoles) == multiset(RoleList(roleConfig, |playerNames|)) &&
                players == MakePlayers(assignedRoles, playerNames)
    {
      var count := ParseInt(playerCount);
      check := CheckRoles(playerNames, roleConfig, count);
      if check != RolesOk {
        return;
      }
      var roles := BuildRoles(roleConfig, count.value);
      RoleListLength(roleConfig, count.value);
      var shuffled := Shuffle(roles);
      assignedRoles := shuffled;
      players := MakePlayers(shuffled, playerNames);
      phase := Roles;
    }

    /** `showNextRole`: the next player sees their role, or after the last
        one the first night begins. */
    method ShowNextRole()
      requires Valid()
      modifies this`currentPlayerIndex, this`showRole, this`phase, this`currentRound
      ensures Valid()
      ensures old(currentPlayerIndex) < |players| - 1 ==>
                currentPlayerIndex == old(currentPlayerIndex) + 1 && !showRole &&
                phase == old(phase) && currentRound == old(currentRound)
      ensures old(currentPlayerIndex) >= |players| - 1 ==>
                currentPlayerIndex == old(currentPlayerIndex) && showRole == old(showRole) &&
                phase == Night && currentRound == 1
    {
      if currentPlayerIndex < |players| - 1 {
        currentPlayerIndex := currentPlayerIndex + 1;
        showRole := false;
      } else {
        phase := Night;
        currentRound := 1;
      }
    }

    /** `startNightPhase`: the night screen with no actions recorded. */
    method StartNightPhase()
      requires Valid()
      modifies this`phase, this`nightActions
      ensures Valid() && phase == Night && nightActions == map[]
    {
      phase := Night;
      nightActions := map[];
    }

    /** `selectNightTarget`: the role's target (and its name) is recorded
        under the role, replacing an earlier choice. */
    method SelectNightTarget(targetId: int, role: Role)
      requires Valid()
      modifies this`nightActions
      ensures Valid() && nightActions == RecordTarget(old(nightActions), players, role, targetId)
    {
      nightActions := RecordTarget(nightActions, players, role, targetId);
    }

    /** `openNightAction`: a dead player or a villager is turned away; any
        other player becomes the one choosing a target. */
    method OpenNightAction(player: Player) returns (r: NightOpen)
      requires Valid()
      modifies this`currentNightPlayer
      ensures Valid()
      ensures r == PlayerDead <==> !player.alive
      ensures r == NoNightAction <==> player.alive && player.role == Villager
      ensures r == Opened ==> currentNightPlayer == Some(player)
      ensures r != Opened ==> currentNightPlayer == old(currentNightPlayer)
    {
      if !player.alive {
        return PlayerDead;
      }
      if player.role == Villager {
        return NoNightAction;
      }
      currentNightPlayer := Some(player);
      return Opened;
    }

    /** `submitNightAction`: with a player choosing, the choice is recorded
        under that player's id and the chooser is cleared; otherwise nothing
        happens. */
    method SubmitNightAction(targetId: int)
      requires Valid()
      modifies this`nightActions, this`currentNightPlayer
      ensures Valid() && currentNightPlayer == None
      ensures old(currentNightPlayer).None? ==> nightActions == old(nightActions)
      ensures old(currentNightPlayer).Some? ==>
                var p := old(currentNightPlayer).value;
                nightActions == old(nightActions)[ActorKey(p.id) := ByActor(p.id, p.name, p.role, targetId, NameOf(players, targetId))]
    {
      if currentNightPlayer.None? {
        return;
      }
      var p := currentNightPlayer.value;
      nightActions := nightActions[ActorKey(p.id) := ByActor(p.id, p.name, p.role, targetId, NameOf(players, targetId))];
      currentNightPlayer := None;
    }

    /** `startDayPhase`: the day screen with no votes; the clock is set only
        when the time limit parses to a positive number of minutes. */
    method StartDayPhase()
      requires Valid()
      modifies this`phase, this`votes, this`timeRemaining, this`timerActive
      ensures Valid() && phase == Day && votes == map[]
      ensures DayTimer(timeLimit).Some? ==> timeRemaining == DayTimer(timeLimit).value && timerActive
      ensures DayTimer(timeLimit).None? ==> timeRemaining == old(timeRemaining) && timerActive == old(timerActive)
    {
      phase := Day;
      votes := map[];
      var t := DayTimer(timeLimit);
      if t.Some? {
        timeRemaining := t.value;
        timerActive := true;
      }
    }

    /**
     * `processNightActions`: in kill mode the night's victim (if any) is
     * marked dead in place and added to the eliminated list, and the
     * detective's report is produced; in every mode the actions are cleared
     * and the day begins.
     */
    method ProcessNightActions() returns (killed: Option<Player>, report: Option<DetectiveReport>)
      requires Valid()
      modifies this`players, this`eliminatedPlayers, this`nightActions
      modifies this`phase, this`votes, this`timeRemaining, this`timerActive
      ensures Valid()
      ensures killMode ==> players == AfterNight(old(nightActions), old(players))
      ensures !killMode ==> players == old(players)
      ensures killed.Some? <==> killMode && NightVictim(old(nightActions), old(players)).Some?
      ensures killed.Some? ==>
                var k := NightVictim(old(nightActions), old(players)).value;
                killed.value == players[k] && eliminatedPlayers == old(eliminatedPlayers) + [players[k]]
      ensures killed.None? ==> eliminatedPlayers == old(eliminatedPlayers)
      ensures report == if killMode then DetectiveReportOf(old(nightActions), old(players)) else None
      ensures nightActions == map[] && phase == Day && votes == map[]
      ensures DayTimer(timeLimit).Some? ==> timeRemaining == DayTimer(timeLimit).value && timerActive
      ensures DayTimer(timeLimit).None? ==> timeRemaining == old(timeRemaining) && timerActive == old(timerActive)
    {
      killed := None;
      report := None;
      if killMode {
        var victim := NightVictim(nightActions, players);
        if victim.Some? {
          var k := victim.value;
          ReportUnaffectedByKill(nightActions, players, k);
          players := players[k := players[k].(alive := false)];
          killed := Some(players[k]);
          eliminatedPlayers := eliminatedPlayers + [players[k]];
        }
        report := DetectiveReportOf(nightActions, players);
      }
      nightActions := map[];
      StartDayPhase();
    }

    /** `startVoting`: the voting screen with no votes. */
    method StartVoting()
      requires Valid()
      modifies this`phase, this`votes
      ensures Valid() && phase == Voting && votes == map[]
    {
      phase := Voting;
      votes := map[];
    }

    /** `castVote`: one more vote for the chosen player. */
    method CastVote(playerId: int)
      requires Valid() && phase == Voting && 1 <= playerId <= |players|
      modifies this`votes
      ensures Valid() && votes == AddVote(old(votes), playerId)
    {
      votes := AddVote(votes, playerId);
    }

    /**
     * `processVotes`: with no votes nothing changes. Otherwise a unique
     * leader is marked dead and its record from before the vote is added to
     * the eliminated list, a tie eliminates no one, and in both cases the
     * round advances by one and the night begins. The votes are kept.
     */
    method ProcessVotes() returns (outcome: Outcome)
      requires Valid()
      modifies this`players, this`eliminatedPlayers, this`currentRound, this`phase
      ensures Valid()
      ensures outcome == Resolve(votes)
      ensures outcome == NoVotes ==> phase == old(phase) && currentRound == old(currentRound)
      ensures outcome != NoVotes ==> phase == Night && currentRound == old(currentRound) + 1
      ensures outcome.Eliminated? ==>
                1 <= outcome.id <= |old(players)| &&
                players == MarkDead(old(players), outcome.id) &&
                eliminatedPlayers == old(eliminatedPlayers) + [old(players)[outcome.id - 1]]
      ensures !outcome.Eliminated? ==> players == old(players) && eliminatedPlayers == old(eliminatedPlayers)
    {
      outcome := Resolve(votes);
      if outcome == NoVotes {
        return;
      }
      if outcome.Eliminated? {
        var id := outcome.id;
        FindOfIndexedIds(players, id);
        var player := players[Find(players, id).value];
        MarkDeadOfIndexedIds(players, id);
        players := MarkDead(players, id);
        eliminatedPlayers := eliminatedPlayers + [player];
      }
      currentRound := currentRound + 1;
      phase := Night;
    }
  }
}
