# Mafia Party Game — the offline game engine in Dafny

This project models the rules of the single-device Mafia party game:

- the **narrator** screen (`app/offline/narrator.js`), where a host sets up
  roles, runs the night (the mafia's kill, the doctor's save, the
  detective's investigation) and the day vote;
- the **role generator** screen (`app/offline/generator.js`), which deals
  roles, runs a pass-the-phone ballot and checks for a winner;
- the **invite and room-code** helpers of the home and online lobby screens
  (`app/index.js`, `app/online/index.js`, which define them identically).

Each screen's React state becomes a Dafny `class` whose fields the handler
methods update; each `useState` setter becomes an assignment to the field it
names, and every method's `modifies` clause lists exactly those fields. The
expression-only helpers (`buildInvite`, `joinRoom`, `formatTime`, the vote
resolution, the win check) are functions over values. The random shuffle is
any permutation of the built role list.

Files:

| file | content |
|---|---|
| `options.dfy` | `Option`, standing for JavaScript's `null`/`undefined`/`NaN` results |
| `strings.dfy` | `String.prototype.trim`, ASCII `toUpperCase`, `parseInt`, integer `toString`, `padStart` |
| `rolecatalog.dfy` | roles and teams, the role counters and their steppers, the role list and its push loops, players, lookup by id, marking dead, alive and team counts |
| `votetally.dfy` | the "highest count wins, a tie eliminates no one" rule and the generator's one-ballot-per-voter count |
| `clock.dfy` | `formatTime` and its inverse |
| `invite.dfy` | `buildInvite`, the copy/share guards, `ensureName`, `joinRoom` |
| `narrator.dfy` | the narrator screen |
| `generator.dfy` | the generator screen |

Where the narrator's `proceedToNames` and its evident intent disagree, the
model keeps both: the code as written (which crashes on a non-numeric count)
and the corrected guard, which the narrator class uses (see "## Findings").

## Model

| member | source | states |
|---|---|---|
| Strings.TrimIsSlice | app/index.js:13 | `trim` removes exactly a leading and a trailing run of whitespace: the result is a slice of the input, everything outside it is whitespace, and it neither starts nor ends with whitespace |
| Strings.Trim | app/index.js:13 | `String.prototype.trim`; its contract is carried by `Strings.TrimIsSlice`, `Strings.TrimEmptyIffBlank` and `Strings.TrimIdempotent` |
| Strings.TrimEmptyIffBlank | app/index.js:32 | `!s.trim()` holds exactly when every character of `s` is whitespace |
| Strings.TrimIdempotent | app/index.js:13 | trimming twice is trimming once |
| Strings.ToUpper | app/index.js:13 | upper-casing keeps the length and maps every character on its own |
| Strings.UpperKeepsWhiteSpace | app/index.js:13 | upper-casing neither creates nor removes whitespace |
| Strings.ToUpperIsUpper | app/index.js:13 | the result of upper-casing has no lower-case letter, and a string without one is left unchanged |
| Strings.SkipBlankFromOfUpper | app/index.js:13 | upper-casing does not move where the leading whitespace ends |
| Strings.SkipBlankBackOfUpper | app/index.js:13 | upper-casing does not move where the trailing whitespace starts |
| Strings.ToUpperSlice | app/index.js:13 | upper-casing a slice is slicing the upper-cased string |
| Strings.TrimOfUpper | app/index.js:13 | trimming and upper-casing commute, so `trim().toUpperCase()` equals `toUpperCase().trim()` |
| Strings.DigitPrefix | app/offline/generator.js:87 | `parseInt` reads the longest run of digits at the front: the prefix is all digits and is followed by a non-digit or the end |
| Strings.ParseInt | app/offline/generator.js:87 | `parseInt` without a radix (leading blanks, a sign, a `0x` prefix, then the longest digit run; NaN when there is none); its contract is carried by `Strings.ParseIntNoDigits`, `Strings.ParseIntOfNumeral` and `Strings.ParseIntOfIntToString` |
| Strings.NatToString | app/offline/generator.js:182-183 | the decimal form of a number is non-empty, all digits, and has no leading zero |
| Strings.NatToStringValue | app/offline/generator.js:182-183 | the decimal digits of `n` read back as `n` |
| Strings.DigitPrefixOfDigits | app/offline/generator.js:87 | a string of digits is its own digit prefix |
| Strings.MagnitudeOfNumeral | app/offline/generator.js:87 | a decimal numeral, leading zeros included, is read in base 10 |
| Strings.ParseIntNoDigits | app/offline/generator.js:87 | a field that is empty, or starts with a non-blank character that is no sign and no digit, parses to `NaN` |
| Strings.ParseIntOfNumeral | app/offline/generator.js:87 | `parseInt` of a decimal numeral (leading zeros included, so "007" reads as 7), with or without a minus sign, is its value |
| Strings.ParseIntOfIntToString | app/offline/generator.js:87 | `parseInt(String(n)) === n` for every integer `n` |
| Strings.PadStart | app/offline/generator.js:183 | `padStart` fills on the left up to the width and keeps the string as its suffix |
| Clock.JsRemainder | app/offline/generator.js:182 | JavaScript's `%` by a positive number: the remainder differs from the dividend by a multiple of the divisor, has the dividend's sign and is smaller than the divisor in size |
| Clock.FormatTime | app/offline/generator.js:180-184 | `formatTime` (also app/offline/narrator.js:535-539); its contract is carried by `Clock.ReadFormatTime`: for every non-negative input the display reads back as that number of seconds |
| Clock.TwoDigitSeconds | app/offline/generator.js:183 | the seconds field of a time is exactly two digits that read back as the seconds |
| Clock.ReadFormatTime | app/offline/generator.js:180-184 | for every non-negative number of seconds, the display "m:ss" reads back as that number (the same helper is at app/offline/narrator.js:535-539) |
| RoleCatalog.WithCount | app/offline/generator.js:306-359 | a counter update sets one role's counter and keeps the others |
| RoleCatalog.Increment | app/offline/generator.js:313 | "+" raises one counter by one and keeps the others (same buttons at app/offline/narrator.js:606-657) |
| RoleCatalog.Decrement | app/offline/generator.js:306 | "−" lowers one counter by one but not below its floor (1 for mafia, 0 for detective and doctor) and keeps the others |
| RoleCatalog.SteppersKeepInvariant | app/offline/generator.js:306-359 | any press of any button keeps at least one mafia and no negative counter |
| RoleCatalog.Repeat | app/offline/narrator.js:320-322 | a `for` loop up to `n` pushes `n` copies, none when `n` is not positive |
| RoleCatalog.RoleList | app/offline/narrator.js:317-337 | what the push loops build; its contract is carried by `RoleCatalog.BuildRoles` (the loops compute it), `RoleCatalog.RoleListMultiset`, `RoleCatalog.RoleListCounts` and `RoleCatalog.RoleListLength` |
| RoleCatalog.PushCopies | app/offline/narrator.js:320-332 | one `for` loop appends exactly the repeated role to the list built so far |
| RoleCatalog.BuildRoles | app/offline/narrator.js:317-337 | the push loops build the mafia, detective and doctor copies in that order and then villagers up to the player count (the same loops are at app/offline/generator.js:123-139) |
| RoleCatalog.RepeatMultiset | app/offline/narrator.js:320-322 | the pushed copies hold that role the pushed number of times and nothing else |
| RoleCatalog.RoleListLength | app/offline/narrator.js:335-337 | with counters that fit the player count, the list has one role per player |
| RoleCatalog.RoleListMultiset | app/offline/narrator.js:317-337 | the role list as a multiset: the configured copies of each special role plus the villagers that fill it |
| RoleCatalog.RoleListCounts | app/offline/narrator.js:317-337 | exactly `roleConfig.mafia` mafia, `detective` detectives and `doctor` doctors; villagers fill the rest; the length is the player count when the counters fit |
| RoleCatalog.Shuffle | app/offline/narrator.js:340 | the shuffled list holds the same roles, each as often as before |
| RoleCatalog.EmptyNames | app/offline/narrator.js:299-300 | the blank-name filter is empty exactly when every name has a visible character |
| RoleCatalog.MakePlayers | app/offline/narrator.js:343-351 | player i gets id i + 1, the trimmed i-th name and the i-th role, and is alive (the same map is at app/offline/generator.js:144-151) |
| RoleCatalog.Find | app/offline/narrator.js:431 | `players.find` by id returns the first player with that id, or nothing when no player has it |
| RoleCatalog.FindOfIndexedIds | app/offline/narrator.js:520 | with ids 1..n, looking up id k finds index k − 1 |
| RoleCatalog.MarkDead | app/offline/narrator.js:522-524 | marking by id sets `alive` false on the players with that id and changes nothing else |
| RoleCatalog.MarkDeadOfIndexedIds | app/offline/generator.js:249-251 | with ids 1..n, marking id k dead changes entry k − 1 only and keeps the numbering |
| RoleCatalog.Alive | app/offline/narrator.js:541 | the living players are players and alive; `RoleCatalog.AliveMultiset` states that none is left out |
| RoleCatalog.AliveMultiset | app/offline/narrator.js:541 | `filter(p => p.alive)` keeps every living player, as often as it occurs in the roster, and no other |
| RoleCatalog.OnTeam | app/offline/narrator.js:542-543 | the players of a team are players of that team; `RoleCatalog.OnTeamMultiset` states that none is left out |
| RoleCatalog.OnTeamMultiset | app/offline/narrator.js:542-543 | the team filter keeps every player of the team, as often as it occurs in the roster, and no other |
| RoleCatalog.TeamsPartition | app/offline/narrator.js:541-543 | the mafia count and the town count add up to the number of players counted |
| RoleCatalog.AliveAfterKill | app/offline/narrator.js:433 | killing a living player lowers the living count by exactly one; killing a dead one changes nothing |
| RoleCatalog.OnTeamCons | app/offline/narrator.js:542 | the team filter of a list is the first player's contribution followed by the filter of the rest |
| RoleCatalog.AliveOnTeamCons | app/offline/generator.js:213-214 | the living members of a team are counted one player at a time |
| RoleCatalog.TeamAliveAfterKill | app/offline/generator.js:213-215 | a kill lowers the living count of the victim's team by one when the victim was alive and leaves the other team's count alone |
| RoleCatalog.FindAfterKill | app/offline/narrator.js:431-433 | a kill changes no id, so lookups by id find the same index before and after |
| RoleCatalog.AllAlive | app/offline/narrator.js:348 | in a fresh roster everybody is alive |
| VoteTally.MaxCount | app/offline/narrator.js:512 | `Math.max` over the counts is one of the counts and no count exceeds it |
| VoteTally.Leaders | app/offline/narrator.js:513 | the tied set is non-empty and holds exactly the ids at the highest count |
| VoteTally.Resolve | app/offline/narrator.js:505-519 | no counts means no votes; an elimination is of a candidate strictly ahead of all others; a tie means nobody is strictly ahead (the same rule is at app/offline/generator.js:244-262) |
| VoteTally.StrictWinnerUnique | app/offline/narrator.js:513-515 | at most one candidate can be strictly ahead |
| VoteTally.ResolveWinnerIff | app/offline/narrator.js:513-519 | a candidate is eliminated if and only if it is strictly ahead of every other |
| VoteTally.ResolveExamples | app/offline/generator.js:244-262 | {1:2, 2:2, 3:1} is a tie and {1:3, 2:1} eliminates 1 |
| VoteTally.CountsMatchIsCountsOf | app/offline/generator.js:239-242 | counts that agree with the ballots on every key are the ballots' count |
| VoteTally.RestrictAdd | app/offline/generator.js:240 | taking one more voter's ballot adds exactly that ballot |
| VoteTally.VotersForAdd | app/offline/generator.js:241 | one more ballot adds its voter to its target's voters and changes no other target's voters |
| VoteTally.ValuesAdd | app/offline/generator.js:240 | one more ballot adds its target to the set of targets |
| VoteTally.NoVotersWithoutValue | app/offline/generator.js:241 | a target nobody named has no voters |
| VoteTally.CountStep | app/offline/generator.js:241 | `(voteCounts[t] \|\| 0) + 1` keeps the counts equal to one vote per voter |
| VoteTally.Tally | app/offline/generator.js:239-242 | the `forEach` gives every target exactly the number of voters whose ballot names it |
| VoteTally.CountsOfBallots | app/offline/generator.js:239-242 | every ballot is counted for its target, and only named targets have a count |
| Invite.NormaliseCode | app/index.js:13 | the code is the input (`""` when missing) trimmed then upper-cased; it is normal (trimmed, no lower-case letter), and empty exactly when the input is missing or blank (same line at app/online/index.js:12) |
| Invite.BuildInvite | app/index.js:12-16 | the invite's code is the normalised input, normal, and empty exactly for a blank or missing input; its link is the join prefix followed by the code (same at app/online/index.js:11-15) |
| Invite.NormalCodeIsFixed | app/index.js:13 | normalising a normal code gives it back |
| Invite.BuildInviteIdempotent | app/index.js:12-15 | building an invite from an invite's code gives the same invite |
| Invite.InviteUrlCarriesCode | app/index.js:14 | the link after "https://mafia.party/join/" is the code |
| Invite.CopyInvite | app/index.js:18-23 | copying is refused exactly when the code is blank; otherwise the invite link is copied (same at app/online/index.js:17-22) |
| Invite.ShareInvite | app/index.js:25-29 | sharing is refused exactly when the code is blank; otherwise a message naming the code and the link is shared (same at app/online/index.js:24-28) |
| Invite.ShareText | app/index.js:28 | the message `shareInvite` sends; `Invite.ShareInvite` states when it is sent |
| Invite.EnsureName | app/index.js:31-37 | a name is accepted exactly when it has a non-whitespace character (same at app/online/index.js:30-36) |
| Invite.JoinRoom | app/index.js:45-53 | a blank name is refused first, then a blank code; otherwise the lobby opens with the trimmed, upper-cased code and the name as typed (same at app/online/index.js:44-52) |
| Invite.JoinWithInviteCode | app/index.js:45-53 | joining with an invite's code opens the room the invite names |
| Narrator.NamesGuardAsWritten | app/offline/narrator.js:277-287 | the guard as written: a count below 3 is refused; a non-numeric count and a count of 2^32 or more reach a throwing `Array(count)`; any other count opens the names screen |
| Narrator.NonNumericCountThrows | app/offline/narrator.js:278-285 | an empty or non-numeric count field reaches `Array(NaN)` |
| Narrator.NamesGuard | app/offline/narrator.js:277-287 | the intended guard: a count that is not a number of at least 3 is refused; a count of 2^32 or more still throws in `Array`, as on the generator screen; every other count opens the names screen |
| Narrator.NamesGuardAgrees | app/offline/narrator.js:279 | on every number the two guards agree; a count that is not a number throws in the written guard and is refused by the intended one |
| Narrator.CheckRoles | app/offline/narrator.js:298-315 | the refusals in order: a blank name, then more special roles than players, then no mafia; otherwise accepted |
| Narrator.NameOf | app/offline/narrator.js:263 | `players.find(...)?.name`: the name of the first player with the id, or `undefined` when there is none |
| Narrator.RecordTarget | app/offline/narrator.js:256-265 | the role's target and its name are recorded under the role's key, that key is the only one added, and every other entry is kept |
| Narrator.RecordTargetOverwrites | app/offline/narrator.js:258-265 | a later selection for a role replaces the earlier one |
| Narrator.NightVictim | app/offline/narrator.js:415-438 | a player dies only as the mafia's target, not saved by the doctor, found by id and alive; otherwise nobody dies |
| Narrator.AfterNight | app/offline/narrator.js:429-438 | the roster after the night's kill; its contract is carried by `Narrator.NightKillsAtMostOne` |
| Narrator.NightKillsAtMostOne | app/offline/narrator.js:415-438 | at most one player dies, nobody else changes, the living count drops by the number killed, and the doctor's target survives |
| Narrator.ActorActionsIgnored | app/offline/narrator.js:394-412 | actions recorded under a player's id by `submitNightAction` never change the victim or the detective's report |
| Narrator.DetectiveReportOf | app/offline/narrator.js:463-473 | a report exists exactly when the detective chose a target; it names the stored target name and says mafia exactly when the player found under the target id has the mafia role |
| Narrator.ReportUnaffectedByKill | app/offline/narrator.js:431-465 | the night's kill does not change the detective's report |
| Narrator.StaleNightSequenceResolvesNothing | app/offline/narrator.js:126-130 | resolving the night from the actions the sequence's closure holds (the empty map) kills no one and gives no detective report |
| Narrator.SelectedTargetDies | app/offline/narrator.js:256-265 | resolving from the current actions, a mafia choice of a living player kills that player, and a detective choice yields a report on the chosen player |
| Narrator.AddVote | app/offline/narrator.js:498-503 | a vote adds one to the chosen player's count and leaves every other count unchanged |
| Narrator.CastAll | app/offline/narrator.js:498-503 | the counts after a sequence of `castVote` calls; its contract is carried by `Narrator.CastAllCounts` |
| Narrator.CastAllCounts | app/offline/narrator.js:498-503 | after any sequence of votes each player's count is the number of votes for that player, and only players who got a vote have a count |
| Narrator.DayTimer | app/offline/narrator.js:485-489 | the clock is set to the minutes times 60 exactly when the time limit parses to a positive number |
| Narrator.NarratorGame.constructor | app/offline/narrator.js:32-56 | the initial state of the screen |
| Narrator.NarratorGame.SetPlayerCount | app/offline/narrator.js:562 | the count field holds the text typed |
| Narrator.NarratorGame.SetTimeLimit | app/offline/narrator.js:572 | the time-limit field holds the text typed |
| Narrator.NarratorGame.SetKillMode | app/offline/narrator.js:589 | the kill-mode switch holds the chosen value |
| Narrator.NarratorGame.StepRole | app/offline/narrator.js:606-657 | a counter button applies `Increment` or `Decrement` and keeps the screen's invariant |
| Narrator.NarratorGame.ProceedToNames | app/offline/narrator.js:277-287 | with the corrected guard: the names screen opens with `count` empty names exactly when the count is a number of at least 3; otherwise nothing changes |
| Narrator.NarratorGame.BackToSetup | app/offline/narrator.js:683 | the back button returns to setup |
| Narrator.NarratorGame.UpdatePlayerName | app/offline/narrator.js:289-293 | only the name at the index is replaced |
| Narrator.NarratorGame.GenerateRoles | app/offline/narrator.js:295-354 | refused with nothing changed as `CheckRoles` says; otherwise the assigned roles are a permutation of the built role list, one per player, and the players are numbered 1..n with the trimmed names, all alive |
| Narrator.NarratorGame.ShowNextRole | app/offline/narrator.js:356-366 | the next player is shown, or after the last one the night of round 1 begins |
| Narrator.NarratorGame.StartNightPhase | app/offline/narrator.js:368-377 | the night begins with no actions recorded |
| Narrator.NarratorGame.SelectNightTarget | app/offline/narrator.js:256-265 | the night actions become `RecordTarget` of the old ones |
| Narrator.NarratorGame.OpenNightAction | app/offline/narrator.js:379-392 | a dead player and a living villager are turned away and nothing changes; any other player becomes the one choosing |
| Narrator.NarratorGame.SubmitNightAction | app/offline/narrator.js:394-412 | without a chooser nothing changes; otherwise the choice is recorded under the chooser's id and the chooser is cleared |
| Narrator.NarratorGame.StartDayPhase | app/offline/narrator.js:480-490 | the day begins with no votes; the clock is set only when `DayTimer` gives a time |
| Narrator.NarratorGame.ProcessNightActions | app/offline/narrator.js:414-478 | in kill mode the roster becomes `AfterNight`, the victim (now dead) is added to the eliminated list and the detective's report is produced; outside kill mode nothing is killed; in every mode the actions are cleared and the day begins |
| Narrator.NarratorGame.StartVoting | app/offline/narrator.js:492-496 | voting begins with no votes |
| Narrator.NarratorGame.CastVote | app/offline/narrator.js:498-503 | the counts become `AddVote` of the old ones |
| Narrator.NarratorGame.ProcessVotes | app/offline/narrator.js:505-533 | no votes changes nothing; otherwise the outcome is `Resolve` of the counts, a unique leader alone is marked dead and its record from before the vote is added to the eliminated list, a tie kills no one, and the round goes up by exactly one as the night begins |
| Generator.NamesGuard | app/offline/generator.js:86-105 | refused for a non-numeric count or one below 3, then for more special roles than players; a count of 2^32 or more then throws in `Array(count)`; otherwise the names screen opens with `count` names |
| Generator.AliveOn | app/offline/generator.js:213-214 | the living players of a team, counted; its meaning is carried by `RoleCatalog.AliveMultiset`, `RoleCatalog.OnTeamMultiset` and `Generator.Winner` |
| Generator.AcceptedSetupFits | app/offline/generator.js:86-139 | a setup the guard accepts yields a role list of one role per player holding exactly the configured special roles |
| Generator.Winner | app/offline/generator.js:212-235 | town wins exactly when no mafia is alive; otherwise the mafia wins exactly when the living mafia are at least the living town; otherwise nobody has won |
| Generator.MafiaCountIsRoleCount | app/offline/generator.js:214 | the mafia players of a roster are the mafia entries of its roles |
| Generator.FreshGameVerdict | app/offline/generator.js:144-151 | a freshly dealt roster is already won, by the mafia, exactly when the mafia are at least half of the players |
| Generator.TownWinsOnceMafiaGone | app/offline/generator.js:217-224 | voting out the last living mafia member wins the game for the town |
| Generator.TalliedTargetsArePlayers | app/offline/generator.js:247-251 | when every ballot names a player, every counted target and so the eliminated id is a player |
| Generator.GeneratorGame.constructor | app/offline/generator.js:24-48 | the initial state of the screen |
| Generator.GeneratorGame.ResetGame | app/offline/generator.js:72-84 | setup again with no players, names or ballots, indices and clock at zero and no result; the counters and settings are kept |
| Generator.GeneratorGame.SetPlayerCount | app/offline/generator.js:289 | the count field holds the text typed |
| Generator.GeneratorGame.SetEnableTimer | app/offline/generator.js:370 | the timer switch holds the chosen value |
| Generator.GeneratorGame.SetTimeLimit | app/offline/generator.js:382 | the time-limit field holds the text typed |
| Generator.GeneratorGame.StepRole | app/offline/generator.js:306-359 | a counter button applies `Increment` or `Decrement` and keeps the screen's invariant |
| Generator.GeneratorGame.ProceedToNames | app/offline/generator.js:86-105 | the result is `NamesGuard`; on acceptance the names screen opens with `count` empty names; on a refusal or a throw nothing changes |
| Generator.GeneratorGame.BackToSetup | app/offline/generator.js:470 | the back button returns to setup |
| Generator.GeneratorGame.UpdatePlayerName | app/offline/generator.js:107-111 | only the name at the index is replaced |
| Generator.GeneratorGame.GenerateRoles | app/offline/generator.js:113-154 | refused with nothing changed exactly when a name is blank; otherwise the players' roles are a permutation of the built role list and the players are numbered 1..n with the trimmed names, all alive |
| Generator.GeneratorGame.ShowNextRole | app/offline/generator.js:156-171 | the next player is shown; after the last one the timer screen opens when the timer is enabled, and otherwise the screen is left |
| Generator.GeneratorGame.StartTimer | app/offline/generator.js:173-178 | the mode is set and the countdown started at the parsed minutes times 60, NaN exactly when the field is not a number |
| Generator.GeneratorGame.StartVoting | app/offline/generator.js:187-192 | no ballots, the first player votes first, and the sheet opens |
| Generator.GeneratorGame.CastVote | app/offline/generator.js:194-209 | the current voter's ballot is set, replacing an earlier one by the same voter; then the next player votes, or after the last one voting is complete |
| Generator.GeneratorGame.CheckWinCondition | app/offline/generator.js:212-235 | returns true exactly when `Winner` decides the game, and then moves to game over with that winner; otherwise nothing changes |
| Generator.GeneratorGame.CloseVoting | app/offline/generator.js:237-266 | the outcome is `Resolve` of one count per voter; only a unique leader is marked dead and then the win check runs on the new roster; a tie or no ballot kills no one; every branch closes the sheet, clears the ballots and the completion flag and resets the voter index |

## Left out

- Rendering, styles, `Alert` dialogs and router navigation: the alerts are
  represented by the result values of the handlers (`NamesStep`,
  `RoleCheck`, `NightOpen`, `Outcome`, `ShareRequest`, `JoinResult`).
- The `setInterval`/`setTimeout` countdowns that tick `timeRemaining` down,
  and the automated
  night sequence with its countdown (app/offline/narrator.js:126-254):
  event scheduling, not rules. The night sequence ends by calling
  `processNightActions`, which is modelled.
- Text-to-speech (app/offline/narrator.js:97-123), the clipboard and the
  share sheet: foreign calls; `CopyInvite` and `ShareInvite` return what
  would be copied or shared.
- The game log (`addLog`, app/offline/narrator.js:273-275): text with a
  wall-clock time, no effect on the rules.
- RoleCatalog.Shuffle: the `Math.random` comparator sort is modelled as
  some permutation; how likely each order is (the comparator is not
  uniform) is not modelled.
- Random room creation (`createRoom`, app/index.js:39-43): its code comes
  from `Math.random`; the name check it shares is `Invite.EnsureName`.
- The float percentage of the progress bar (app/offline/generator.js:569).
- Strings.ToUpper: only ASCII letters are upper-cased; Unicode case mapping
  is not modelled.
- React batching: each handler is modelled as taking effect at once on the
  state it reads. The night sequence runs `processNightActions` from a
  closure made when the night began; its consequence is recorded under
  "## Findings" and stated by `Narrator.StaleNightSequenceResolvesNothing`,
  while `Narrator.NarratorGame.ProcessNightActions` reads the current actions.
- Narrator.NarratorGame.GenerateRoles and Generator.GeneratorGame.GenerateRoles
  require that the count field parses to the number of names. The names
  screen is only reachable through `proceedToNames`, which creates exactly
  that many names, and the count field is only editable on the setup
  screen, so the handlers never see another state.
- Generator.GeneratorGame.CastVote requires the timer screen and a target
  that is a player: the ballot sheet only opens there and only lists the
  players. Dead players still get a turn to vote, as the source has it.
- The handlers' `phase == ...` preconditions (for example
  Narrator.NarratorGame.CastVote on the voting screen) say which screen
  shows the button; the source relies on the UI for this.
- `socket.js`, `app/rules.js`, `app/offline/index.js` and the online game
  and lobby screens: transport, static text and menu navigation.
- Integer width: counts and ids are unbounded integers. `Array(count)`
  throws for a count of 2^32 or more, and both setup guards model that
  (`CountRangeError`). `parseInt` of a numeral above 2^53 gives a rounded
  number in JavaScript, where the model keeps the exact value: such a
  player count throws either way, and such a time limit would give a
  rounded countdown in the source, which the model does not reproduce.

## Findings

| source | as written | input that shows it | evidently intended | confidence | as-written member | corrected member |
|---|---|---|---|---|---|---|
| app/offline/narrator.js:278-285 | only `count < 3` is refused, so a `NaN` count passes and `Array(NaN)` throws a RangeError | player-count field "" or "x" | refuse a non-numeric count like a count below 3, as app/offline/generator.js:90 does | not executed | Narrator.NamesGuardAsWritten, Narrator.NonNumericCountThrows | Narrator.NamesGuard, Narrator.NarratorGame.ProceedToNames |
| app/offline/narrator.js:221-227 | `startNightPhase` starts the night sequence from the render in which it was pressed, and every later step, down to `processNightActions`, reads that render's `nightActions`, which is still the empty map the previous night left | kill mode on, the mafia selects a living player the doctor did not choose | the night is resolved from the targets chosen during the sequence | not executed | Narrator.StaleNightSequenceResolvesNothing | Narrator.NarratorGame.ProcessNightActions, Narrator.SelectedTargetDies |
