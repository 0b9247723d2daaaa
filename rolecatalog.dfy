/**
 * The role catalogue shared by both offline screens, the role-count
 * configuration with its steppers, the construction of the role list and
 * of the players, and the roster counts the screens display.
 */
module RoleCatalog {
  import opened Options
  import opened Strings

  datatype Team = MafiaTeam | TownTeam

  datatype Role = Mafia | Detective | Doctor | Villager {
    /** Only the mafia role is on the mafia team. */
    function Team(): Team {
      if this == Mafia then MafiaTeam else TownTeam
    }
  }

  /** The three special-role counters of the setup screen. */
  datatype RoleConfig = RoleConfig(mafia: int, detective: int, doctor: int)

  const DefaultConfig := RoleConfig(1, 1, 1)

  predicate IsSpecial(r: Role) {
    r != Villager
  }

  function Count(c: RoleConfig, r: Role): int
    requires IsSpecial(r)
  {
    match r
    case Mafia => c.mafia
    case Detective => c.detective
    case Doctor => c.doctor
  }

  function TotalSpecial(c: RoleConfig): int {
    c.mafia + c.detective + c.doctor
  }

  /** The lowest value the "−" button leaves a counter at. */
  function Floor(r: Role): int
    requires IsSpecial(r)
  {
    if r == Mafia then 1 else 0
  }

  /** The setup screen's counters never go below their floors. */
  predicate ConfigInvariant(c: RoleConfig) {
    c.mafia >= 1 && c.detective >= 0 && c.doctor >= 0
  }

  function WithCount(c: RoleConfig, r: Role, v: int): (d: RoleConfig)
    requires IsSpecial(r)
    ensures Count(d, r) == v
    ensures forall q :: IsSpecial(q) && q != r ==> Count(d, q) == Count(c, q)
  {
    match r
    case Mafia => c.(mafia := v)
    case Detective => c.(detective := v)
    case Doctor => c.(doctor := v)
  }

  /** The "+" button of a role counter. */
  function Increment(c: RoleConfig, r: Role): (d: RoleConfig)
    requires IsSpecial(r)
    ensures Count(d, r) == Count(c, r) + 1
    ensures forall q :: IsSpecial(q) && q != r ==> Count(d, q) == Count(c, q)
  {
    WithCount(c, r, Count(c, r) + 1)
  }

  /** The "−" button: `Math.max(floor, n - 1)`. */
  function Decrement(c: RoleConfig, r: Role): (d: RoleConfig)
    requires IsSpecial(r)
    ensures Count(d, r) >= Floor(r)
    ensures Count(d, r) == Count(c, r) - 1 || (Count(d, r) == Floor(r) && Count(c, r) - 1 < Floor(r))
    ensures forall q :: IsSpecial(q) && q != r ==> Count(d, q) == Count(c, q)
  {
    var n := Count(c, r) - 1;
    WithCount(c, r, if n > Floor(r) then n else Floor(r))
  }

  /** Every sequence of button presses keeps at least one mafia and no
      negative counter. */
  lemma SteppersKeepInvariant(c: RoleConfig, r: Role, up: bool)
    requires IsSpecial(r) && ConfigInvariant(c)
    ensures ConfigInvariant(if up then Increment(c, r) else Decrement(c, r))
  {
    var d := if up then Increment(c, r) else Decrement(c, r);
    assert Count(d, Mafia) >= 1 && Count(d, Detective) >= 0 && Count(d, Doctor) >= 0;
  }

  // ---------------------------------------------------------------------
  // The role list
  // ---------------------------------------------------------------------

  /** The player-count test of the setup screens: a number, and at least 3. */
  predicate PlayerCountOk(count: Option<int>) {
    count.Some? && count.value >= 3
  }

  /** `Array(n)` with a single number throws a RangeError unless `n` is a
      whole number below 2^32; both setup screens size the names list so. */
  const ArrayLengthLimit := 0x1_0000_0000

  /** `n` copies of `x`; a negative `n` gives none, as a `for` loop up to `n` does. */
  function Repeat(x: Role, n: int): (s: seq<Role>)
    ensures |s| == if n > 0 then n else 0
    ensures forall i :: 0 <= i < |s| ==> s[i] == x
  {
    seq(if n > 0 then n else 0, _ => x)
  }

  function Clamp(n: int): nat {
    if n > 0 then n else 0
  }

  /** What the push loops of `generateRoles` build: the mafia, detective and
      doctor copies in that order, then villagers up to `count`. */
  function RoleList(c: RoleConfig, count: int): seq<Role> {
    var special := Repeat(Mafia, c.mafia) + Repeat(Detective, c.detective) + Repeat(Doctor, c.doctor);
    special + Repeat(Villager, count - |special|)
  }

  /** One `for` loop of `generateRoles`: `n` pushes of `x` onto `roles`. */
  method PushCopies(roles: seq<Role>, x: Role, n: int) returns (r: seq<Role>)
    ensures r == roles + Repeat(x, n)
  {
    r := roles;
    var i := 0;
    while i < n
      invariant 0 <= i <= Clamp(n)
      invariant r == roles + Repeat(x, i)
    {
      r := r + [x];
      i := i + 1;
    }
  }

  /** The push loops of `generateRoles`: the special roles, then villagers
      while the list is shorter than `count`. */
  method BuildRoles(c: RoleConfig, count: int) returns (roles: seq<Role>)
    ensures roles == RoleList(c, count)
  {
    roles := PushCopies([], Mafia, c.mafia);
    roles := PushCopies(roles, Detective, c.detective);
    roles := PushCopies(roles, Doctor, c.doctor);
    ghost var special := roles;
    while |roles| < count
      invariant |special| <= |roles|
      invariant |roles| == |special| || |roles| <= count
      invariant roles == special + Repeat(Villager, |roles| - |special|)
    {
      roles := roles + [Villager];
    }
  }

  /** `n` copies of `x` hold `x` that many times and nothing else. */
  lemma {:induction false} RepeatMultiset(x: Role, n: int)
    ensures multiset(Repeat(x, n)) == multiset{}[x := Clamp(n)]
    decreases Clamp(n)
  {
    if n > 0 {
      assert Repeat(x, n) == Repeat(x, n - 1) + [x];
      RepeatMultiset(x, n - 1);
    } else {
      assert Repeat(x, n) == [];
    }
  }

  /** For a configuration with no negative counter that fits the player
      count, the role list has one role per player. */
  lemma RoleListLength(c: RoleConfig, count: int)
    requires c.mafia >= 0 && c.detective >= 0 && c.doctor >= 0 && TotalSpecial(c) <= count
    ensures |RoleList(c, count)| == count
  {
  }

  /** The role list as a multiset: the configured copies of each special
      role and the villagers that fill it up to `count`. */
  lemma RoleListMultiset(c: RoleConfig, count: int)
    ensures multiset(RoleList(c, count)) ==
              multiset{}[Mafia := Clamp(c.mafia)] + multiset{}[Detective := Clamp(c.detective)] +
              multiset{}[Doctor := Clamp(c.doctor)] +
              multiset{}[Villager := Clamp(count - Clamp(c.mafia) - Clamp(c.detective) - Clamp(c.doctor))]
  {
    var m, d, o := Repeat(Mafia, c.mafia), Repeat(Detective, c.detective), Repeat(Doctor, c.doctor);
    var v := Repeat(Villager, count - |m + d + o|);
    assert RoleList(c, count) == m + d + o + v;
    RepeatMultiset(Mafia, c.mafia);
    RepeatMultiset(Detective, c.detective);
    RepeatMultiset(Doctor, c.doctor);
    RepeatMultiset(Villager, count - |m + d + o|);
  }

  /** The role list holds exactly the configured number of each special role,
      villagers fill the rest, and for a configuration that fits the player
      count its length is the player count. */
  lemma RoleListCounts(c: RoleConfig, count: int)
    ensures multiset(RoleList(c, count))[Mafia] == Clamp(c.mafia)
    ensures multiset(RoleList(c, count))[Detective] == Clamp(c.detective)
    ensures multiset(RoleList(c, count))[Doctor] == Clamp(c.doctor)
    ensures multiset(RoleList(c, count))[Villager] == Clamp(count - Clamp(c.mafia) - Clamp(c.detective) - Clamp(c.doctor))
    ensures c.mafia >= 0 && c.detective >= 0 && c.doctor >= 0 && TotalSpecial(c) <= count ==>
              |RoleList(c, count)| == count
  {
    RoleListMultiset(c, count);
  }

  /** `roles.sort(() => Math.random() - 0.5)`: some ordering of the roles,
      which one is not determined by the model. */
  method Shuffle(roles: seq<Role>) returns (shuffled: seq<Role>)
    ensures multiset(shuffled) == multiset(roles) && |shuffled| == |roles|
  {
    assert multiset(roles) == multiset(roles);
    shuffled :| multiset(shuffled) == multiset(roles);
    assert |shuffled| == |multiset(shuffled)| == |roles|;
  }

  // ---------------------------------------------------------------------
  // Players
  // ---------------------------------------------------------------------

  datatype Player = Player(id: int, name: string, role: Role, alive: bool)

  /** Every name has a visible character. */
  predicate AllNamed(names: seq<string>) {
    forall i :: 0 <= i < |names| ==> !IsBlank(names[i])
  }

  /** `playerNames.filter(name => !name.trim())`. */
  function EmptyNames(names: seq<string>): (r: seq<string>)
    ensures |r| <= |names|
    ensures r == [] <==> AllNamed(names)
  {
    if names == [] then []
    else
      TrimEmptyIffBlank(names[0]);
      (if Trim(names[0]) == [] then [names[0]] else []) + EmptyNames(names[1..])
  }

  /** Player i (from 0) has id i + 1, as `generateRoles` numbers them. */
  predicate IdsAreIndices(ps: seq<Player>) {
    forall i :: 0 <= i < |ps| ==> ps[i].id == i + 1
  }

  function RolesOf(ps: seq<Player>): (rs: seq<Role>)
    ensures |rs| == |ps| && forall i :: 0 <= i < |ps| ==> rs[i] == ps[i].role
  {
    seq(|ps|, i requires 0 <= i < |ps| => ps[i].role)
  }

  /** The `shuffled.map(...)` of `generateRoles`: numbered players with the
      trimmed names, one per role, all alive. */
  function MakePlayers(roles: seq<Role>, names: seq<string>): (ps: seq<Player>)
    requires |roles| <= |names|
    ensures |ps| == |roles| && IdsAreIndices(ps) && RolesOf(ps) == roles
    ensures forall i :: 0 <= i < |ps| ==> ps[i].alive && ps[i].name == Trim(names[i])
  {
    seq(|roles|, i requires 0 <= i < |roles| => Player(i + 1, Trim(names[i]), roles[i], true))
  }

  /** `i` is the index `players.find(p => p.id === id)` lands on. */
  predicate IsFirstWithId(ps: seq<Player>, i: int, id: int) {
    0 <= i < |ps| && ps[i].id == id && forall j :: 0 <= j < i ==> ps[j].id != id
  }

  /** `players.find(p => p.id === id)`, as an index. */
  function Find(ps: seq<Player>, id: int): (r: Option<nat>)
    ensures r.Some? ==> IsFirstWithId(ps, r.value, id)
    ensures r.None? ==> forall j :: 0 <= j < |ps| ==> ps[j].id != id
  {
    if ps == [] then None
    else if ps[0].id == id then Some(0)
    else match Find(ps[1..], id)
      case None => None
      case Some(k) => Some(k + 1)
  }

  lemma FindOfIndexedIds(ps: seq<Player>, id: int)
    requires IdsAreIndices(ps) && 1 <= id <= |ps|
    ensures Find(ps, id) == Some(id - 1)
  {
    assert ps[id - 1].id == id;
    var r := Find(ps, id);
    assert r.Some?;
    assert ps[r.value].id == r.value + 1;
  }

  /** `players.map(p => p.id === id ? { ...p, alive: false } : p)`. */
  function MarkDead(ps: seq<Player>, id: int): (qs: seq<Player>)
    ensures |qs| == |ps|
    ensures forall i :: 0 <= i < |ps| ==>
      qs[i] == if ps[i].id == id then ps[i].(alive := false) else ps[i]
  {
    seq(|ps|, i requires 0 <= i < |ps| => if ps[i].id == id then ps[i].(alive := false) else ps[i])
  }

  /** With ids 1..n, marking a player dead updates that one entry only, and
      keeps the numbering. */
  lemma MarkDeadOfIndexedIds(ps: seq<Player>, id: int)
    requires IdsAreIndices(ps) && 1 <= id <= |ps|
    ensures MarkDead(ps, id) == ps[id - 1 := ps[id - 1].(alive := false)]
    ensures IdsAreIndices(MarkDead(ps, id))
  {
  }

  // ---------------------------------------------------------------------
  // Roster counts
  // ---------------------------------------------------------------------

  /** `players.filter(p => p.alive)`. */
  function Alive(ps: seq<Player>): (r: seq<Player>)
    ensures |r| <= |ps|
    ensures forall p :: p in r ==> p in ps && p.alive
  {
    if ps == [] then []
    else (if ps[0].alive then [ps[0]] else []) + Alive(ps[1..])
  }

  /** `players.filter(p => p.role.team === team)`. */
  function OnTeam(ps: seq<Player>, t: Team): (r: seq<Player>)
    ensures |r| <= |ps|
    ensures forall p :: p in r ==> p in ps && p.role.Team() == t
  {
    if ps == [] then []
    else (if ps[0].role.Team() == t then [ps[0]] else []) + OnTeam(ps[1..], t)
  }

  /** The living players are exactly the players marked alive, each as often
      as in the roster. */
  lemma {:induction false} AliveMultiset(ps: seq<Player>)
    ensures forall p :: multiset(Alive(ps))[p] == if p.alive then multiset(ps)[p] else 0
  {
    if ps != [] {
      AliveMultiset(ps[1..]);
      assert ps == [ps[0]] + ps[1..];
      assert multiset(Alive(ps)) == multiset(if ps[0].alive then [ps[0]] else []) + multiset(Alive(ps[1..]));
    }
  }

  /** The players of a team are exactly the roster's players of that team,
      each as often as in the roster. */
  lemma {:induction false} OnTeamMultiset(ps: seq<Player>, t: Team)
    ensures forall p :: multiset(OnTeam(ps, t))[p] == if p.role.Team() == t then multiset(ps)[p] else 0
  {
    if ps != [] {
      OnTeamMultiset(ps[1..], t);
      assert ps == [ps[0]] + ps[1..];
      assert multiset(OnTeam(ps, t)) == multiset(if ps[0].role.Team() == t then [ps[0]] else []) + multiset(OnTeam(ps[1..], t));
    }
  }

  /** Every player is on exactly one team, so the mafia and town counts add
      up to the number of players counted. */
  lemma {:induction false} TeamsPartition(ps: seq<Player>)
    ensures |OnTeam(ps, MafiaTeam)| + |OnTeam(ps, TownTeam)| == |ps|
  {
    if ps != [] {
      TeamsPartition(ps[1..]);
    }
  }

  /** Killing a living player lowers the living count by exactly one; marking
      a dead player changes nothing counted. */
  lemma {:induction false} AliveAfterKill(ps: seq<Player>, k: int)
    requires 0 <= k < |ps|
    ensures |Alive(ps[k := ps[k].(alive := false)])| == |Alive(ps)| - (if ps[k].alive then 1 else 0)
  {
    var qs := ps[k := ps[k].(alive := false)];
    if k == 0 {
      assert qs[1..] == ps[1..];
    } else {
      assert qs[1..] == ps[1..][k - 1 := ps[k].(alive := false)];
      AliveAfterKill(ps[1..], k - 1);
    }
  }

  lemma OnTeamCons(p: Player, rest: seq<Player>, t: Team)
    ensures OnTeam([p] + rest, t) == (if p.role.Team() == t then [p] else []) + OnTeam(rest, t)
  {
    assert ([p] + rest)[1..] == rest;
  }

  /** The living members of a team, counted from the first player on. */
  lemma AliveOnTeamCons(ps: seq<Player>, t: Team)
    requires ps != []
    ensures |OnTeam(Alive(ps), t)| ==
              (if ps[0].alive && ps[0].role.Team() == t then 1 else 0) + |OnTeam(Alive(ps[1..]), t)|
  {
    if ps[0].alive {
      assert Alive(ps) == [ps[0]] + Alive(ps[1..]);
      OnTeamCons(ps[0], Alive(ps[1..]), t);
    } else {
      assert Alive(ps) == Alive(ps[1..]);
    }
  }

  /** Killing a player lowers the living count of that player's team by one
      when it was alive, and leaves the other team's count as it was. */
  lemma {:induction false} TeamAliveAfterKill(ps: seq<Player>, k: int, t: Team)
    requires 0 <= k < |ps|
    ensures |OnTeam(Alive(ps[k := ps[k].(alive := false)]), t)| ==
              |OnTeam(Alive(ps), t)| - (if ps[k].alive && ps[k].role.Team() == t then 1 else 0)
  {
    var qs := ps[k := ps[k].(alive := false)];
    AliveOnTeamCons(ps, t);
    AliveOnTeamCons(qs, t);
    if k == 0 {
      assert qs[1..] == ps[1..];
    } else {
      assert qs[1..] == ps[1..][k - 1 := ps[k].(alive := false)];
      TeamAliveAfterKill(ps[1..], k - 1, t);
    }
  }

  /** Marking a player dead changes no id, so looking players up by id finds
      the same index before and after. */
  lemma {:induction false} FindAfterKill(ps: seq<Player>, k: int, id: int)
    requires 0 <= k < |ps|
    ensures Find(ps[k := ps[k].(alive := false)], id) == Find(ps, id)
  {
    var qs := ps[k := ps[k].(alive := false)];
    if k > 0 {
      assert qs[1..] == ps[1..][k - 1 := ps[k].(alive := false)];
      FindAfterKill(ps[1..], k - 1, id);
    } else {
      assert qs[1..] == ps[1..];
    }
  }

  /** All players of a fresh roster are alive. */
  lemma {:induction false} AllAlive(ps: seq<Player>)
    requires forall i :: 0 <= i < |ps| ==> ps[i].alive
    ensures Alive(ps) == ps
  {
    if ps != [] {
      AllAlive(ps[1..]);
    }
  }
}
