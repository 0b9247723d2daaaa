/**
 * Vote counting shared by both offline screens: the highest count, the
 * "a tie at the maximum eliminates no one" rule, and the generator's
 * count of one vote per voter.
 */
module VoteTally {

  /** What counting the votes decides. */
  datatype Outcome = NoVotes | Tie | Eliminated(id: int)

  lemma HasMember(s: set<int>)
    requires s != {}
    ensures exists x :: x in s
  {
    if forall x :: x !in s { assert false; }
  }

  lemma HasKey(m: map<int, int>)
    requires m != map[]
    ensures exists k :: k in m
  {
    if forall k :: k !in m { assert false; }
  }

  lemma ValueHasKey(m: map<int, int>, v: int)
    requires v in m.Values
    ensures exists k :: k in m && m[k] == v
  {
    if forall k :: k in m ==> m[k] != v { assert false; }
  }

  lemma {:induction false} MaxExists(s: set<int>)
    requires s != {}
    ensures exists mx :: mx in s && forall v :: v in s ==> v <= mx
    decreases |s|
  {
    HasMember(s);
    var x :| x in s;
    var rest := s - {x};
    if rest != {} {
      MaxExists(rest);
      var m :| m in rest && forall v :: v in rest ==> v <= m;
      var best := if x > m then x else m;
      forall v | v in s ensures v <= best {
        assert v == x || v in rest;
      }
    } else {
      forall v | v in s ensures v <= x {
        assert v == x || v in rest;
      }
    }
  }

  /** `Math.max(...counts)`. */
  function MaxCount(counts: map<int, int>): (mx: int)
    requires counts != map[]
    ensures exists id :: id in counts && counts[id] == mx
    ensures forall id :: id in counts ==> counts[id] <= mx
  {
    HasKey(counts);
    var k :| k in counts;
    assert counts[k] in counts.Values;
    MaxExists(counts.Values);
    var mx :| mx in counts.Values && forall v :: v in counts.Values ==> v <= mx;
    assert forall id :: id in counts ==> counts[id] in counts.Values;
    ValueHasKey(counts, mx);
    mx
  }

  /** The ids holding the highest count (`tied` / `eliminatedIds`). */
  function Leaders(counts: map<int, int>): (tied: set<int>)
    requires counts != map[]
    ensures tied != {}
    ensures forall id :: id in tied <==> id in counts && counts[id] == MaxCount(counts)
  {
    var tied := set id | id in counts && counts[id] == MaxCount(counts);
    var w :| w in counts && counts[w] == MaxCount(counts);
    assert w in tied;
    tied
  }

  /** `id` has strictly more votes than every other candidate. */
  predicate StrictWinner(counts: map<int, int>, id: int) {
    id in counts && forall other :: other in counts && other != id ==> counts[other] < counts[id]
  }

  lemma SingletonHasOne(s: set<int>)
    requires |s| == 1
    ensures exists x :: s == {x}
  {
    HasMember(s);
    var x :| x in s;
    assert |s - {x}| == 0;
    assert s - {x} == {};
    assert s == {x};
  }

  /**
   * Resolving a vote count: no entries means no votes; a single id at the
   * maximum is eliminated; two or more ids at the maximum are a tie.
   */
  function Resolve(counts: map<int, int>): (o: Outcome)
    ensures o == NoVotes <==> counts == map[]
    ensures o.Eliminated? ==> StrictWinner(counts, o.id)
    ensures o == Tie ==> forall id :: !StrictWinner(counts, id)
  {
    if counts == map[] then NoVotes
    else
      var tied := Leaders(counts);
      if |tied| == 1 then
        SingletonHasOne(tied);
        var id :| id in tied;
        assert tied == {id};
        Eliminated(id)
      else
        assert forall id :: StrictWinner(counts, id) ==> tied == {id} by {
          forall id | StrictWinner(counts, id) ensures tied == {id} {
            var w :| w in counts && counts[w] == MaxCount(counts);
            assert w == id;
            assert forall t :: t in tied ==> t == id;
          }
        }
        Tie
  }

  lemma StrictWinnerUnique(counts: map<int, int>, a: int, b: int)
    requires StrictWinner(counts, a) && StrictWinner(counts, b)
    ensures a == b
  {
  }

  /** There is someone to eliminate exactly when one candidate strictly
      leads; otherwise the outcome is "no votes" or a tie. */
  lemma ResolveWinnerIff(counts: map<int, int>, id: int)
    ensures Resolve(counts) == Eliminated(id) <==> StrictWinner(counts, id)
  {
    var o := Resolve(counts);
    if StrictWinner(counts, id) && o.Eliminated? {
      StrictWinnerUnique(counts, id, o.id);
    }
  }

  /** Two players level at the top count tie; a single leader is eliminated. */
  lemma ResolveExamples()
    ensures Resolve(map[1 := 2, 2 := 2, 3 := 1]) == Tie
    ensures Resolve(map[1 := 3, 2 := 1]) == Eliminated(1)
  {
    var tie := map[1 := 2, 2 := 2, 3 := 1];
    assert !StrictWinner(tie, 1) && !StrictWinner(tie, 2);
    ResolveWinnerIff(map[1 := 3, 2 := 1], 1);
  }

  // ---------------------------------------------------------------------
  // One vote per voter (the generator's ballots)
  // ---------------------------------------------------------------------

  /** The voters whose ballot names `target`. */
  function VotersFor(ballots: map<int, int>, target: int): set<int> {
    set v | v in ballots && ballots[v] == target
  }

  /** The count every target ought to get: one per voter naming it. */
  function CountsOf(ballots: map<int, int>): map<int, int> {
    map t | t in ballots.Values :: |VotersFor(ballots, t)|
  }

  /** A voter restricted to a set of voters. */
  function Restrict(ballots: map<int, int>, voters: set<int>): map<int, int> {
    map v | v in ballots && v in voters :: ballots[v]
  }

  /** `counts` is the count of the ballots in `partial`. */
  predicate CountsMatch(counts: map<int, int>, partial: map<int, int>) {
    && counts.Keys == partial.Values
    && forall t :: t in counts ==> counts[t] == |VotersFor(partial, t)|
  }

  lemma CountsMatchIsCountsOf(counts: map<int, int>, ballots: map<int, int>)
    requires CountsMatch(counts, ballots)
    ensures counts == CountsOf(ballots)
  {
  }

  lemma RestrictAdd(ballots: map<int, int>, done: set<int>, v: int)
    requires v in ballots
    ensures Restrict(ballots, done + {v}) == Restrict(ballots, done)[v := ballots[v]]
  {
  }

  lemma VotersForAdd(m: map<int, int>, v: int, t: int)
    requires v !in m
    ensures VotersFor(m[v := t], t) == VotersFor(m, t) + {v}
    ensures v !in VotersFor(m, t)
    ensures forall u :: u != t ==> VotersFor(m[v := t], u) == VotersFor(m, u)
  {
  }

  lemma ValuesAdd(m: map<int, int>, v: int, t: int)
    requires v !in m
    ensures m[v := t].Values == m.Values + {t}
  {
    var n := m[v := t];
    forall u | u in n.Values ensures u in m.Values + {t} {
      ValueHasKey(n, u);
      var k :| k in n && n[k] == u;
      if k != v {
        assert m[k] == u && m[k] in m.Values;
      }
    }
    forall u | u in m.Values ensures u in n.Values {
      ValueHasKey(m, u);
      var k :| k in m && m[k] == u;
      assert n[k] == u && n[k] in n.Values;
    }
    assert n[v] in n.Values;
  }

  lemma NoVotersWithoutValue(m: map<int, int>, t: int)
    requires t !in m.Values
    ensures VotersFor(m, t) == {}
  {
    forall w | w in m ensures m[w] != t {
      assert m[w] in m.Values;
    }
  }

  /** Counting one more ballot increments its target's entry, creating it
      at 1 when the target had none. */
  lemma CountStep(counts: map<int, int>, m: map<int, int>, v: int, t: int)
    requires v !in m && CountsMatch(counts, m)
    ensures CountsMatch(counts[t := (if t in counts then counts[t] else 0) + 1], m[v := t])
  {
    VotersForAdd(m, v, t);
    ValuesAdd(m, v, t);
    if t !in counts {
      NoVotersWithoutValue(m, t);
    }
  }

  /** The `forEach` of `closeVoting`: one increment per ballot. */
  method Tally(ballots: map<int, int>) returns (counts: map<int, int>)
    ensures counts == CountsOf(ballots)
  {
    counts := map[];
    var remaining := ballots.Keys;
    ghost var done: set<int> := {};
    assert Restrict(ballots, done) == map[];
    while remaining != {}
      invariant remaining !! done && remaining + done == ballots.Keys
      invariant CountsMatch(counts, Restrict(ballots, done))
      decreases remaining
    {
      HasMember(remaining);
      var v :| v in remaining;
      var t := ballots[v];
      RestrictAdd(ballots, done, v);
      CountStep(counts, Restrict(ballots, done), v, t);
      counts := counts[t := (if t in counts then counts[t] else 0) + 1];
      done := done + {v};
      remaining := remaining - {v};
    }
    assert Restrict(ballots, done) == ballots;
    CountsMatchIsCountsOf(counts, ballots);
  }

  /** Each voter's ballot is counted for its target, and nobody who got no
      ballot appears in the count. */
  lemma CountsOfBallots(ballots: map<int, int>, v: int, t: int)
    ensures v in ballots ==> ballots[v] in CountsOf(ballots) && CountsOf(ballots)[ballots[v]] >= 1
    ensures t in CountsOf(ballots) <==> exists w :: w in ballots && ballots[w] == t
  {
    if v in ballots {
      assert v in VotersFor(ballots, ballots[v]);
    }
    if t in CountsOf(ballots) {
      ValueHasKey(ballots, t);
    }
  }
}
