/** Stake-weighted quorums. */
module Quorum {
  import opened Text

  datatype Validator = Validator(id: string, stake: nat)

  const MAX_SAFE_INTEGER: nat := 9007199254740991

  function TotalStake(vs: seq<Validator>): nat {
    if vs == [] then 0 else TotalStake(vs[..|vs| - 1]) + vs[|vs| - 1].stake
  }

  function QuorumThreshold(vs: seq<Validator>): nat {
    var total := TotalStake(vs);
    if total == 0 then MAX_SAFE_INTEGER else total * 2 / 3 + 1
  }

  /** Lower-cased id to stake; a later entry with the same id wins. */
  function StakeMap(vs: seq<Validator>): map<string, nat> {
    if vs == [] then map[]
    else StakeMap(vs[..|vs| - 1])[Lower(vs[|vs| - 1].id) := vs[|vs| - 1].stake]
  }

  function AccumulatedStake(voterIds: seq<string>, vs: seq<Validator>): nat {
    if voterIds == [] then 0
    else
      var id := Lower(voterIds[|voterIds| - 1]);
      AccumulatedStake(voterIds[..|voterIds| - 1], vs) + (if id in StakeMap(vs) then StakeMap(vs)[id] else 0)
  }

  predicate HasQuorum(voterIds: seq<string>, vs: seq<Validator>) {
    AccumulatedStake(voterIds, vs) >= QuorumThreshold(vs)
  }

  function IdSet(vs: seq<Validator>): set<string> {
    set v | v in vs :: Lower(v.id)
  }

  // ----- the same quantities for sets of lower-cased ids, by recursion over the validators

  /** The stake held by the ids in `s`, each id counted once with the stake of its last entry. */
  function StakeOf(s: set<string>, vs: seq<Validator>): nat {
    if vs == [] then 0
    else
      var v := vs[|vs| - 1];
      (if Lower(v.id) in s then v.stake else 0) + StakeOf(s - {Lower(v.id)}, vs[..|vs| - 1])
  }

  predicate IsQuorum(s: set<string>, vs: seq<Validator>) {
    StakeOf(s, vs) >= QuorumThreshold(vs)
  }

  function LoweredIds(ids: seq<string>): set<string> {
    set id | id in ids :: Lower(id)
  }

  predicate DistinctLowered(ids: seq<string>) {
    forall i, j :: 0 <= i < j < |ids| ==> Lower(ids[i]) != Lower(ids[j])
  }

  lemma {:induction false} StakeSplit(a: set<string>, b: set<string>, vs: seq<Validator>)
    ensures StakeOf(a + b, vs) + StakeOf(a * b, vs) == StakeOf(a, vs) + StakeOf(b, vs)
  {
    if vs != [] {
      var x := Lower(vs[|vs| - 1].id);
      StakeSplit(a - {x}, b - {x}, vs[..|vs| - 1]);
      assert (a + b) - {x} == (a - {x}) + (b - {x});
      assert (a * b) - {x} == (a - {x}) * (b - {x});
    }
  }

  lemma {:induction false} StakeWithinTotal(s: set<string>, vs: seq<Validator>)
    ensures StakeOf(s, vs) <= TotalStake(vs)
  {
    if vs != [] {
      StakeWithinTotal(s - {Lower(vs[|vs| - 1].id)}, vs[..|vs| - 1]);
    }
  }

  lemma {:induction false} StakeOfNobody(vs: seq<Validator>)
    ensures StakeOf({}, vs) == 0
  {
    if vs != [] {
      StakeOfNobody(vs[..|vs| - 1]);
      assert {} - {Lower(vs[|vs| - 1].id)} == {};
    }
  }

  lemma StakeMonotone(a: set<string>, b: set<string>, vs: seq<Validator>)
    requires a <= b
    ensures StakeOf(a, vs) <= StakeOf(b, vs)
    ensures IsQuorum(a, vs) ==> IsQuorum(b, vs)
  {
    StakeSplit(a, b - a, vs);
    assert a + (b - a) == b && a * (b - a) == {};
    StakeOfNobody(vs);
  }

  lemma {:induction false} StakeOfOne(x: string, vs: seq<Validator>)
    ensures StakeOf({x}, vs) == if x in StakeMap(vs) then StakeMap(vs)[x] else 0
  {
    if vs != [] {
      var y := Lower(vs[|vs| - 1].id);
      if x == y {
        assert {x} - {y} == {};
        StakeOfNobody(vs[..|vs| - 1]);
      } else {
        assert {x} - {y} == {x};
        StakeOfOne(x, vs[..|vs| - 1]);
      }
    }
  }

  /** Only ids of the validator list carry stake. */
  lemma {:induction false} StakeOfStrangers(s: set<string>, vs: seq<Validator>)
    requires s !! IdSet(vs)
    ensures StakeOf(s, vs) == 0
  {
    if vs != [] {
      var v := vs[|vs| - 1];
      assert v in vs && Lower(v.id) in IdSet(vs);
      assert forall w :: w in vs[..|vs| - 1] ==> w in vs;
      StakeOfStrangers(s - {Lower(v.id)}, vs[..|vs| - 1]);
    }
  }

  /** The reduction over an array of voters gives the stake of their set, in whatever order they are listed. */
  lemma {:induction false} AccumulatedIsStakeOf(ids: seq<string>, vs: seq<Validator>)
    requires DistinctLowered(ids)
    ensures AccumulatedStake(ids, vs) == StakeOf(LoweredIds(ids), vs)
    ensures HasQuorum(ids, vs) <==> IsQuorum(LoweredIds(ids), vs)
  {
    if ids == [] {
      assert LoweredIds(ids) == {};
      StakeOfNobody(vs);
    } else {
      var n := |ids| - 1;
      var init, x := ids[..n], Lower(ids[n]);
      AccumulatedIsStakeOf(init, vs);
      assert ids == init + [ids[n]];
      assert LoweredIds(ids) == LoweredIds(init) + {x};
      assert x !in LoweredIds(init);
      assert LoweredIds(init) * {x} == {};
      StakeSplit(LoweredIds(init), {x}, vs);
      StakeOfOne(x, vs);
      StakeOfNobody(vs);
    }
  }

  /** Two quorums share more than a third of the total stake, whatever the stakes; with no stake there is no quorum. */
  lemma QuorumOverlap(a: set<string>, b: set<string>, vs: seq<Validator>)
    requires IsQuorum(a, vs) && IsQuorum(b, vs)
    ensures 3 * StakeOf(a * b, vs) > TotalStake(vs) > 0
  {
    StakeSplit(a, b, vs);
    StakeWithinTotal(a + b, vs);
    StakeWithinTotal(a, vs);
  }

  /** A quorum is exactly a set with more than two thirds of the total stake, also when there is no stake at all. */
  lemma QuorumExactly(s: set<string>, vs: seq<Validator>)
    ensures IsQuorum(s, vs) <==> 3 * StakeOf(s, vs) > 2 * TotalStake(vs)
  {
    StakeWithinTotal(s, vs);
  }

  /** So is a list of voters, each named once. */
  lemma ListQuorumExactly(ids: seq<string>, vs: seq<Validator>)
    requires DistinctLowered(ids)
    ensures HasQuorum(ids, vs) <==> 3 * AccumulatedStake(ids, vs) > 2 * TotalStake(vs)
  {
    AccumulatedIsStakeOf(ids, vs);
    QuorumExactly(LoweredIds(ids), vs);
  }

  /** The total counts every entry. */
  lemma {:induction false} TotalOfConcat(a: seq<Validator>, b: seq<Validator>)
    ensures TotalStake(a + b) == TotalStake(a) + TotalStake(b)
    ensures |b| == 1 ==> TotalStake(b) == b[0].stake
  {
    if b == [] {
      assert a + b == a;
    } else {
      assert (a + b)[..|a + b| - 1] == a + b[..|b| - 1];
      TotalOfConcat(a, b[..|b| - 1]);
    }
  }

  ghost predicate DistinctValidators(vs: seq<Validator>) {
    forall i, j :: 0 <= i < j < |vs| ==> Lower(vs[i].id) != Lower(vs[j].id)
  }

  /** The last entry with an id gives its stake. */
  lemma {:induction false} StakeOfEntry(vs: seq<Validator>, i: nat)
    requires i < |vs| && forall j :: i < j < |vs| ==> Lower(vs[j].id) != Lower(vs[i].id)
    ensures StakeOf({Lower(vs[i].id)}, vs) == vs[i].stake
  {
    var x, y := Lower(vs[i].id), Lower(vs[|vs| - 1].id);
    if i == |vs| - 1 {
      assert {x} - {y} == {};
      StakeOfNobody(vs[..|vs| - 1]);
    } else {
      assert {x} - {y} == {x};
      StakeOfEntry(vs[..|vs| - 1], i);
    }
  }

  /** With no id twice, all validators together hold the total. */
  lemma {:induction false} StakeOfAll(vs: seq<Validator>)
    requires DistinctValidators(vs)
    ensures StakeOf(IdSet(vs), vs) == TotalStake(vs)
  {
    if vs != [] {
      var init, v := vs[..|vs| - 1], vs[|vs| - 1];
      StakeOfAll(init);
      assert vs == init + [v];
      assert IdSet(vs) - {Lower(v.id)} == IdSet(init);
      assert Lower(v.id) in IdSet(vs) by { assert v in vs; }
    }
  }

  lemma EmptySetIsNoQuorum(vs: seq<Validator>)
    ensures !IsQuorum({}, vs)
  {
    StakeOfNobody(vs);
  }
}
