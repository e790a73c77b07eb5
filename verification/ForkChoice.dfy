/** Choosing between forks. */
module ForkChoice {
  import opened Options
  import opened Text

  datatype Candidate = Candidate(height: int, tipHash: string, bftFinalized: bool, cumulativeWeight: int,
                                 peerId: string)

  datatype Reason = BftFinality | LongerChain | HigherWeight | LowerHash | LowerPeerId | Equal

  datatype Choice = Choice(winner: Candidate, loser: Candidate, reason: Reason)

  /** Dictionary order of strings. */
  predicate Less(s: string, t: string) {
    if t == "" then false
    else if s == "" then true
    else s[0] < t[0] || (s[0] == t[0] && Less(s[1..], t[1..]))
  }

  function CompareForks(a: Candidate, b: Candidate): Choice {
    if a.bftFinalized && !b.bftFinalized then Choice(a, b, BftFinality)
    else if b.bftFinalized && !a.bftFinalized then Choice(b, a, BftFinality)
    else if a.height > b.height then Choice(a, b, LongerChain)
    else if b.height > a.height then Choice(b, a, LongerChain)
    else if a.cumulativeWeight > b.cumulativeWeight then Choice(a, b, HigherWeight)
    else if b.cumulativeWeight > a.cumulativeWeight then Choice(b, a, HigherWeight)
    else if Less(Lower(a.tipHash), Lower(b.tipHash)) then Choice(a, b, LowerHash)
    else if Less(Lower(b.tipHash), Lower(a.tipHash)) then Choice(b, a, LowerHash)
    else if Less(a.peerId, b.peerId) then Choice(a, b, LowerPeerId)
    else if Less(b.peerId, a.peerId) then Choice(b, a, LowerPeerId)
    else Choice(a, b, Equal)
  }

  // ----- dictionary order is a strict total order

  lemma {:induction false} LessIrreflexive(s: string)
    ensures !Less(s, s)
  {
    if s != "" { LessIrreflexive(s[1..]); }
  }

  lemma {:induction false} LessTransitive(s: string, t: string, u: string)
    requires Less(s, t) && Less(t, u)
    ensures Less(s, u)
  {
    if s != "" && s[0] == t[0] && t[0] == u[0] {
      LessTransitive(s[1..], t[1..], u[1..]);
    }
  }

  lemma {:induction false} LessTotal(s: string, t: string)
    ensures Less(s, t) || Less(t, s) || s == t
  {
    if s != "" && t != "" && s[0] == t[0] {
      LessTotal(s[1..], t[1..]);
      assert s == [s[0]] + s[1..] && t == [t[0]] + t[1..];
    }
  }

  lemma LessAsymmetric(s: string, t: string)
    ensures !(Less(s, t) && Less(t, s))
  {
    if Less(s, t) && Less(t, s) {
      LessTransitive(s, t, s);
      LessIrreflexive(s);
    }
  }

  ghost predicate LessAt(s: string, t: string, k: nat) {
    k <= |s| && k < |t| && (forall i :: 0 <= i < k ==> s[i] == t[i]) && (k == |s| || s[k] < t[k])
  }

  /** Dictionary order: at the first difference the lower character decides, and a proper prefix comes first. */
  lemma {:induction false} LessExactly(s: string, t: string)
    ensures Less(s, t) <==> exists k: nat :: LessAt(s, t, k)
  {
    if s != "" && t != "" && s[0] == t[0] {
      LessExactly(s[1..], t[1..]);
      if k: nat :| LessAt(s[1..], t[1..], k) {
        assert forall i :: 0 <= i < k ==> s[i + 1] == s[1..][i] && t[i + 1] == t[1..][i];
        assert LessAt(s, t, k + 1);
      }
      if k: nat :| LessAt(s, t, k) {
        assert LessAt(s[1..], t[1..], k - 1);
      }
    } else if Less(s, t) {
      assert LessAt(s, t, 0);
    }
  }

  // ----- the order behind the comparison

  /** The rules in order: BFT finality, height, weight, lower hash without regard to letter case, lower peer id. */
  predicate Better(a: Candidate, b: Candidate) {
    if a.bftFinalized != b.bftFinalized then a.bftFinalized
    else if a.height != b.height then a.height > b.height
    else if a.cumulativeWeight != b.cumulativeWeight then a.cumulativeWeight > b.cumulativeWeight
    else if Lower(a.tipHash) != Lower(b.tipHash) then Less(Lower(a.tipHash), Lower(b.tipHash))
    else Less(a.peerId, b.peerId)
  }

  predicate SameKey(a: Candidate, b: Candidate) {
    a.bftFinalized == b.bftFinalized && a.height == b.height && a.cumulativeWeight == b.cumulativeWeight
    && Lower(a.tipHash) == Lower(b.tipHash) && a.peerId == b.peerId
  }

  /** `Better` is a strict total order up to the letter case of hashes. */
  lemma BetterIsTotalOrder(a: Candidate, b: Candidate, c: Candidate)
    ensures !Better(a, a)
    ensures Better(a, b) || Better(b, a) || SameKey(a, b)
    ensures !(Better(a, b) && Better(b, a))
    ensures Better(a, b) && Better(b, c) ==> Better(a, c)
    ensures SameKey(a, b) ==> (Better(a, c) <==> Better(b, c)) && (Better(c, a) <==> Better(c, b)) && !Better(a, b)
  {
    var x, y, z := Lower(a.tipHash), Lower(b.tipHash), Lower(c.tipHash);
    LessIrreflexive(a.peerId);
    LessTotal(x, y);
    LessTotal(a.peerId, b.peerId);
    LessAsymmetric(x, y);
    LessAsymmetric(a.peerId, b.peerId);
    if Less(x, y) && Less(y, z) {
      LessTransitive(x, y, z);
      LessAsymmetric(x, z);
      LessIrreflexive(x);
    }
    if Less(a.peerId, b.peerId) && Less(b.peerId, c.peerId) {
      LessTransitive(a.peerId, b.peerId, c.peerId);
    }
  }

  /** The comparison picks the better one, names the other the loser, and says "equal" exactly for equal keys. */
  lemma CompareIsBetter(a: Candidate, b: Candidate)
    ensures CompareForks(a, b).reason == Equal <==> SameKey(a, b)
    ensures CompareForks(a, b).winner == (if Better(b, a) then b else a)
    ensures CompareForks(a, b).loser == (if Better(b, a) then a else b)
  {
    var x, y := Lower(a.tipHash), Lower(b.tipHash);
    LessTotal(x, y);
    LessAsymmetric(x, y);
    LessIrreflexive(x);
    LessTotal(a.peerId, b.peerId);
    LessAsymmetric(a.peerId, b.peerId);
    LessIrreflexive(a.peerId);
  }

  /** Finality, height and weight are equal. */
  ghost predicate SameStanding(a: Candidate, b: Candidate) {
    a.bftFinalized == b.bftFinalized && a.height == b.height && a.cumulativeWeight == b.cumulativeWeight
  }

  /**
   * The reason is the first rule on which the two differ, and by it the winner is ahead: BFT finality, the longer
   * chain, the higher weight, the lower hash, the lower peer id.
   */
  lemma ReasonDecides(a: Candidate, b: Candidate)
    ensures var c := CompareForks(a, b);
            (c.winner, c.loser) in {(a, b), (b, a)}
            && match c.reason
               case BftFinality => c.winner.bftFinalized && !c.loser.bftFinalized
               case LongerChain => a.bftFinalized == b.bftFinalized && c.winner.height > c.loser.height
               case HigherWeight =>
                 a.bftFinalized == b.bftFinalized && a.height == b.height
                 && c.winner.cumulativeWeight > c.loser.cumulativeWeight
               case LowerHash => SameStanding(a, b) && Less(Lower(c.winner.tipHash), Lower(c.loser.tipHash))
               case LowerPeerId =>
                 SameStanding(a, b) && Lower(a.tipHash) == Lower(b.tipHash) && Less(c.winner.peerId, c.loser.peerId)
               case Equal => SameStanding(a, b) && Lower(a.tipHash) == Lower(b.tipHash) && a.peerId == b.peerId
  {
    LessTotal(Lower(a.tipHash), Lower(b.tipHash));
    LessTotal(a.peerId, b.peerId);
  }

  // ----- the best of many

  function Best(cs: seq<Candidate>): Candidate
    requires cs != []
  {
    if |cs| == 1 then cs[0] else CompareForks(Best(cs[..|cs| - 1]), cs[|cs| - 1]).winner
  }

  method SelectBestFork(candidates: seq<Candidate>) returns (r: Option<Candidate>)
    ensures r == if candidates == [] then None else Some(Best(candidates))
  {
    if |candidates| == 0 { return None; }
    if |candidates| == 1 { return Some(candidates[0]); }
    var best := candidates[0];
    assert candidates[..1] == [candidates[0]];
    for i := 1 to |candidates|
      invariant best == Best(candidates[..i])
    {
      assert candidates[..i + 1][..i] == candidates[..i];
      best := CompareForks(best, candidates[i]).winner;
    }
    assert candidates[..|candidates|] == candidates;
    return Some(best);
  }

  /** The best is one of the candidates, and none is better. */
  lemma {:induction false} BestIsMaximum(cs: seq<Candidate>)
    requires cs != []
    ensures Best(cs) in cs && forall c :: c in cs ==> !Better(c, Best(cs))
  {
    if |cs| == 1 {
      BetterIsTotalOrder(cs[0], cs[0], cs[0]);
    } else {
      var init, last := cs[..|cs| - 1], cs[|cs| - 1];
      BestIsMaximum(init);
      CompareIsBetter(Best(init), last);
      assert cs == init + [last];
      forall c | c in cs ensures !Better(c, Best(cs)) {
        BetterIsTotalOrder(c, last, Best(init));
        BetterIsTotalOrder(last, last, last);
      }
    }
  }

  /** Which candidate is best does not depend on their order, up to the letter case of its hash. */
  lemma BestOfPermutation(cs: seq<Candidate>, ds: seq<Candidate>)
    requires cs != [] && multiset(cs) == multiset(ds)
    ensures ds != [] && SameKey(Best(cs), Best(ds))
    ensures (forall c, d :: c in cs && d in cs && SameKey(c, d) ==> c == d) ==> Best(cs) == Best(ds)
  {
    assert |ds| == |multiset(ds)| == |cs|;
    assert forall c :: c in cs <==> c in multiset(cs);
    assert forall c :: c in ds <==> c in multiset(ds);
    BestIsMaximum(cs);
    BestIsMaximum(ds);
    BetterIsTotalOrder(Best(cs), Best(ds), Best(cs));
  }

  // ----- switching

  function ShouldSwitchFork(local: Candidate, remote: Candidate): Option<Choice> {
    var choice := CompareForks(local, remote);
    if choice.winner == remote && choice.reason != Equal then Some(choice) else None
  }

  lemma SwitchesExactlyToBetter(local: Candidate, remote: Candidate)
    ensures ShouldSwitchFork(local, remote).Some? <==> Better(remote, local)
  {
    CompareIsBetter(local, remote);
    BetterIsTotalOrder(local, remote, local);
  }

  ghost predicate IsSwitchRun(run: seq<Candidate>) {
    forall i :: 0 < i < |run| ==> ShouldSwitchFork(run[i - 1], run[i]).Some?
  }

  /** Along any run of switches the fork only gets better, so none is ever taken up again. */
  lemma {:induction false} SwitchesAscend(run: seq<Candidate>, i: nat, j: nat)
    requires IsSwitchRun(run) && i < j < |run|
    ensures Better(run[j], run[i]) && !SameKey(run[i], run[j]) && run[i] != run[j]
  {
    SwitchesExactlyToBetter(run[j - 1], run[j]);
    if i < j - 1 {
      SwitchesAscend(run, i, j - 1);
      BetterIsTotalOrder(run[j], run[j - 1], run[i]);
    }
    BetterIsTotalOrder(run[i], run[j], run[i]);
    BetterIsTotalOrder(run[j], run[i], run[j]);
  }
}
