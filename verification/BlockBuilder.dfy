/** Which transactions go into the next block. */
module BlockBuilder {
  import opened Options
  import opened Select
  import opened Pools

  datatype Limits = Limits(maxTx: int, minGasPrice: nat, baseFee: nat, blockGasLimit: nat)

  function EffectivePrice(t: Tx, baseFee: nat): nat {
    if t.maxFeePerGas > 0 && t.maxPriorityFeePerGas > 0 then
      (if t.maxFeePerGas < baseFee + t.maxPriorityFeePerGas then t.maxFeePerGas else baseFee + t.maxPriorityFeePerGas)
    else t.gasPrice
  }

  predicate CanPayBaseFee(t: Tx, baseFee: nat) {
    (if t.maxFeePerGas > 0 then t.maxFeePerGas else t.gasPrice) >= baseFee
  }

  predicate Eligible(t: Tx, minGasPrice: nat, baseFee: nat) {
    CanPayBaseFee(t, baseFee) && EffectivePrice(t, baseFee) >= minGasPrice
  }

  function PriceCompare(baseFee: nat): (Tx, Tx) -> int {
    (a: Tx, b: Tx) =>
      if EffectivePrice(a, baseFee) != EffectivePrice(b, baseFee) then
        (if EffectivePrice(a, baseFee) > EffectivePrice(b, baseFee) then -1 else 1)
      else if a.nonce != b.nonce then (if a.nonce < b.nonce then -1 else 1)
      else a.receivedAt - b.receivedAt
  }

  lemma PricePreorder(baseFee: nat)
    ensures TotalPreorder(PriceCompare(baseFee)) && SignsAgree(PriceCompare(baseFee))
  {
    var c := PriceCompare(baseFee);
    assert forall x, y :: Leq(c, x, y) <==>
      EffectivePrice(x, baseFee) > EffectivePrice(y, baseFee)
      || (EffectivePrice(x, baseFee) == EffectivePrice(y, baseFee)
          && (x.nonce < y.nonce || (x.nonce == y.nonce && x.receivedAt <= y.receivedAt)));
  }

  /** The fee cap of `t` covers the base fee: the cap of the fee market if there is one, else the gas price. */
  ghost predicate Covers(t: Tx, baseFee: nat) {
    (t.maxFeePerGas > 0 && t.maxFeePerGas >= baseFee) || (t.maxFeePerGas == 0 && t.gasPrice >= baseFee)
  }

  /** What a unit of gas brings in: with a cap and a tip the lower of cap and base fee plus tip, else the gas price. */
  lemma PriceIs(t: Tx, baseFee: nat)
    ensures var p := EffectivePrice(t, baseFee);
            if t.maxFeePerGas > 0 && t.maxPriorityFeePerGas > 0
            then p <= t.maxFeePerGas && p <= baseFee + t.maxPriorityFeePerGas
                 && (p == t.maxFeePerGas || p == baseFee + t.maxPriorityFeePerGas)
            else p == t.gasPrice
  {
  }

  /** Eligible is exactly what covers the base fee at no less than the minimum price. */
  lemma EligibleExactly(t: Tx, lim: Limits)
    ensures Eligible(t, lim.minGasPrice, lim.baseFee) <==>
            Covers(t, lim.baseFee)
            && if t.maxFeePerGas > 0 && t.maxPriorityFeePerGas > 0
               then t.maxFeePerGas >= lim.minGasPrice && lim.baseFee + t.maxPriorityFeePerGas >= lim.minGasPrice
               else t.gasPrice >= lim.minGasPrice
  {
  }

  /** A transaction with only a gas price pays that; one with a cap and a tip pays by them. */
  lemma DecodedPrice(d: Decoded, now: int, baseFee: nat)
    requires d.from.Some?
    ensures d.gasPrice.Some? && d.maxFeePerGas.None? && d.maxPriorityFeePerGas.None? ==>
              EffectivePrice(Item(d, now), baseFee) == d.gasPrice.value
              && (Covers(Item(d, now), baseFee) <==> d.gasPrice.value >= baseFee)
    ensures d.maxFeePerGas.Some? && d.maxPriorityFeePerGas.Some? && d.maxFeePerGas.value > 0
            && d.maxPriorityFeePerGas.value > 0 ==>
              EffectivePrice(Item(d, now), baseFee) <= d.maxFeePerGas.value
              && EffectivePrice(Item(d, now), baseFee) <= baseFee + d.maxPriorityFeePerGas.value
              && (Covers(Item(d, now), baseFee) <==> d.maxFeePerGas.value >= baseFee)
  {
  }

  function GasOf(s: seq<Tx>): nat {
    if s == [] then 0 else GasOf(s[..|s| - 1]) + s[|s| - 1].gasLimit
  }

  function CountFrom(s: seq<Tx>, sender: string): nat {
    if s == [] then 0 else CountFrom(s[..|s| - 1], sender) + (if s[|s| - 1].from == sender then 1 else 0)
  }

  /** Gas and count add up over the transactions. */
  lemma {:induction false} SumsOf(a: seq<Tx>, b: seq<Tx>, sender: string)
    ensures GasOf(a + b) == GasOf(a) + GasOf(b)
    ensures CountFrom(a + b, sender) == CountFrom(a, sender) + CountFrom(b, sender)
    ensures |b| == 1 ==> GasOf(b) == b[0].gasLimit && CountFrom(b, sender) == if b[0].from == sender then 1 else 0
  {
    if b == [] {
      assert a + b == a;
    } else {
      assert (a + b)[..|a + b| - 1] == a + b[..|b| - 1];
      SumsOf(a, b[..|b| - 1], sender);
    }
  }

  /** Each pick of a sender has the next nonce, starting from the nonce on chain. */
  ghost predicate ConsecutiveNonces(picked: seq<Tx>, onchain: string -> Option<nat>) {
    forall i :: 0 <= i < |picked| ==>
      onchain(picked[i].from).Some?
        && picked[i].nonce == onchain(picked[i].from).value + CountFrom(picked[..i], picked[i].from)
  }

  /** A nonce between the one on chain and the next expected one has been picked. */
  lemma {:induction false} PickedNonces(picked: seq<Tx>, onchain: string -> Option<nat>, sender: string, nonce: nat)
    requires ConsecutiveNonces(picked, onchain) && onchain(sender).Some?
    requires onchain(sender).value <= nonce < onchain(sender).value + CountFrom(picked, sender)
    ensures exists t :: t in picked && t.from == sender && t.nonce == nonce
  {
    var init, last := picked[..|picked| - 1], picked[|picked| - 1];
    assert forall i :: 0 <= i < |init| ==> init[i] == picked[i] && init[..i] == picked[..i];
    if last.from == sender && last.nonce == nonce {
      assert last in picked;
    } else {
      PickedNonces(init, onchain, sender, nonce);
      assert forall t :: t in init ==> t in picked;
    }
  }

  function EligibleOf(s: seq<Tx>, lim: Limits): seq<Tx> {
    if s == [] then []
    else
      var last := s[|s| - 1];
      EligibleOf(s[..|s| - 1], lim) + (if Eligible(last, lim.minGasPrice, lim.baseFee) then [last] else [])
  }

  lemma {:induction false} EligibleMembers(s: seq<Tx>, lim: Limits, t: Tx)
    ensures t in EligibleOf(s, lim) <==> t in s && Eligible(t, lim.minGasPrice, lim.baseFee)
  {
    if s != [] {
      EligibleMembers(s[..|s| - 1], lim, t);
      assert s == s[..|s| - 1] + [s[|s| - 1]];
    }
  }

  lemma {:induction false} EligibleDistinct(s: seq<Tx>, lim: Limits)
    requires DistinctHashes(s)
    ensures DistinctHashes(EligibleOf(s, lim))
  {
    if s != [] {
      var init, last := s[..|s| - 1], s[|s| - 1];
      EligibleDistinct(init, lim);
      var r := EligibleOf(init, lim);
      forall i | 0 <= i < |r| ensures r[i].hash != last.hash {
        EligibleMembers(init, lim, r[i]);
      }
    }
  }

  ghost predicate NotAfter(lim: Limits, a: Tx, b: Tx) { Leq(PriceCompare(lim.baseFee), a, b) }

  /** The eligible transactions of the pool, each once, in the order of the block builder. */
  ghost predicate Ranked(txs: map<string, Tx>, sorted: seq<Tx>, lim: Limits) {
    DistinctHashes(sorted)
    && (forall t :: t in sorted ==> t.hash in txs && txs[t.hash] == t && Eligible(t, lim.minGasPrice, lim.baseFee))
    && (forall i, j :: 0 <= i < j < |sorted| ==> NotAfter(lim, sorted[i], sorted[j]))
  }

  method RankedValues(txs: map<string, Tx>, lim: Limits) returns (sorted: seq<Tx>)
    requires HashIndex(txs)
    ensures Ranked(txs, sorted, lim)
    ensures forall h :: h in txs && Eligible(txs[h], lim.minGasPrice, lim.baseFee) ==> txs[h] in sorted
  {
    var all := Values(txs);
    var eligible := EligibleOf(all, lim);
    sorted := StableSort(eligible, PriceCompare(lim.baseFee));
    SortedEligible(txs, all, lim);
  }

  lemma SortedMembers(all: seq<Tx>, lim: Limits, t: Tx)
    ensures t in StableSort(EligibleOf(all, lim), PriceCompare(lim.baseFee))
            <==> t in all && Eligible(t, lim.minGasPrice, lim.baseFee)
  {
    var eligible := EligibleOf(all, lim);
    PricePreorder(lim.baseFee);
    SortCorrect(eligible, PriceCompare(lim.baseFee));
    EligibleMembers(all, lim, t);
    assert t in StableSort(eligible, PriceCompare(lim.baseFee))
           <==> t in multiset(StableSort(eligible, PriceCompare(lim.baseFee)));
    assert t in eligible <==> t in multiset(eligible);
  }

  lemma SortedRanks(all: seq<Tx>, lim: Limits)
    requires DistinctHashes(all)
    ensures var sorted := StableSort(EligibleOf(all, lim), PriceCompare(lim.baseFee));
            DistinctHashes(sorted) && forall i, j :: 0 <= i < j < |sorted| ==> NotAfter(lim, sorted[i], sorted[j])
  {
    var eligible := EligibleOf(all, lim);
    PricePreorder(lim.baseFee);
    SortCorrect(eligible, PriceCompare(lim.baseFee));
    EligibleDistinct(all, lim);
    DistinctPermuted(eligible, StableSort(eligible, PriceCompare(lim.baseFee)));
  }

  lemma SortedEligible(txs: map<string, Tx>, all: seq<Tx>, lim: Limits)
    requires Listing(txs, all) && forall h :: h in txs ==> txs[h] in all
    ensures var sorted := StableSort(EligibleOf(all, lim), PriceCompare(lim.baseFee));
            Ranked(txs, sorted, lim)
            && forall h :: h in txs && Eligible(txs[h], lim.minGasPrice, lim.baseFee) ==> txs[h] in sorted
  {
    var sorted := StableSort(EligibleOf(all, lim), PriceCompare(lim.baseFee));
    SortedRanks(all, lim);
    forall t | t in sorted ensures t.hash in txs && txs[t.hash] == t && Eligible(t, lim.minGasPrice, lim.baseFee) {
      SortedMembers(all, lim, t);
    }
    forall h | h in txs && Eligible(txs[h], lim.minGasPrice, lim.baseFee) ensures txs[h] in sorted {
      SortedMembers(all, lim, txs[h]);
    }
  }

  lemma DistinctPermuted(s: seq<Tx>, r: seq<Tx>)
    requires DistinctHashes(s) && multiset(s) == multiset(r)
    ensures DistinctHashes(r)
  {
    forall i, j | 0 <= i < j < |r| ensures r[i].hash != r[j].hash {
      assert r[i] in multiset(r) && r[j] in multiset(r);
      assert r[i] in multiset(s) && r[j] in multiset(s);
      assert r[i] in s && r[j] in s;
      if r[i] == r[j] {
        RepeatedMultiplicity(r, i, j);
        DistinctMultiplicity(s, r[i]);
        assert false;
      }
    }
  }

  /** Already used on chain. */
  predicate Stale(t: Tx, onchain: string -> Option<nat>) {
    onchain(t.from).Some? && t.nonce < onchain(t.from).value
  }

  /** What bars `t` from a block that has `picked` so far. */
  predicate Barred(t: Tx, picked: seq<Tx>, lim: Limits, onchain: string -> Option<nat>) {
    |picked| >= lim.maxTx || GasOf(picked) + t.gasLimit > lim.blockGasLimit
    || onchain(t.from).None? || t.nonce != onchain(t.from).value + CountFrom(picked, t.from)
  }

  /** The block was full, had no gas left for `t`, or still missed an earlier transaction of its sender. */
  ghost predicate NoPlace(t: Tx, picked: seq<Tx>, lim: Limits, onchain: string -> Option<nat>) {
    |picked| >= lim.maxTx || GasOf(picked) + t.gasLimit > lim.blockGasLimit
    || onchain(t.from).None? || t.nonce > onchain(t.from).value + CountFrom(picked, t.from)
  }

  /** `t` came up when the first `k` picks had been made, all ranked before it, and there was no place for it. */
  ghost predicate PassedOver(t: Tx, picked: seq<Tx>, k: nat, lim: Limits, onchain: string -> Option<nat>) {
    k <= |picked| && NoPlace(t, picked[..k], lim, onchain)
    && (forall m :: 0 <= m < k ==> NotAfter(lim, picked[m], t))
    && (forall m :: k <= m < |picked| ==> NotAfter(lim, t, picked[m]))
  }

  /**
   * A block: within the limits, only eligible transactions, by falling price, with consecutive nonces from the chain's.
   */
  ghost predicate ValidBlock(picked: seq<Tx>, lim: Limits, onchain: string -> Option<nat>) {
    |picked| <= Max(0, lim.maxTx) && GasOf(picked) <= lim.blockGasLimit
    && (forall t :: t in picked ==> Eligible(t, lim.minGasPrice, lim.baseFee))
    && (forall i, j :: 0 <= i < j < |picked| ==> NotAfter(lim, picked[i], picked[j]))
    && ConsecutiveNonces(picked, onchain)
  }

  /** Whatever is in a block covers the base fee, and earns the minimum price. */
  lemma PickedPays(picked: seq<Tx>, lim: Limits, onchain: string -> Option<nat>, t: Tx)
    requires ValidBlock(picked, lim, onchain) && t in picked
    ensures t.maxFeePerGas >= lim.baseFee || (t.maxFeePerGas == 0 && t.gasPrice >= lim.baseFee)
    ensures EffectivePrice(t, lim.baseFee) >= lim.minGasPrice
  {
    EligibleExactly(t, lim);
  }

  /** The order of a block: falling price, then rising nonce, then age. */
  lemma PricesFall(picked: seq<Tx>, lim: Limits, onchain: string -> Option<nat>, i: nat, j: nat)
    requires ValidBlock(picked, lim, onchain) && i < j < |picked|
    ensures EffectivePrice(picked[i], lim.baseFee) >= EffectivePrice(picked[j], lim.baseFee)
    ensures EffectivePrice(picked[i], lim.baseFee) == EffectivePrice(picked[j], lim.baseFee) ==>
              picked[i].nonce < picked[j].nonce
              || (picked[i].nonce == picked[j].nonce && picked[i].receivedAt <= picked[j].receivedAt)
  {
    assert NotAfter(lim, picked[i], picked[j]);
  }

  lemma {:induction false} NoneBetween(s: seq<Tx>, sender: string)
    requires forall k :: 0 <= k < |s| ==> s[k].from != sender
    ensures CountFrom(s, sender) == 0
  {
    if s != [] {
      NoneBetween(s[..|s| - 1], sender);
    }
  }

  lemma CountUpTo(s: seq<Tx>, i: int, j: nat, sender: string)
    requires -1 <= i < j <= |s| && (i >= 0 ==> s[i].from == sender) && forall k :: i < k < j ==> s[k].from != sender
    ensures CountFrom(s[..j], sender) == if i >= 0 then CountFrom(s[..i], sender) + 1 else 0
  {
    var first, rest := s[..i + 1], s[i + 1..j];
    NoneBetween(rest, sender);
    assert s[..j] == first + rest;
    SumsOf(first, rest, sender);
    if i >= 0 {
      assert first == s[..i] + [s[i]];
      SumsOf(s[..i], [s[i]], sender);
    }
  }

  /** The first pick of a sender has the nonce on chain, and each later one the nonce after the one before. */
  lemma NoncesClimb(picked: seq<Tx>, lim: Limits, onchain: string -> Option<nat>, i: int, j: nat)
    requires ValidBlock(picked, lim, onchain) && -1 <= i < j < |picked|
    requires i >= 0 ==> picked[i].from == picked[j].from
    requires forall k :: i < k < j ==> picked[k].from != picked[j].from
    ensures onchain(picked[j].from).Some?
    ensures picked[j].nonce == if i >= 0 then picked[i].nonce + 1 else onchain(picked[j].from).value
  {
    CountUpTo(picked, i, j, picked[j].from);
    assert i >= 0 ==> picked[i].nonce == onchain(picked[i].from).value + CountFrom(picked[..i], picked[i].from);
  }

  /** Picked, or passed over for a reason. */
  ghost predicate Settled(u: Tx, picked: seq<Tx>, lim: Limits, onchain: string -> Option<nat>) {
    u in picked || exists k: nat :: PassedOver(u, picked, k, lim, onchain)
  }

  // ----- the greedy choice

  /** The picks out of a ranked list. */
  function Picks(s: seq<Tx>, lim: Limits, onchain: string -> Option<nat>): seq<Tx> {
    if s == [] then []
    else
      var picked, t := Picks(s[..|s| - 1], lim, onchain), s[|s| - 1];
      if Barred(t, picked, lim, onchain) then picked else picked + [t]
  }

  /** The transaction is dropped from the pool when it comes up: its nonce is below the next expected one. */
  predicate Falls(t: Tx, picked: seq<Tx>, lim: Limits, onchain: string -> Option<nat>) {
    |picked| < lim.maxTx && GasOf(picked) + t.gasLimit <= lim.blockGasLimit
    && onchain(t.from).Some? && t.nonce < onchain(t.from).value + CountFrom(picked, t.from)
  }

  function Drops(s: seq<Tx>, lim: Limits, onchain: string -> Option<nat>): seq<Tx> {
    if s == [] then []
    else
      var init, t := s[..|s| - 1], s[|s| - 1];
      Drops(init, lim, onchain) + (if Falls(t, Picks(init, lim, onchain), lim, onchain) then [t] else [])
  }

  /** Eligible transactions in rank order, no hash and no slot twice. */
  ghost predicate InRank(s: seq<Tx>, lim: Limits) {
    (forall i :: 0 <= i < |s| ==> Eligible(s[i], lim.minGasPrice, lim.baseFee))
    && (forall i, j :: 0 <= i < j < |s| ==>
        NotAfter(lim, s[i], s[j]) && s[i].hash != s[j].hash && SlotOf(s[i]) != SlotOf(s[j]))
  }

  lemma RankedInPool(p: Pool, s: seq<Tx>, lim: Limits)
    requires Coherent(p) && Ranked(p.txs, s, lim)
    ensures InRank(s, lim)
  {
    forall i, j | 0 <= i < j < |s| ensures SlotOf(s[i]) != SlotOf(s[j]) {
      assert s[i] in s && s[j] in s;
      assert p.txs[s[i].hash] == s[i] && p.txs[s[j].hash] == s[j];
    }
    forall i | 0 <= i < |s| ensures Eligible(s[i], lim.minGasPrice, lim.baseFee) {
      assert s[i] in s;
    }
  }

  lemma {:induction false} PicksFrom(s: seq<Tx>, lim: Limits, onchain: string -> Option<nat>, t: Tx)
    requires t in Picks(s, lim, onchain)
    ensures t in s
  {
    assert s == s[..|s| - 1] + [s[|s| - 1]];
    if t in Picks(s[..|s| - 1], lim, onchain) {
      PicksFrom(s[..|s| - 1], lim, onchain, t);
    }
  }

  /** All picks rank before the next transaction and hold other slots. */
  lemma PicksBefore(s: seq<Tx>, lim: Limits, onchain: string -> Option<nat>, t: Tx)
    requires InRank(s, lim) && s != [] && t in Picks(s[..|s| - 1], lim, onchain)
    ensures NotAfter(lim, t, s[|s| - 1]) && t.hash != s[|s| - 1].hash && SlotOf(t) != SlotOf(s[|s| - 1])
  {
    PicksFrom(s[..|s| - 1], lim, onchain, t);
    var j :| 0 <= j < |s| - 1 && s[..|s| - 1][j] == t;
    assert s[j] == t;
  }

  lemma Extended(picked: seq<Tx>, t: Tx)
    ensures (picked + [t])[..|picked|] == picked && GasOf(picked + [t]) == GasOf(picked) + t.gasLimit
    ensures forall s :: CountFrom(picked + [t], s) == CountFrom(picked, s) + (if t.from == s then 1 else 0)
  {
    assert (picked + [t])[..|picked|] == picked;
  }

  lemma BlockGrows(picked: seq<Tx>, t: Tx, lim: Limits, onchain: string -> Option<nat>)
    requires ValidBlock(picked, lim, onchain) && !Barred(t, picked, lim, onchain)
             && Eligible(t, lim.minGasPrice, lim.baseFee)
    requires forall u :: u in picked ==> NotAfter(lim, u, t)
    ensures ValidBlock(picked + [t], lim, onchain)
  {
    Extended(picked, t);
    var all := picked + [t];
    forall i | 0 <= i < |all|
      ensures onchain(all[i].from).Some?
              && all[i].nonce == onchain(all[i].from).value + CountFrom(all[..i], all[i].from)
    {
      if i < |picked| {
        assert all[..i] == picked[..i];
      }
    }
    forall i, j | 0 <= i < j < |all| ensures NotAfter(lim, all[i], all[j]) {
      if j == |picked| {
        assert all[i] in picked;
      }
    }
  }

  lemma {:induction false} PicksMakeBlock(s: seq<Tx>, lim: Limits, onchain: string -> Option<nat>)
    requires InRank(s, lim)
    ensures ValidBlock(Picks(s, lim, onchain), lim, onchain)
  {
    if s != [] {
      PicksMakeBlock(s[..|s| - 1], lim, onchain);
      var picked, t := Picks(s[..|s| - 1], lim, onchain), s[|s| - 1];
      if !Barred(t, picked, lim, onchain) {
        forall u | u in picked ensures NotAfter(lim, u, t) {
          PicksBefore(s, lim, onchain, u);
        }
        BlockGrows(picked, t, lim, onchain);
      }
    }
  }

  /**
   * Although the expected nonce moves with the picks, whatever is dropped
   * was used on chain: a slot is never held twice.
   */
  lemma FallenIsStale(s: seq<Tx>, lim: Limits, onchain: string -> Option<nat>)
    requires InRank(s, lim) && s != [] && Falls(s[|s| - 1], Picks(s[..|s| - 1], lim, onchain), lim, onchain)
    ensures Stale(s[|s| - 1], onchain)
  {
    var picked, t := Picks(s[..|s| - 1], lim, onchain), s[|s| - 1];
    PicksMakeBlock(s[..|s| - 1], lim, onchain);
    forall u | u in picked ensures SlotOf(u) != SlotOf(t) {
      PicksBefore(s, lim, onchain, u);
    }
    if t.nonce >= onchain(t.from).value {
      PickedNonces(picked, onchain, t.from, t.nonce);
      assert false;
    }
  }

  lemma {:induction false} DropsAreStale(s: seq<Tx>, lim: Limits, onchain: string -> Option<nat>, t: Tx)
    requires InRank(s, lim) && t in Drops(s, lim, onchain)
    ensures t in s && Stale(t, onchain) && t !in Picks(s, lim, onchain)
  {
    var init, last := s[..|s| - 1], s[|s| - 1];
    assert s == init + [last];
    if t in Drops(init, lim, onchain) {
      DropsAreStale(init, lim, onchain, t);
      var j :| 0 <= j < |init| && init[j] == t;
      assert s[j].hash != last.hash;
    } else {
      FallenIsStale(s, lim, onchain);
      if t in Picks(init, lim, onchain) {
        PicksBefore(s, lim, onchain, t);
      }
    }
  }

  lemma SettledPersists(u: Tx, picked: seq<Tx>, t: Tx, lim: Limits, onchain: string -> Option<nat>)
    requires Settled(u, picked, lim, onchain) && NotAfter(lim, u, t)
    ensures Settled(u, picked + [t], lim, onchain)
  {
    if k: nat :| PassedOver(u, picked, k, lim, onchain) {
      assert (picked + [t])[..k] == picked[..k];
      assert PassedOver(u, picked + [t], k, lim, onchain);
    }
  }

  /** No ranked transaction that is not dropped is left out without a reason. */
  lemma {:induction false} AllSettled(s: seq<Tx>, lim: Limits, onchain: string -> Option<nat>, u: Tx)
    requires InRank(s, lim) && u in s && u !in Drops(s, lim, onchain)
    ensures Settled(u, Picks(s, lim, onchain), lim, onchain)
  {
    var init, t := s[..|s| - 1], s[|s| - 1];
    var picked := Picks(init, lim, onchain);
    assert s == init + [t];
    if u in init {
      AllSettled(init, lim, onchain, u);
      RankedBefore(s, lim, u);
      SettledPersists(u, picked, t, lim, onchain);
    } else if Barred(t, picked, lim, onchain) {
      LastPassedOver(s, lim, onchain);
    }
  }

  lemma RankedBefore(s: seq<Tx>, lim: Limits, u: Tx)
    requires InRank(s, lim) && s != [] && u in s[..|s| - 1]
    ensures NotAfter(lim, u, s[|s| - 1])
  {
    var j :| 0 <= j < |s| - 1 && s[..|s| - 1][j] == u;
    assert s[j] == u;
  }

  lemma LastPassedOver(s: seq<Tx>, lim: Limits, onchain: string -> Option<nat>)
    requires InRank(s, lim) && s != [] && Barred(s[|s| - 1], Picks(s[..|s| - 1], lim, onchain), lim, onchain)
    requires !Falls(s[|s| - 1], Picks(s[..|s| - 1], lim, onchain), lim, onchain)
    ensures var picked := Picks(s[..|s| - 1], lim, onchain);
            PassedOver(s[|s| - 1], picked, |picked|, lim, onchain)
  {
    var picked := Picks(s[..|s| - 1], lim, onchain);
    assert picked[..|picked|] == picked;
    forall m | 0 <= m < |picked| ensures NotAfter(lim, picked[m], s[|s| - 1]) {
      PicksBefore(s, lim, onchain, picked[m]);
    }
  }

  /** Once the count limit is reached nothing more is picked or dropped. */
  lemma {:induction false} FullBlock(s: seq<Tx>, n: nat, lim: Limits, onchain: string -> Option<nat>)
    requires n <= |s| && |Picks(s[..n], lim, onchain)| >= lim.maxTx
    ensures Picks(s, lim, onchain) == Picks(s[..n], lim, onchain)
            && Drops(s, lim, onchain) == Drops(s[..n], lim, onchain)
  {
    if n < |s| {
      assert s[..|s| - 1][..n] == s[..n];
      FullBlock(s[..|s| - 1], n, lim, onchain);
    } else {
      assert s[..n] == s;
    }
  }

  // ----- what this does to the pool

  /**
   * Nothing changes but that transactions from before the cutoff or with a nonce used on chain are dropped; of those
   * from before the cutoff none is left.
   */
  ghost predicate DropsOnly(before: map<string, Tx>, after: map<string, Tx>, cutoff: int, sweeps: bool,
                            onchain: string -> Option<nat>)
  {
    after.Keys <= before.Keys && (forall h :: h in after ==> after[h] == before[h])
    && (forall h :: h in before && h !in after ==>
          before[h].receivedAt < cutoff
          || (onchain(before[h].from).Some? && before[h].nonce < onchain(before[h].from).value))
    && (sweeps ==> forall h :: h in after ==> after[h].receivedAt >= cutoff)
  }

  /** The pool `mid` without the drops still holds the picks, and lost stale transactions only. */
  lemma PoolAfterPicks(mid: Pool, s: seq<Tx>, lim: Limits, onchain: string -> Option<nat>)
    requires Coherent(mid) && Ranked(mid.txs, s, lim)
    ensures var after := mid.txs - Hashes(Drops(s, lim, onchain));
            (forall t :: t in Picks(s, lim, onchain) ==> t.hash in after && after[t.hash] == t)
            && (forall h :: h in mid.txs && h !in after ==> Stale(mid.txs[h], onchain))
  {
    RankedInPool(mid, s, lim);
    var gone := Hashes(Drops(s, lim, onchain));
    forall h | h in mid.txs && h in gone ensures Stale(mid.txs[h], onchain) {
      var t :| t in Drops(s, lim, onchain) && t.hash == h;
      DropsAreStale(s, lim, onchain, t);
    }
    forall t | t in Picks(s, lim, onchain) ensures t.hash in mid.txs && mid.txs[t.hash] == t && t.hash !in gone {
      PicksFrom(s, lim, onchain, t);
      if t.hash in gone {
        var u :| u in Drops(s, lim, onchain) && u.hash == t.hash;
        DropsAreStale(s, lim, onchain, u);
        assert false;
      }
    }
  }

  lemma NothingForgotten(p: Pool, s: seq<Tx>, lim: Limits, onchain: string -> Option<nat>, h: string)
    requires Coherent(p) && Ranked(p.txs, s, lim) && h in p.txs && p.txs[h] in s
    requires h !in Hashes(Drops(s, lim, onchain))
    ensures Settled(p.txs[h], Picks(s, lim, onchain), lim, onchain)
  {
    RankedInPool(p, s, lim);
    assert p.txs[h].hash == h;
    AllSettled(s, lim, onchain, p.txs[h]);
  }

  lemma EmptyBlockSettles(txs: map<string, Tx>, lim: Limits, onchain: string -> Option<nat>)
    requires lim.maxTx <= 0 || |txs| == 0
    ensures forall h :: h in txs ==> Settled(txs[h], [], lim, onchain)
  {
    forall h | h in txs ensures Settled(txs[h], [], lim, onchain) {
      assert PassedOver(txs[h], [], 0, lim, onchain);
    }
  }

  // ----- expected nonces

  function FetchedNonce(onchain: string -> Option<nat>, sender: string): int {
    if onchain(sender).Some? then onchain(sender).value else -1
  }

  /** Next nonce of each sender in the list, from the fetched one and the picks so far. */
  ghost predicate Expects(expected: map<string, int>, s: seq<Tx>, picked: seq<Tx>, onchain: string -> Option<nat>) {
    forall i :: 0 <= i < |s| ==>
      s[i].from in expected
      && expected[s[i].from]
         == (if onchain(s[i].from).None? then -1 else onchain(s[i].from).value + CountFrom(picked, s[i].from))
  }

  method FetchNonces(s: seq<Tx>, onchain: string -> Option<nat>) returns (expected: map<string, int>)
    ensures Expects(expected, s, [], onchain)
  {
    expected := map[];
    for i := 0 to |s|
      invariant forall j :: 0 <= j < i ==> s[j].from in expected
      invariant forall x :: x in expected ==> expected[x] == FetchedNonce(onchain, x)
    {
      expected := expected[s[i].from := FetchedNonce(onchain, s[i].from)];
    }
  }

  lemma ExpectsNext(expected: map<string, int>, s: seq<Tx>, picked: seq<Tx>, t: Tx, onchain: string -> Option<nat>)
    requires Expects(expected, s, picked, onchain) && t.from in expected && onchain(t.from).Some?
    ensures Expects(expected[t.from := expected[t.from] + 1], s, picked + [t], onchain)
  {
    Extended(picked, t);
  }
}
