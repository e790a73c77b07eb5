/** The transaction pool object. */
module Mempool {
  import opened Options
  import opened Text
  import opened Pools
  import opened BlockBuilder

  /** The picking loop has gone through the first `i` ranked transactions. */
  ghost predicate Reached(before: Pool, s: seq<Tx>, i: nat, picked: seq<Tx>, pool: Pool, lim: Limits,
                          onchain: string -> Option<nat>)
  {
    i <= |s| && picked == Picks(s[..i], lim, onchain) && pool == RemoveAll(before, Drops(s[..i], lim, onchain))
  }

  lemma ReachedNext(before: Pool, s: seq<Tx>, i: nat, picked: seq<Tx>, pool: Pool, lim: Limits,
                    onchain: string -> Option<nat>)
    requires Reached(before, s, i, picked, pool, lim, onchain) && i < |s|
    ensures Reached(before, s, i + 1, if Barred(s[i], picked, lim, onchain) then picked else picked + [s[i]],
                    if Falls(s[i], picked, lim, onchain) then Remove(pool, s[i].hash) else pool, lim, onchain)
  {
    assert s[..i + 1][..i] == s[..i];
    var d := Drops(s[..i], lim, onchain);
    assert (d + [s[i]])[..|d|] == d && d + [] == d;
  }

  /** What the branches of the loop test. */
  lemma Branches(s: seq<Tx>, i: nat, picked: seq<Tx>, expected: map<string, int>, lim: Limits,
                 onchain: string -> Option<nat>)
    requires i < |s| && |picked| < lim.maxTx && Expects(expected, s, picked, onchain)
    ensures s[i].from in expected
    ensures var tooMuchGas, next := GasOf(picked) + s[i].gasLimit > lim.blockGasLimit, expected[s[i].from];
            (Falls(s[i], picked, lim, onchain) <==> !tooMuchGas && next != -1 && s[i].nonce < next)
            && (!Barred(s[i], picked, lim, onchain) <==> !tooMuchGas && s[i].nonce == next)
            && (!Barred(s[i], picked, lim, onchain) ==> onchain(s[i].from).Some?)
  {
  }

  /** What the loop keeps: besides `Reached`, the gas so far and the next nonce of every sender. */
  ghost predicate Looping(before: Pool, s: seq<Tx>, i: nat, picked: seq<Tx>, expected: map<string, int>, gas: int,
                          pool: Pool, lim: Limits, onchain: string -> Option<nat>)
  {
    Reached(before, s, i, picked, pool, lim, onchain) && gas == GasOf(picked) && Expects(expected, s, picked, onchain)
  }

  lemma LoopingStarts(before: Pool, s: seq<Tx>, expected: map<string, int>, lim: Limits, onchain: string -> Option<nat>)
    requires Expects(expected, s, [], onchain)
    ensures Looping(before, s, 0, [], expected, 0, before, lim, onchain)
  {
    assert s[..0] == [];
  }

  lemma LoopingNext(before: Pool, s: seq<Tx>, i: nat, picked: seq<Tx>, expected: map<string, int>, gas: int, pool: Pool,
                    lim: Limits, onchain: string -> Option<nat>)
    requires Looping(before, s, i, picked, expected, gas, pool, lim, onchain) && i < |s| && |picked| < lim.maxTx
    ensures s[i].from in expected
    ensures var t, next := s[i], expected[s[i].from];
            var stale := gas + t.gasLimit <= lim.blockGasLimit && next != -1 && t.nonce < next;
            var pool' := if stale then Remove(pool, t.hash) else pool;
            if gas + t.gasLimit <= lim.blockGasLimit && t.nonce == next
            then Looping(before, s, i + 1, picked + [t], expected[t.from := next + 1], gas + t.gasLimit, pool', lim,
                         onchain)
            else Looping(before, s, i + 1, picked, expected, gas, pool', lim, onchain)
  {
    var t := s[i];
    Branches(s, i, picked, expected, lim, onchain);
    ReachedNext(before, s, i, picked, pool, lim, onchain);
    if gas + t.gasLimit <= lim.blockGasLimit && t.nonce == expected[t.from] {
      LoopingPicks(s, picked, expected, gas, t, onchain);
    }
  }

  lemma LoopingPicks(s: seq<Tx>, picked: seq<Tx>, expected: map<string, int>, gas: int, t: Tx,
                     onchain: string -> Option<nat>)
    requires gas == GasOf(picked) && Expects(expected, s, picked, onchain) && t.from in expected
             && onchain(t.from).Some?
    ensures gas + t.gasLimit == GasOf(picked + [t])
            && Expects(expected[t.from := expected[t.from] + 1], s, picked + [t], onchain)
  {
    ExpectsNext(expected, s, picked, t, onchain);
    Extended(picked, t);
  }

  lemma ReachedEnd(before: Pool, s: seq<Tx>, i: nat, picked: seq<Tx>, pool: Pool, lim: Limits,
                   onchain: string -> Option<nat>)
    requires Reached(before, s, i, picked, pool, lim, onchain) && (i == |s| || |picked| >= lim.maxTx)
    ensures picked == Picks(s, lim, onchain) && pool == RemoveAll(before, Drops(s, lim, onchain))
  {
    if i < |s| {
      FullBlock(s, i, lim, onchain);
    } else {
      assert s[..i] == s;
    }
  }

  /** The picks stay in the pool. */
  ghost predicate Holds(after: map<string, Tx>, picked: seq<Tx>) {
    forall t :: t in picked ==> t.hash in after && after[t.hash] == t
  }

  /** Every eligible transaction left in the pool was picked, or found no place when its turn came. */
  ghost predicate EachSettled(after: map<string, Tx>, picked: seq<Tx>, lim: Limits, onchain: string -> Option<nat>) {
    forall h :: h in after && Eligible(after[h], lim.minGasPrice, lim.baseFee) ==>
      Settled(after[h], picked, lim, onchain)
  }

  /** What a block and the pool it leaves must be. */
  ghost predicate BlockMade(before: map<string, Tx>, after: map<string, Tx>, picked: seq<Tx>, cutoff: int, lim: Limits,
                            onchain: string -> Option<nat>)
  {
    ValidBlock(picked, lim, onchain) && Holds(after, picked)
    && DropsOnly(before, after, cutoff, lim.maxTx > 0, onchain)
    && EachSettled(after, picked, lim, onchain)
  }

  /** A transaction left in the pool that covers the base fee and earns the minimum price was picked or had no place. */
  lemma PayingIsSettled(before: map<string, Tx>, after: map<string, Tx>, picked: seq<Tx>, cutoff: int, lim: Limits,
                        onchain: string -> Option<nat>, h: string)
    requires BlockMade(before, after, picked, cutoff, lim, onchain) && h in after
    requires Covers(after[h], lim.baseFee) && EffectivePrice(after[h], lim.baseFee) >= lim.minGasPrice
    ensures Settled(after[h], picked, lim, onchain)
  {
    PriceIs(after[h], lim.baseFee);
    EligibleExactly(after[h], lim);
  }

  lemma EmptyBlock(txs: map<string, Tx>, cutoff: int, lim: Limits, onchain: string -> Option<nat>)
    ensures lim.maxTx <= 0 || |txs| == 0 ==> BlockMade(txs, txs, [], cutoff, lim, onchain)
  {
    if lim.maxTx <= 0 || |txs| == 0 {
      EmptyBlockSettles(txs, lim, onchain);
    }
  }

  lemma PicksStay(mid: Pool, s: seq<Tx>, lim: Limits, onchain: string -> Option<nat>)
    requires Coherent(mid) && Ranked(mid.txs, s, lim)
    ensures var after := mid.txs - Hashes(Drops(s, lim, onchain));
            Holds(after, Picks(s, lim, onchain))
            && forall h :: h in mid.txs && h !in after ==> Stale(mid.txs[h], onchain)
  {
    PoolAfterPicks(mid, s, lim, onchain);
  }

  lemma EachIsSettled(mid: Pool, s: seq<Tx>, lim: Limits, onchain: string -> Option<nat>)
    requires Coherent(mid) && Ranked(mid.txs, s, lim)
    requires forall h :: h in mid.txs && Eligible(mid.txs[h], lim.minGasPrice, lim.baseFee) ==> mid.txs[h] in s
    ensures EachSettled(mid.txs - Hashes(Drops(s, lim, onchain)), Picks(s, lim, onchain), lim, onchain)
  {
    RankedInPool(mid, s, lim);
    RemovedHashes(mid, Drops(s, lim, onchain));
    var after := RemoveAll(mid, Drops(s, lim, onchain)).txs;
    forall h | h in after && Eligible(after[h], lim.minGasPrice, lim.baseFee)
      ensures Settled(after[h], Picks(s, lim, onchain), lim, onchain)
    {
      NothingForgotten(mid, s, lim, onchain, h);
    }
  }

  lemma OnlyStaleLost(before: map<string, Tx>, mid: map<string, Tx>, gone: set<string>, cutoff: int,
                      onchain: string -> Option<nat>)
    requires mid == Unexpired(before, cutoff) && forall h :: h in mid && h !in mid - gone ==> Stale(mid[h], onchain)
    ensures DropsOnly(before, mid - gone, cutoff, true, onchain)
  {
  }

  /**
   * From the pool `mid` left by the expiry sweep, the picks make a valid
   * block and the pool loses stale transactions only.
   */
  lemma BlockFromPool(before: map<string, Tx>, mid: Pool, s: seq<Tx>, cutoff: int, lim: Limits,
                      onchain: string -> Option<nat>)
    requires Coherent(mid) && mid.txs == Unexpired(before, cutoff) && Ranked(mid.txs, s, lim)
    requires forall h :: h in mid.txs && Eligible(mid.txs[h], lim.minGasPrice, lim.baseFee) ==> mid.txs[h] in s
    ensures BlockMade(before, RemoveAll(mid, Drops(s, lim, onchain)).txs, Picks(s, lim, onchain), cutoff, lim, onchain)
  {
    RankedInPool(mid, s, lim);
    PicksMakeBlock(s, lim, onchain);
    RemovedHashes(mid, Drops(s, lim, onchain));
    PicksStay(mid, s, lim, onchain);
    OnlyStaleLost(before, mid.txs, Hashes(Drops(s, lim, onchain)), cutoff, onchain);
    EachIsSettled(mid, s, lim, onchain);
  }

  class TxPool {
    const cfg: Config
    var txs: map<string, Tx>
    var bySender: map<string, set<string>>
    var byNonce: map<Slot, string>

    function View(): Pool
      reads this
    {
      Pool(txs, bySender, byNonce)
    }

    ghost predicate Valid()
      reads this
    {
      Sound(cfg, View())
    }

    constructor (cfg: Config)
      ensures Valid() && this.cfg == cfg && View() == EMPTY_POOL
    {
      this.cfg := cfg;
      txs, bySender, byNonce := map[], map[], map[];
    }

    method RemoveTx(hash: string)
      requires Valid()
      modifies this
      ensures Valid() && View() == Remove(old(View()), hash) && txs == old(txs) - {hash}
    {
      ghost var after := Remove(View(), hash);
      RemoveSound(cfg, View(), hash);
      if hash !in txs { return; }
      var tx := txs[hash];
      txs := txs - {hash};
      byNonce := byNonce - {SlotOf(tx)};
      ForgetSender(tx.from, hash);
      assert View() == after;
    }

    /** A sender without transactions is forgotten. */
    method ForgetSender(from: string, hash: string)
      modifies this`bySender
      ensures bySender == SendersWithout(old(bySender), from, hash)
    {
      if from in bySender {
        var senderSet := bySender[from] - {hash};
        if senderSet == {} {
          bySender := bySender - {from};
        } else {
          bySender := bySender[from := senderSet];
        }
      }
    }

    /** Removes the listed transactions one by one. */
    method RemoveMany(s: seq<Tx>)
      requires Valid()
      modifies this
      ensures Valid() && txs == old(txs) - Hashes(s)
    {
      for i := 0 to |s|
        invariant Valid() && View() == RemoveAll(old(View()), s[..i])
      {
        RemoveAllNext(old(View()), s, i);
        RemoveTx(s[i].hash);
      }
      assert s[..|s|] == s;
      RemovedHashes(old(View()), s);
    }

    method EvictLowestFee()
      requires Valid()
      modifies this
      ensures Valid() && LowestEvicted(old(txs), txs, EvictCount(cfg, |old(txs)|))
    {
      var count := if cfg.evictionBatchSize < |txs| then cfg.evictionBatchSize else |txs|;
      var order := LowestFirst(txs, count);
      var n := Max(0, count);
      EvictFirst(txs, order, n);
      RemoveMany(order[..n]);
    }

    /** Removes the expired ones among the listed transactions. */
    method Sweep(all: seq<Tx>, cutoff: int) returns (evicted: nat)
      requires Valid()
      modifies this
      ensures Valid() && View() == RemoveAll(old(View()), ExpiredOf(all, cutoff))
      ensures evicted == |ExpiredOf(all, cutoff)|
    {
      evicted := 0;
      for i := 0 to |all|
        invariant Valid() && View() == RemoveAll(old(View()), ExpiredOf(all[..i], cutoff))
        invariant evicted == |ExpiredOf(all[..i], cutoff)|
      {
        SweepStep(old(View()), all, i, cutoff);
        if all[i].receivedAt < cutoff {
          RemoveTx(all[i].hash);
          evicted := evicted + 1;
        }
      }
      assert all[..|all|] == all;
    }

    method EvictExpired(now: int) returns (evicted: nat)
      requires Valid()
      modifies this
      ensures Valid()
      ensures txs == Unexpired(old(txs), now - cfg.txTtlMs)
      ensures forall h :: h in txs <==> h in old(txs) && now - old(txs)[h].receivedAt <= cfg.txTtlMs
      ensures evicted == |old(txs)| - |txs|
    {
      var cutoff := now - cfg.txTtlMs;
      var all := ListAll(cutoff);
      evicted := Sweep(all, cutoff);
    }

    /** Lists the pool; removing the expired ones of the list is then removing all that have expired. */
    method ListAll(ghost cutoff: int) returns (all: seq<Tx>)
      requires Valid()
      ensures RemoveAll(View(), ExpiredOf(all, cutoff)).txs == Unexpired(txs, cutoff)
      ensures |Unexpired(txs, cutoff)| == |txs| - |ExpiredOf(all, cutoff)|
    {
      all := Values(txs);
      SweptPool(View(), all, cutoff);
    }

    /**
     * A refused transaction leaves the pool as it was; an accepted one takes its
     * slot, after the eviction if the pool is full.
     */
    method AddRawTx(d: Decoded, now: int) returns (r: Added)
      requires Valid()
      requires d.from.Some? && d.hash in txs ==> SlotOf(txs[d.hash]) == (Lower(d.from.value), d.nonce)
      modifies this
      ensures Valid()
      ensures Verdict(cfg, old(View()), d, now).Some? ==>
              r == Err(Verdict(cfg, old(View()), d, now).value) && View() == old(View())
      ensures Verdict(cfg, old(View()), d, now).None? ==> d.from.Some? && r == Ok(Item(d, now))
      ensures r.Ok? ==> Admitted(cfg, old(View()), txs, r.tx)
    {
      if d.from.None? { return Err(MissingSender); }
      if d.chainId != cfg.chainId { return Err(WrongChain); }
      if d.txType == 3 { return Err(BlobTx); }
      var item := Item(d, now);
      if item.gasLimit > MAX_TX_GAS_LIMIT { return Err(GasLimitTooHigh); }
      r := Admit(item);
    }

    method Admit(item: Tx) returns (r: Added)
      requires Valid() && (item.hash in txs ==> SlotOf(txs[item.hash]) == SlotOf(item))
      modifies this
      ensures Valid()
      ensures PoolVerdict(cfg, old(View()), item).Some? ==>
              r == Err(PoolVerdict(cfg, old(View()), item).value) && View() == old(View())
      ensures PoolVerdict(cfg, old(View()), item).None? ==> r == Ok(item) && Admitted(cfg, old(View()), txs, item)
    {
      FreshSlot(cfg, View(), item);
      VerdictByEntry(cfg, View(), item);
      var underpriced := FreeSlot(item);
      if underpriced { return Err(Underpriced); }
      r := Enter(item);
    }

    /** The newcomer enters its free slot, after an eviction if the pool is full. */
    method Enter(item: Tx) returns (r: Added)
      requires Valid() && item.hash !in txs && SlotOf(item) !in byNonce
      modifies this
      ensures Valid()
      ensures EntryVerdict(cfg, old(View()), item).Some? ==>
              r == Err(EntryVerdict(cfg, old(View()), item).value) && View() == old(View())
      ensures EntryVerdict(cfg, old(View()), item).None? ==> r == Ok(item) && Entered(cfg, old(txs), txs, item)
    {
      if item.from in bySender && |bySender[item.from]| >= cfg.maxPerSender {
        return Err(SenderLimit);
      }
      if |txs| >= cfg.maxSize {
        MakeRoom(item);
        if |txs| >= cfg.maxSize {
          return Err(PoolFull);
        }
      }
      Put(item);
      return Ok(item);
    }

    /** Replacement: the old holder of the slot goes if the newcomer pays enough more. */
    method FreeSlot(item: Tx) returns (underpriced: bool)
      requires Valid()
      modifies this
      ensures Valid() && View() == if underpriced then old(View()) else WithoutSlot(old(View()), item)
      ensures underpriced <==> PoolVerdict(cfg, old(View()), item) == Some(Underpriced)
    {
      var slot := SlotOf(item);
      if slot in byNonce && byNonce[slot] in txs {
        if item.gasPrice < MinReplacementPrice(cfg, txs[byNonce[slot]]) { return true; }
        RemoveTx(byNonce[slot]);
      }
      return false;
    }

    /** The eviction of a full pool: afterwards there is room, or nothing changed. */
    method MakeRoom(ghost item: Tx)
      requires Valid() && |txs| >= cfg.maxSize
      requires item.hash !in txs && SlotOf(item) !in byNonce
               && SenderCount(View(), item.from) < Max(1, cfg.maxPerSender)
      modifies this
      ensures Valid() && LowestEvicted(old(txs), txs, EvictCount(cfg, |old(txs)|))
      ensures if cfg.evictionBatchSize <= 0 || |old(txs)| == 0 then View() == old(View()) && |txs| >= cfg.maxSize
              else |txs| < cfg.maxSize
      ensures item.hash !in txs && SlotOf(item) !in byNonce && SenderCount(View(), item.from) < Max(1, cfg.maxPerSender)
    {
      ghost var free := View();
      EvictLowestFee();
      KeptIsFree(cfg, free, View(), item);
      if |txs| == |free.txs| {
        NothingEvicted(free, View());
      }
    }

    method Put(item: Tx)
      requires Valid() && item.hash !in txs && SlotOf(item) !in byNonce
      requires |txs| < cfg.maxSize && SenderCount(View(), item.from) < Max(1, cfg.maxPerSender)
      modifies this
      ensures Valid() && txs == old(txs)[item.hash := item]
    {
      InsertKeeps(cfg, View(), item);
      ghost var after := Insert(View(), item);
      TwoUpdates(bySender, item.from, {}, {} + {item.hash});
      txs := txs[item.hash := item];
      byNonce := byNonce[SlotOf(item) := item.hash];
      if item.from !in bySender {
        bySender := bySender[item.from := {}];
      }
      bySender := bySender[item.from := bySender[item.from] + {item.hash}];
      assert View() == after;
    }

    /** The greedy loop over the ranked transactions; no other call runs in between. */
    method PickRanked(sorted: seq<Tx>, lim: Limits, onchain: string -> Option<nat>) returns (picked: seq<Tx>)
      requires Valid()
      modifies this
      ensures Valid() && View() == RemoveAll(old(View()), Drops(sorted, lim, onchain))
      ensures picked == Picks(sorted, lim, onchain)
    {
      ghost var before := View();
      var expected := FetchNonces(sorted, onchain);
      picked := [];
      var cumulativeGas, i := 0, 0;
      LoopingStarts(before, sorted, expected, lim, onchain);
      while i < |sorted| && |picked| < lim.maxTx
        invariant Valid() && Looping(before, sorted, i, picked, expected, cumulativeGas, View(), lim, onchain)
      {
        picked, expected, cumulativeGas := Next(before, sorted, i, picked, expected, cumulativeGas, lim, onchain);
        i := i + 1;
      }
      ReachedEnd(before, sorted, i, picked, View(), lim, onchain);
    }

    /** The body of that loop. */
    method Next(ghost before: Pool, sorted: seq<Tx>, i: nat, done: seq<Tx>, nonces: map<string, int>, gas: int,
                lim: Limits, ghost onchain: string -> Option<nat>)
      returns (picked: seq<Tx>, expected: map<string, int>, cumulativeGas: int)
      requires Valid() && Looping(before, sorted, i, done, nonces, gas, View(), lim, onchain) && i < |sorted|
               && |done| < lim.maxTx
      modifies this
      ensures Valid() && Looping(before, sorted, i + 1, picked, expected, cumulativeGas, View(), lim, onchain)
    {
      var tx := sorted[i];
      LoopingNext(before, sorted, i, done, nonces, gas, View(), lim, onchain);
      picked, expected, cumulativeGas := done, nonces, gas;
      var pick := Consider(tx, expected[tx.from], cumulativeGas, lim);
      if pick {
        expected := expected[tx.from := expected[tx.from] + 1];
        picked := picked + [tx];
        cumulativeGas := cumulativeGas + tx.gasLimit;
      }
    }

    /** One ranked transaction: passed over, dropped because its nonce is used, or to be picked. */
    method Consider(tx: Tx, next: int, cumulativeGas: int, lim: Limits) returns (pick: bool)
      requires Valid()
      modifies this
      ensures Valid()
      ensures pick <==> cumulativeGas + tx.gasLimit <= lim.blockGasLimit && tx.nonce == next
      ensures View() == if cumulativeGas + tx.gasLimit <= lim.blockGasLimit && next != -1 && tx.nonce < next
                        then Remove(old(View()), tx.hash) else old(View())
    {
      if cumulativeGas + tx.gasLimit > lim.blockGasLimit { return false; }
      if next == -1 { return false; }
      if tx.nonce < next {
        RemoveTx(tx.hash);
        return false;
      }
      return tx.nonce == next;
    }

    method PickForBlock(lim: Limits, onchain: string -> Option<nat>, now: int) returns (picked: seq<Tx>)
      requires Valid()
      modifies this
      ensures Valid() && BlockMade(old(txs), txs, picked, now - cfg.txTtlMs, lim, onchain)
    {
      EmptyBlock(txs, now - cfg.txTtlMs, lim, onchain);
      if lim.maxTx <= 0 || |txs| == 0 {
        return [];
      }
      picked := PickFresh(now, lim, onchain);
    }

    /** The pool is freed of expired transactions, ranked and picked from. */
    method PickFresh(now: int, lim: Limits, onchain: string -> Option<nat>) returns (picked: seq<Tx>)
      requires Valid()
      modifies this
      ensures Valid() && BlockMade(old(txs), txs, picked, now - cfg.txTtlMs, lim, onchain)
    {
      var sorted := RankFresh(now, lim, onchain);
      picked := PickRanked(sorted, lim, onchain);
    }

    method RankFresh(now: int, lim: Limits, ghost onchain: string -> Option<nat>) returns (sorted: seq<Tx>)
      requires Valid()
      modifies this
      ensures Valid()
      ensures BlockMade(old(txs), RemoveAll(View(), Drops(sorted, lim, onchain)).txs, Picks(sorted, lim, onchain),
                        now - cfg.txTtlMs, lim, onchain)
    {
      var n := EvictExpired(now);
      sorted := Rank(old(txs), now - cfg.txTtlMs, lim, onchain);
    }

    method Rank(ghost before: map<string, Tx>, ghost cutoff: int, lim: Limits, ghost onchain: string -> Option<nat>)
      returns (sorted: seq<Tx>)
      requires Valid() && txs == Unexpired(before, cutoff)
      ensures BlockMade(before, RemoveAll(View(), Drops(sorted, lim, onchain)).txs, Picks(sorted, lim, onchain),
                        cutoff, lim, onchain)
    {
      sorted := RankedValues(txs, lim);
      BlockFromPool(before, View(), sorted, cutoff, lim, onchain);
    }

    /** The first nonce from the one on chain that the sender has no pending transaction for. */
    method GetPendingNonce(from: string, onchainNonce: nat) returns (next: nat)
      requires Valid()
      ensures next >= onchainNonce && (Lower(from), next) !in byNonce
      ensures forall n :: onchainNonce <= n < next ==> (Lower(from), n) in byNonce
    {
      var sender := Lower(from);
      next := onchainNonce;
      if sender !in bySender { return; }
      var nonces := set h | h in bySender[sender] && h in txs :: txs[h].nonce;
      assert forall n :: n in nonces <==> (sender, n) in byNonce;
      ghost var left := nonces;
      while next in nonces
        invariant onchainNonce <= next
        invariant forall n :: onchainNonce <= n < next ==> n in nonces
        invariant forall n :: n in nonces && n >= next ==> n in left
        decreases left
      {
        left := left - {next};
        next := next + 1;
      }
    }
  }
}
