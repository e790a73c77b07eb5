/** The contents of the transaction pool: three indices, admission and eviction. */
module Pools {
  import opened Options
  import opened Sets
  import opened Text
  import opened Select

  datatype Tx = Tx(hash: string, from: string, nonce: nat, gasPrice: nat, maxFeePerGas: nat, maxPriorityFeePerGas: nat,
                   gasLimit: nat, receivedAt: int)

  /** A decoded raw transaction. */
  datatype Decoded = Decoded(hash: string, from: Option<string>, chainId: int, nonce: nat, gasPrice: Option<nat>,
                             maxFeePerGas: Option<nat>, maxPriorityFeePerGas: Option<nat>, gasLimit: Option<nat>,
                             txType: int)

  datatype Config = Config(maxSize: int, maxPerSender: int, minGasBump: nat, evictionBatchSize: int, txTtlMs: int,
                           chainId: int)

  datatype AddError = MissingSender | WrongChain | BlobTx | GasLimitTooHigh | Underpriced | SenderLimit | PoolFull

  datatype Added = Ok(tx: Tx) | Err(error: AddError)

  const MAX_TX_GAS_LIMIT: nat := 30_000_000

  function Or<T>(o: Option<T>, d: T): T {
    if o.Some? then o.value else d
  }

  function Item(d: Decoded, now: int): Tx
    requires d.from.Some?
  {
    Tx(d.hash, Lower(d.from.value), d.nonce,
       Or(d.gasPrice, Or(d.maxFeePerGas, 0)), Or(d.maxFeePerGas, Or(d.gasPrice, 0)), Or(d.maxPriorityFeePerGas, 0),
       Or(d.gasLimit, 21000), now)
  }

  // ----- the three indices

  type Slot = (string, nat)

  function SlotOf(t: Tx): Slot { (t.from, t.nonce) }

  datatype Pool = Pool(txs: map<string, Tx>, bySender: map<string, set<string>>, byNonce: map<Slot, string>)

  const EMPTY_POOL := Pool(map[], map[], map[])

  function HashesOf(txs: map<string, Tx>, sender: string): set<string> {
    set h | h in txs && txs[h].from == sender
  }

  ghost predicate HashIndex(txs: map<string, Tx>) { forall h :: h in txs ==> txs[h].hash == h }

  ghost predicate NonceIndex(txs: map<string, Tx>, byNonce: map<Slot, string>) {
    (forall h :: h in txs ==> SlotOf(txs[h]) in byNonce && byNonce[SlotOf(txs[h])] == h)
    && (forall k :: k in byNonce ==> byNonce[k] in txs && SlotOf(txs[byNonce[k]]) == k)
  }

  ghost predicate SenderIndex(txs: map<string, Tx>, bySender: map<string, set<string>>) {
    (forall s :: s in bySender ==> bySender[s] == HashesOf(txs, s))
    && (forall h :: h in txs ==> txs[h].from in bySender)
    && {} !in bySender.Values
  }

  /** Each transaction is under its hash, and the other two indices hold exactly its entries. */
  ghost predicate Coherent(p: Pool) {
    HashIndex(p.txs) && NonceIndex(p.txs, p.byNonce) && SenderIndex(p.txs, p.bySender)
  }

  function Max(a: int, b: int): int { if a < b then b else a }

  ghost predicate Bounded(cfg: Config, p: Pool) {
    |p.txs| <= Max(0, cfg.maxSize) && forall s :: s in p.bySender ==> |p.bySender[s]| <= Max(1, cfg.maxPerSender)
  }

  /** The transactions determine the other indices. */
  lemma IndicesDetermined(p: Pool, q: Pool)
    requires Coherent(p) && Coherent(q) && p.txs == q.txs
    ensures p == q
  {
    assert p.byNonce == q.byNonce by {
      assert forall k :: k in p.byNonce ==> k in q.byNonce && q.byNonce[k] == p.byNonce[k];
      assert forall k :: k in q.byNonce ==> k in p.byNonce;
    }
    forall s | s in p.bySender || s in q.bySender ensures s in p.bySender && s in q.bySender {
      assert HashesOf(p.txs, s) != {} by {
        assert s in p.bySender ==> p.bySender[s] in p.bySender.Values;
        assert s in q.bySender ==> q.bySender[s] in q.bySender.Values;
      }
      var h :| h in HashesOf(p.txs, s);
      assert p.txs[h].from == s;
    }
  }

  function Remove(p: Pool, hash: string): Pool {
    if hash !in p.txs then p
    else
      var t := p.txs[hash];
      Pool(p.txs - {hash}, SendersWithout(p.bySender, t.from, hash), p.byNonce - {SlotOf(t)})
  }

  function SendersWithout(bySender: map<string, set<string>>, from: string, hash: string): map<string, set<string>> {
    if from !in bySender then bySender
    else if bySender[from] - {hash} == {} then bySender - {from}
    else bySender[from := bySender[from] - {hash}]
  }

  function Insert(p: Pool, t: Tx): Pool {
    Pool(p.txs[t.hash := t],
         p.bySender[t.from := (if t.from in p.bySender then p.bySender[t.from] else {}) + {t.hash}],
         p.byNonce[SlotOf(t) := t.hash])
  }

  lemma RemoveKeepsSenders(p: Pool, hash: string)
    requires SenderIndex(p.txs, p.bySender) && hash in p.txs
    ensures SenderIndex(p.txs - {hash}, Remove(p, hash).bySender)
    ensures forall s :: s in Remove(p, hash).bySender ==>
            s in p.bySender && Remove(p, hash).bySender[s] <= p.bySender[s]
  {
    var from := p.txs[hash].from;
    assert forall s :: HashesOf(p.txs - {hash}, s) == HashesOf(p.txs, s) - {hash};
    assert forall s :: s != from ==> hash !in HashesOf(p.txs, s);
    forall h | h in p.txs - {hash} ensures p.txs[h].from in Remove(p, hash).bySender {
      assert h in HashesOf(p.txs, p.txs[h].from) - {hash};
    }
  }

  lemma RemoveKeepsNonces(p: Pool, hash: string)
    requires NonceIndex(p.txs, p.byNonce) && hash in p.txs
    ensures NonceIndex(p.txs - {hash}, p.byNonce - {SlotOf(p.txs[hash])})
  {
  }

  lemma RemoveKeeps(cfg: Config, p: Pool, hash: string)
    requires Coherent(p)
    ensures Coherent(Remove(p, hash)) && Remove(p, hash).txs == p.txs - {hash}
    ensures |Remove(p, hash).txs| == |p.txs| - (if hash in p.txs then 1 else 0)
    ensures Bounded(cfg, p) ==> Bounded(cfg, Remove(p, hash))
  {
    if hash in p.txs {
      RemoveKeepsSenders(p, hash);
      RemoveKeepsNonces(p, hash);
      var q := Remove(p, hash);
      assert q.txs.Keys == p.txs.Keys - {hash};
      forall s | s in q.bySender ensures |q.bySender[s]| <= |p.bySender[s]| {
        SubsetSize(q.bySender[s], p.bySender[s]);
      }
    }
  }

  function SenderCount(p: Pool, sender: string): nat {
    if sender in p.bySender then |p.bySender[sender]| else 0
  }

  lemma HashesAfterInsert(txs: map<string, Tx>, t: Tx, s: string)
    requires t.hash !in txs
    ensures HashesOf(txs[t.hash := t], s) == HashesOf(txs, s) + (if s == t.from then {t.hash} else {})
    ensures t.hash !in HashesOf(txs, s)
  {
  }

  /** The entry of a sender, or nothing. */
  function Held(p: Pool, s: string): set<string> { if s in p.bySender then p.bySender[s] else {} }

  lemma HeldIsHashes(p: Pool, s: string)
    requires SenderIndex(p.txs, p.bySender)
    ensures Held(p, s) == HashesOf(p.txs, s)
  {
  }

  lemma InsertKeepsSenders(p: Pool, t: Tx)
    requires SenderIndex(p.txs, p.bySender) && t.hash !in p.txs
    ensures SenderIndex(p.txs[t.hash := t], Insert(p, t).bySender)
    ensures SenderCount(Insert(p, t), t.from) == SenderCount(p, t.from) + 1
  {
    var q, txs' := Insert(p, t), p.txs[t.hash := t];
    forall s | s in q.bySender ensures q.bySender[s] == HashesOf(txs', s) && q.bySender[s] != {} {
      HeldIsHashes(p, s);
      HashesAfterInsert(p.txs, t, s);
    }
    HeldIsHashes(p, t.from);
    HashesAfterInsert(p.txs, t, t.from);
    assert |Held(p, t.from) + {t.hash}| == |Held(p, t.from)| + 1;
  }

  lemma InsertKeepsNonces(p: Pool, t: Tx)
    requires NonceIndex(p.txs, p.byNonce) && t.hash !in p.txs && SlotOf(t) !in p.byNonce
    ensures NonceIndex(p.txs[t.hash := t], p.byNonce[SlotOf(t) := t.hash])
  {
  }

  lemma InsertBounded(cfg: Config, p: Pool, t: Tx)
    requires Bounded(cfg, p) && |p.txs| < cfg.maxSize && t.hash !in p.txs
    requires SenderCount(Insert(p, t), t.from) <= Max(1, cfg.maxPerSender)
    ensures Bounded(cfg, Insert(p, t))
  {
    var q := Insert(p, t);
    assert q.txs.Keys == p.txs.Keys + {t.hash};
    assert |q.txs.Keys| == |p.txs.Keys| + 1;
    forall s | s in q.bySender ensures |q.bySender[s]| <= Max(1, cfg.maxPerSender) {
      if s != t.from {
        assert q.bySender[s] == p.bySender[s];
      }
    }
  }

  lemma InsertKeeps(cfg: Config, p: Pool, t: Tx)
    requires Coherent(p) && t.hash !in p.txs && SlotOf(t) !in p.byNonce
    requires Bounded(cfg, p) && |p.txs| < cfg.maxSize && SenderCount(p, t.from) < Max(1, cfg.maxPerSender)
    ensures Coherent(Insert(p, t)) && Bounded(cfg, Insert(p, t))
  {
    InsertKeepsSenders(p, t);
    InsertKeepsNonces(p, t);
    assert HashIndex(Insert(p, t).txs);
    InsertBounded(cfg, p, t);
  }

  // ----- admission

  function MinReplacementPrice(cfg: Config, existing: Tx): nat {
    existing.gasPrice + (existing.gasPrice * cfg.minGasBump + 99) / 100
  }

  /** Whether the pool has a place for the transaction: its slot, or else room at its sender and in the pool. */
  function PoolVerdict(cfg: Config, p: Pool, t: Tx): Option<AddError> {
    if SlotOf(t) in p.byNonce && p.byNonce[SlotOf(t)] in p.txs then
      if t.gasPrice < MinReplacementPrice(cfg, p.txs[p.byNonce[SlotOf(t)]]) then Some(Underpriced) else None
    else EntryVerdict(cfg, p, t)
  }

  function EntryVerdict(cfg: Config, p: Pool, t: Tx): Option<AddError> {
    if t.from in p.bySender && |p.bySender[t.from]| >= cfg.maxPerSender then Some(SenderLimit)
    else if |p.txs| >= cfg.maxSize && (cfg.evictionBatchSize <= 0 || |p.txs| == 0) then Some(PoolFull)
    else None
  }

  /** Why a transaction is refused, if it is, in the order of the checks. */
  function Verdict(cfg: Config, p: Pool, d: Decoded, now: int): Option<AddError> {
    if d.from.None? then Some(MissingSender)
    else if d.chainId != cfg.chainId then Some(WrongChain)
    else if d.txType == 3 then Some(BlobTx)
    else
      var t := Item(d, now);
      if t.gasLimit > MAX_TX_GAS_LIMIT then Some(GasLimitTooHigh) else PoolVerdict(cfg, p, t)
  }

  /** The price to beat is the old one raised by the bump in percent, rounded up. */
  lemma ReplacementPrice(cfg: Config, existing: Tx, price: nat)
    ensures price >= MinReplacementPrice(cfg, existing) <==>
            100 * price >= existing.gasPrice * (100 + cfg.minGasBump)
  {
    var raise := existing.gasPrice * cfg.minGasBump;
    assert existing.gasPrice * (100 + cfg.minGasBump) == 100 * existing.gasPrice + raise;
    assert raise <= 100 * ((raise + 99) / 100) < raise + 100;
  }

  /** The transaction itself is one the pool takes: a sender, the chain's id, no blobs, no more than 30 million gas. */
  ghost predicate Acceptable(cfg: Config, d: Decoded) {
    d.from.Some? && d.chainId == cfg.chainId && d.txType != 3 && (d.gasLimit.Some? ==> d.gasLimit.value <= 30_000_000)
  }

  /** The pool already has a transaction of this sender and nonce. */
  ghost predicate Contested(p: Pool, t: Tx, rival: Tx) {
    rival.hash in p.txs && p.txs[rival.hash] == rival && rival.from == t.from && rival.nonce == t.nonce
  }

  /** The sender has transactions, and as many as it may. */
  ghost predicate SenderFull(cfg: Config, p: Pool, from: string) {
    HashesOf(p.txs, from) != {} && |HashesOf(p.txs, from)| >= cfg.maxPerSender
  }

  /** The pool is full, and there is nothing to evict. */
  ghost predicate NoRoom(cfg: Config, p: Pool) {
    |p.txs| >= cfg.maxSize && (cfg.evictionBatchSize <= 0 || p.txs == map[])
  }

  /** What is refused, and why, apart from the pool. */
  lemma RefusedAtOnce(cfg: Config, p: Pool, d: Decoded, now: int)
    ensures Verdict(cfg, p, d, now) == Some(MissingSender) <==> d.from.None?
    ensures Verdict(cfg, p, d, now) == Some(WrongChain) <==> d.from.Some? && d.chainId != cfg.chainId
    ensures Verdict(cfg, p, d, now) == Some(BlobTx) <==> d.from.Some? && d.chainId == cfg.chainId && d.txType == 3
    ensures Verdict(cfg, p, d, now) == Some(GasLimitTooHigh) <==>
            d.from.Some? && d.chainId == cfg.chainId && d.txType != 3 && d.gasLimit.Some?
            && d.gasLimit.value > 30_000_000
    ensures Acceptable(cfg, d) ==> Verdict(cfg, p, d, now) == PoolVerdict(cfg, p, Item(d, now))
  {
  }

  /** Against a rival, a transaction is refused exactly if it pays less than the bump over it. */
  lemma RefusedToReplace(cfg: Config, p: Pool, t: Tx, rival: Tx)
    requires Coherent(p) && Contested(p, t, rival)
    ensures PoolVerdict(cfg, p, t)
            == if 100 * t.gasPrice < rival.gasPrice * (100 + cfg.minGasBump) then Some(Underpriced) else None
  {
    assert SlotOf(rival) == SlotOf(t);
    assert p.byNonce[SlotOf(t)] == rival.hash;
    ReplacementPrice(cfg, rival, t.gasPrice);
  }

  /** Without one, exactly if its sender is at the limit or there is no room. */
  lemma RefusedEntry(cfg: Config, p: Pool, t: Tx)
    requires Coherent(p) && forall rival :: !Contested(p, t, rival)
    ensures PoolVerdict(cfg, p, t)
            == if SenderFull(cfg, p, t.from) then Some(SenderLimit) else if NoRoom(cfg, p) then Some(PoolFull) else None
  {
    if SlotOf(t) in p.byNonce {
      assert Contested(p, t, p.txs[p.byNonce[SlotOf(t)]]);
    }
    HeldIsHashes(p, t.from);
    assert t.from in p.bySender ==> p.bySender[t.from] in p.bySender.Values;
  }

  /** How much is evicted from a full pool: a batch, or all there is. */
  lemma EvictedCount(cfg: Config, size: nat)
    ensures EvictCount(cfg, size) <= size
    ensures 0 <= cfg.evictionBatchSize <= size ==> EvictCount(cfg, size) == cfg.evictionBatchSize
    ensures cfg.evictionBatchSize >= size ==> EvictCount(cfg, size) == size
    ensures cfg.evictionBatchSize <= 0 ==> EvictCount(cfg, size) == 0
  {
  }

  /** What is kept of a decoded transaction; each price field stands in for the other, and gas defaults to 21000. */
  lemma ItemFields(d: Decoded, now: int)
    requires d.from.Some?
    ensures var t := Item(d, now);
            t.hash == d.hash && t.from == Lower(d.from.value) && t.nonce == d.nonce && t.receivedAt == now
            && (d.gasPrice.Some? ==> t.gasPrice == d.gasPrice.value)
            && (d.maxFeePerGas.Some? ==> t.maxFeePerGas == d.maxFeePerGas.value)
            && (d.gasPrice.None? || d.maxFeePerGas.None? ==> t.gasPrice == t.maxFeePerGas)
            && (d.gasPrice.None? && d.maxFeePerGas.None? ==> t.gasPrice == 0)
            && t.maxPriorityFeePerGas == (if d.maxPriorityFeePerGas.Some? then d.maxPriorityFeePerGas.value else 0)
            && t.gasLimit == if d.gasLimit.Some? then d.gasLimit.value else 21000
  {
  }

  /** What the slot of `t` held before is gone. */
  function WithoutSlot(p: Pool, t: Tx): Pool {
    if SlotOf(t) in p.byNonce then Remove(p, p.byNonce[SlotOf(t)]) else p
  }

  /** `after` is the pool without the old holder of the slot, less an eviction if that is still full, plus `t`. */
  ghost predicate Admitted(cfg: Config, before: Pool, after: map<string, Tx>, t: Tx) {
    Entered(cfg, WithoutSlot(before, t).txs, after, t)
  }

  ghost predicate Entered(cfg: Config, free: map<string, Tx>, after: map<string, Tx>, t: Tx) {
    exists kept :: after == kept[t.hash := t] && t.hash !in kept
                   && if |free| < cfg.maxSize then kept == free else LowestEvicted(free, kept, EvictCount(cfg, |free|))
  }

  /**
   * Taking out the old holder of the slot frees the slot and the hash; if there was one, there is room for a successor.
   */
  lemma FreshSlot(cfg: Config, p: Pool, t: Tx)
    requires Sound(cfg, p) && (t.hash in p.txs ==> SlotOf(p.txs[t.hash]) == SlotOf(t))
    ensures var q := WithoutSlot(p, t);
            Sound(cfg, q) && t.hash !in q.txs && SlotOf(t) !in q.byNonce
            && (SlotOf(t) in p.byNonce ==> p.byNonce[SlotOf(t)] in p.txs && |q.txs| < cfg.maxSize
                                           && (t.from in q.bySender ==> |q.bySender[t.from]| < cfg.maxPerSender))
  {
    if SlotOf(t) in p.byNonce {
      var h := p.byNonce[SlotOf(t)];
      RemoveKeeps(cfg, p, h);
      var q := Remove(p, h);
      assert |p.txs| >= 1;
      if t.from in q.bySender {
        assert q.bySender[t.from] == p.bySender[t.from] - {h};
        assert |q.bySender[t.from]| == |p.bySender[t.from]| - 1;
        assert q.bySender[t.from] in q.bySender.Values;
      }
    }
  }

  /** A replacement that pays enough is not refused for want of room. */
  lemma VerdictByEntry(cfg: Config, p: Pool, t: Tx)
    requires Sound(cfg, p) && (t.hash in p.txs ==> SlotOf(p.txs[t.hash]) == SlotOf(t))
    ensures PoolVerdict(cfg, p, t) != Some(Underpriced) ==>
            PoolVerdict(cfg, p, t) == EntryVerdict(cfg, WithoutSlot(p, t), t)
  {
    FreshSlot(cfg, p, t);
  }

  /** An eviction in between keeps slot and hash free and the sender within its limit. */
  lemma KeptIsFree(cfg: Config, p: Pool, q: Pool, t: Tx)
    requires Coherent(p) && Coherent(q) && q.txs.Keys <= p.txs.Keys && (forall h :: h in q.txs ==> q.txs[h] == p.txs[h])
    requires t.hash !in p.txs && SlotOf(t) !in p.byNonce && SenderCount(p, t.from) < Max(1, cfg.maxPerSender)
    ensures t.hash !in q.txs && SlotOf(t) !in q.byNonce && SenderCount(q, t.from) < Max(1, cfg.maxPerSender)
  {
    if t.from in q.bySender {
      var h := FromSender(q, t.from);
      assert t.from in p.bySender && q.bySender[t.from] <= p.bySender[t.from];
      SubsetSize(q.bySender[t.from], p.bySender[t.from]);
    }
  }

  lemma NothingEvicted(p: Pool, q: Pool)
    requires Coherent(p) && Coherent(q) && LowestEvicted(p.txs, q.txs, 0)
    ensures p == q
  {
    SameSizeSubset(q.txs.Keys, p.txs.Keys);
    assert q.txs == p.txs;
    IndicesDetermined(p, q);
  }

  lemma FromSender(p: Pool, s: string) returns (h: string)
    requires SenderIndex(p.txs, p.bySender) && s in p.bySender
    ensures h in p.txs && p.txs[h].from == s && h in p.bySender[s]
  {
    assert p.bySender[s] in p.bySender.Values;
    assert p.bySender[s] != {};
    h :| h in p.bySender[s];
  }

  // ----- eviction

  function FeeCompare(a: Tx, b: Tx): int {
    if a.gasPrice != b.gasPrice then (if a.gasPrice < b.gasPrice then -1 else 1) else a.receivedAt - b.receivedAt
  }

  /** Paying less, or as much and waiting longer. */
  ghost predicate RanksBelow(a: Tx, b: Tx) {
    a.gasPrice < b.gasPrice || (a.gasPrice == b.gasPrice && a.receivedAt <= b.receivedAt)
  }

  /** `q` is `p` without its `n` lowest ranked transactions: none of those ranks above one that stays. */
  ghost predicate LowestEvicted(p: map<string, Tx>, q: map<string, Tx>, n: nat) {
    q.Keys <= p.Keys && (forall h :: h in q ==> q[h] == p[h]) && |p| == |q| + n
    && forall g, h :: g in p && g !in q && h in q ==> RanksBelow(p[g], p[h])
  }

  lemma FeePreorder()
    ensures TotalPreorder(FeeCompare)
  {
    assert forall x, y :: Leq(FeeCompare, x, y)
                          <==> x.gasPrice < y.gasPrice || (x.gasPrice == y.gasPrice && x.receivedAt <= y.receivedAt);
  }

  /** The transactions of the pool, each once; the order is left open. */
  ghost predicate Listing(txs: map<string, Tx>, s: seq<Tx>) {
    |s| == |txs| && (forall t :: t in s ==> t.hash in txs && txs[t.hash] == t)
    && forall i, j :: 0 <= i < j < |s| ==> s[i].hash != s[j].hash
  }

  method Values(txs: map<string, Tx>) returns (s: seq<Tx>)
    requires forall h :: h in txs ==> txs[h].hash == h
    ensures Listing(txs, s)
    ensures forall h :: h in txs ==> txs[h] in s
  {
    s := [];
    var rest := txs.Keys;
    while rest != {}
      invariant rest <= txs.Keys && |s| + |rest| == |txs|
      invariant forall t :: t in s ==> t.hash in txs && txs[t.hash] == t && t.hash !in rest
      invariant forall h :: h in txs && h !in rest ==> txs[h] in s
      invariant forall i, j :: 0 <= i < j < |s| ==> s[i].hash != s[j].hash
      decreases rest
    {
      var h :| h in rest;
      s := s + [txs[h]];
      rest := rest - {h};
    }
  }

  function Hashes(s: seq<Tx>): set<string> {
    set t | t in s :: t.hash
  }

  function RemoveAll(p: Pool, s: seq<Tx>): Pool {
    if s == [] then p else Remove(RemoveAll(p, s[..|s| - 1]), s[|s| - 1].hash)
  }

  lemma RemoveAllNext(p: Pool, s: seq<Tx>, i: nat)
    requires i < |s|
    ensures RemoveAll(p, s[..i + 1]) == Remove(RemoveAll(p, s[..i]), s[i].hash)
  {
    assert s[..i + 1][..i] == s[..i];
  }

  lemma TwoUpdates<K, V>(m: map<K, V>, k: K, v: V, w: V)
    ensures m[k := v][k := w] == m[k := w]
  {
  }

  lemma MinusMinus<K, V>(m: map<K, V>, a: set<K>, x: K)
    ensures m - a - {x} == m - (a + {x}) && m - {} == m
  {
  }

  lemma RemovedHash(p: Pool, hash: string)
    ensures Remove(p, hash).txs == p.txs - {hash}
  {
  }

  lemma {:induction false} RemovedHashes(p: Pool, s: seq<Tx>)
    ensures RemoveAll(p, s).txs == p.txs - Hashes(s)
  {
    if s == [] {
      MinusMinus(p.txs, {}, "");
      assert Hashes(s) == {};
    } else {
      RemovedHashes(p, s[..|s| - 1]);
      RemovedHash(RemoveAll(p, s[..|s| - 1]), s[|s| - 1].hash);
      HashesOfLast(s);
      MinusMinus(p.txs, Hashes(s[..|s| - 1]), s[|s| - 1].hash);
    }
  }

  lemma HashesOfLast(s: seq<Tx>)
    requires s != []
    ensures Hashes(s) == Hashes(s[..|s| - 1]) + {s[|s| - 1].hash}
  {
    assert s == s[..|s| - 1] + [s[|s| - 1]];
  }

  ghost predicate Sound(cfg: Config, p: Pool) { Coherent(p) && Bounded(cfg, p) }

  lemma RemoveSound(cfg: Config, p: Pool, hash: string)
    requires Sound(cfg, p)
    ensures Sound(cfg, Remove(p, hash)) && Remove(p, hash).txs == p.txs - {hash}
  {
    RemoveKeeps(cfg, p, hash);
  }

  ghost predicate DistinctHashes(s: seq<Tx>) {
    forall i, j :: 0 <= i < j < |s| ==> s[i].hash != s[j].hash
  }

  lemma {:induction false} DistinctHashCount(s: seq<Tx>)
    requires DistinctHashes(s)
    ensures |Hashes(s)| == |s|
  {
    if s == [] {
      assert Hashes(s) == {};
    } else {
      var init, last := s[..|s| - 1], s[|s| - 1];
      DistinctHashCount(init);
      assert s == init + [last];
      assert Hashes(s) == Hashes(init) + {last.hash};
      assert last.hash !in Hashes(init);
    }
  }

  lemma {:induction false} DistinctMultiplicity(s: seq<Tx>, x: Tx)
    requires DistinctHashes(s)
    ensures multiset(s)[x] <= 1
  {
    if s != [] {
      var init, last := s[..|s| - 1], s[|s| - 1];
      assert s == init + [last];
      DistinctMultiplicity(init, x);
      assert last !in init;
      assert last !in multiset(init);
    }
  }

  lemma RepeatedMultiplicity(s: seq<Tx>, i: nat, j: nat)
    requires i < j < |s| && s[i] == s[j]
    ensures multiset(s)[s[i]] >= 2
  {
    assert s == s[..j] + ([s[j]] + s[j + 1..]);
    assert s[i] in s[..j];
    assert s[i] in multiset(s[..j]);
  }

  lemma ListingPermuted(txs: map<string, Tx>, s: seq<Tx>, r: seq<Tx>)
    requires Listing(txs, s) && multiset(s) == multiset(r)
    ensures Listing(txs, r) && forall t :: t in s <==> t in r
  {
    assert |r| == |multiset(r)| == |multiset(s)| == |s|;
    assert forall t :: t in r <==> t in multiset(r);
    assert forall t :: t in s <==> t in multiset(s);
    forall i, j | 0 <= i < j < |r| ensures r[i].hash != r[j].hash {
      if r[i].hash == r[j].hash {
        assert r[i] in r && r[j] in r;
        RepeatedMultiplicity(r, i, j);
        DistinctMultiplicity(s, r[i]);
        assert false;
      }
    }
  }

  function EvictCount(cfg: Config, size: nat): nat {
    Max(0, if cfg.evictionBatchSize < size then cfg.evictionBatchSize else size)
  }

  /** Removing the first `n` of a list that has its `n` lowest first. */
  lemma EvictFirst(txs: map<string, Tx>, s: seq<Tx>, n: nat)
    requires HashIndex(txs) && Listing(txs, s) && n <= |s| && LowDone(FeeCompare, s, n)
    requires forall h :: h in txs ==> txs[h] in s
    ensures LowestEvicted(txs, txs - Hashes(s[..n]), n)
  {
    var q := txs - Hashes(s[..n]);
    FirstHashes(txs, s, n);
    assert q.Keys == txs.Keys - Hashes(s[..n]);
    assert txs.Keys == q.Keys + Hashes(s[..n]);
    forall g, h | g in txs && g !in q && h in q ensures RanksBelow(txs[g], txs[h]) {
      FirstIsLower(txs, s, n, g, h);
    }
  }

  lemma FirstHashes(txs: map<string, Tx>, s: seq<Tx>, n: nat)
    requires Listing(txs, s) && n <= |s|
    ensures Hashes(s[..n]) <= txs.Keys && |Hashes(s[..n])| == n
  {
    DistinctHashCount(s[..n]);
    assert forall t :: t in s[..n] ==> t in s;
  }

  lemma FirstIsLower(txs: map<string, Tx>, s: seq<Tx>, n: nat, g: string, h: string)
    requires Listing(txs, s) && n <= |s| && LowDone(FeeCompare, s, n)
    requires g in Hashes(s[..n]) && h in txs && h !in Hashes(s[..n]) && txs[h] in s && txs[h].hash == h
    ensures g in txs && RanksBelow(txs[g], txs[h])
  {
    var t :| t in s[..n] && t.hash == g;
    var i :| 0 <= i < n && s[..n][i] == t;
    assert s[i] in s;
    var j := NotAmongFirst(s, n, txs[h]);
    assert Leq(FeeCompare, s[i], s[j]);
  }

  lemma NotAmongFirst(s: seq<Tx>, n: nat, t: Tx) returns (j: nat)
    requires n <= |s| && t in s && t.hash !in Hashes(s[..n])
    ensures n <= j < |s| && s[j] == t
  {
    assert forall i :: 0 <= i < n ==> s[..n][i] == s[i] && s[i] in s[..n];
    j :| 0 <= j < |s| && s[j] == t;
  }

  /** The transactions with the `count` lowest ranked ones first. */
  method LowestFirst(txs: map<string, Tx>, count: int) returns (order: seq<Tx>)
    requires HashIndex(txs)
    ensures Listing(txs, order) && LowDone(FeeCompare, order, count)
    ensures forall h :: h in txs ==> txs[h] in order
  {
    var all := Values(txs);
    var arr := new Tx[|all|](i requires 0 <= i < |all| => all[i]);
    assert arr[..] == all;
    PartialSelect(arr, count, FeeCompare);
    FeePreorder();
    order := arr[..];
    ListingPermuted(txs, all, order);
  }

  predicate Expired(t: Tx, cutoff: int) { t.receivedAt < cutoff }

  function Unexpired(txs: map<string, Tx>, cutoff: int): map<string, Tx> {
    map h | h in txs && !Expired(txs[h], cutoff) :: txs[h]
  }

  function ExpiredOf(s: seq<Tx>, cutoff: int): seq<Tx> {
    if s == [] then []
    else
      var last := s[|s| - 1];
      ExpiredOf(s[..|s| - 1], cutoff) + (if Expired(last, cutoff) then [last] else [])
  }

  lemma {:induction false} ExpiredMembers(s: seq<Tx>, cutoff: int, t: Tx)
    ensures t in ExpiredOf(s, cutoff) <==> t in s && Expired(t, cutoff)
  {
    if s != [] {
      ExpiredMembers(s[..|s| - 1], cutoff, t);
      assert s == s[..|s| - 1] + [s[|s| - 1]];
    }
  }

  lemma {:induction false} ExpiredDistinct(s: seq<Tx>, cutoff: int)
    requires DistinctHashes(s)
    ensures DistinctHashes(ExpiredOf(s, cutoff))
  {
    if s != [] {
      var init, last := s[..|s| - 1], s[|s| - 1];
      ExpiredDistinct(init, cutoff);
      var r := ExpiredOf(init, cutoff);
      forall i | 0 <= i < |r| ensures r[i].hash != last.hash {
        ExpiredMembers(init, cutoff, r[i]);
      }
    }
  }

  lemma ExpiredHash(txs: map<string, Tx>, all: seq<Tx>, cutoff: int, h: string)
    requires HashIndex(txs) && Listing(txs, all) && (h in txs ==> txs[h] in all)
    ensures h in Hashes(ExpiredOf(all, cutoff)) <==> h in txs && Expired(txs[h], cutoff)
  {
    if h in txs {
      ExpiredMembers(all, cutoff, txs[h]);
    }
    if h in Hashes(ExpiredOf(all, cutoff)) {
      var t :| t in ExpiredOf(all, cutoff) && t.hash == h;
      ExpiredMembers(all, cutoff, t);
    }
  }

  lemma ExpiredHashes(txs: map<string, Tx>, all: seq<Tx>, cutoff: int)
    requires HashIndex(txs) && Listing(txs, all) && forall h :: h in txs ==> txs[h] in all
    ensures forall h :: h in Hashes(ExpiredOf(all, cutoff)) <==> h in txs && Expired(txs[h], cutoff)
    ensures |Hashes(ExpiredOf(all, cutoff))| == |ExpiredOf(all, cutoff)|
  {
    forall h ensures h in Hashes(ExpiredOf(all, cutoff)) <==> h in txs && Expired(txs[h], cutoff) {
      ExpiredHash(txs, all, cutoff, h);
    }
    ExpiredDistinct(all, cutoff);
    DistinctHashCount(ExpiredOf(all, cutoff));
  }

  lemma MinusExpired(txs: map<string, Tx>, gone: set<string>, cutoff: int)
    requires forall h :: h in gone <==> h in txs && Expired(txs[h], cutoff)
    ensures txs - gone == Unexpired(txs, cutoff) && |Unexpired(txs, cutoff)| == |txs| - |gone|
  {
    assert (txs - gone).Keys == txs.Keys - gone;
    assert txs.Keys == (txs - gone).Keys + gone;
  }

  lemma SweptAway(txs: map<string, Tx>, all: seq<Tx>, cutoff: int)
    requires HashIndex(txs) && Listing(txs, all) && forall h :: h in txs ==> txs[h] in all
    ensures txs - Hashes(ExpiredOf(all, cutoff)) == Unexpired(txs, cutoff)
    ensures |Unexpired(txs, cutoff)| == |txs| - |ExpiredOf(all, cutoff)|
  {
    ExpiredHashes(txs, all, cutoff);
    MinusExpired(txs, Hashes(ExpiredOf(all, cutoff)), cutoff);
  }

  lemma SweptPool(p: Pool, all: seq<Tx>, cutoff: int)
    requires HashIndex(p.txs) && Listing(p.txs, all) && forall h :: h in p.txs ==> p.txs[h] in all
    ensures RemoveAll(p, ExpiredOf(all, cutoff)).txs == Unexpired(p.txs, cutoff)
    ensures |Unexpired(p.txs, cutoff)| == |p.txs| - |ExpiredOf(all, cutoff)|
  {
    SweptAway(p.txs, all, cutoff);
    RemovedHashes(p, ExpiredOf(all, cutoff));
  }

  lemma SweepStep(p: Pool, all: seq<Tx>, i: nat, cutoff: int)
    requires i < |all|
    ensures var done, next := ExpiredOf(all[..i], cutoff), ExpiredOf(all[..i + 1], cutoff);
            if Expired(all[i], cutoff)
            then |next| == |done| + 1 && RemoveAll(p, next) == Remove(RemoveAll(p, done), all[i].hash)
            else next == done
  {
    assert all[..i + 1][..i] == all[..i];
    var done := ExpiredOf(all[..i], cutoff);
    assert (done + [all[i]])[..|done|] == done;
  }
}
