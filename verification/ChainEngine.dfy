/**
 * The in-memory chain: verification of block sequences, and the block array with its two indices and finality flags.
 */
module ChainEngine {
  import opened Options
  import opened BlockHash

  datatype ChainBlock = ChainBlock(
    number: int,
    hash: string,
    parentHash: string,
    proposer: string,
    timestampMs: int,
    txs: seq<string>,
    finalized: bool,
    bftFinalized: bool,
    baseFee: Option<int>,
    cumulativeWeight: Option<int>,
    gasUsed: Option<int>,
    blobGasUsed: Option<int>,
    excessBlobGas: Option<int>,
    parentBeaconBlockRoot: Option<string>,
    signature: string,
    stateRoot: string,
    stateRootSig: string)

  datatype SigMode = Off | Monitor | Enforce

  /**
   * `digest` is the hash of a pre-image text, `verifier` answers for (text,
   * signature, signer), "" stands for an absent string.
   */
  datatype Config = Config(
    nodeId: string,
    validators: seq<string>,
    finalityDepth: int,
    sigMode: SigMode,
    verifier: Option<(string, string, string) -> bool>,
    signer: Option<string -> string>,
    addressOf: string -> string,
    digest: string -> string)

  const BLOCK_GAS_LIMIT: int := 30_000_000
  const MAX_FUTURE_MS: int := 60_000

  datatype Execution = Executed(gasUsed: nat) | Reverted

  datatype ApplyError =
    | Reentrant | BadLink | BadProposer | BadSignature | BadTimestamp | BadWeight | BadHash
    | BadExecution | BadStateRootSig

  datatype Applied = Ok | Err(error: ApplyError)

  function OrZero(o: Option<int>): int { if o.Some? then o.value else 0 }

  function PayloadOf(b: ChainBlock): Payload {
    Payload(b.number, b.parentHash, b.proposer, b.timestampMs, b.txs, OrZero(b.baseFee), OrZero(b.cumulativeWeight),
            OrZero(b.blobGasUsed), OrZero(b.excessBlobGas),
            if b.parentBeaconBlockRoot.Some? then b.parentBeaconBlockRoot.value else "")
  }

  function HashBlockPayload(cfg: Config, b: ChainBlock): string {
    cfg.digest(PreImage(PayloadOf(b)))
  }

  predicate LinkOk(prev: Option<ChainBlock>, next: ChainBlock) {
    if prev.None? then next.number == 1 && next.parentHash == ZERO_HASH
    else next.number == prev.value.number + 1 && next.parentHash == prev.value.hash
  }

  predicate WeightOk(prev: Option<ChainBlock>, b: ChainBlock) {
    if b.cumulativeWeight.None? then prev.None? || prev.value.cumulativeWeight.None?
    else b.cumulativeWeight.value == b.number
  }

  function ExpectedProposer(cfg: Config, height: int): string {
    if cfg.validators == [] then cfg.nodeId
    else if height < 1 then cfg.validators[0]
    else cfg.validators[(height - 1) % |cfg.validators|]
  }

  // ----- verification of a received block sequence

  predicate SignatureOk(cfg: Config, b: ChainBlock, signer: string) {
    cfg.verifier.None? || cfg.sigMode == Off
    || (if b.signature != "" then cfg.verifier.value("block:" + b.hash, b.signature, signer)
        else cfg.sigMode != Enforce)
  }

  predicate BlockOk(cfg: Config, prev: Option<ChainBlock>, b: ChainBlock) {
    HashBlockPayload(cfg, b) == b.hash
    && (if prev.None? then b.number == 1 ==> b.parentHash == ZERO_HASH
        else b.parentHash == prev.value.hash && b.number == prev.value.number + 1
             && b.timestampMs > prev.value.timestampMs)
    && WeightOk(prev, b)
    && (cfg.validators == [] || b.proposer in cfg.validators)
    && SignatureOk(cfg, b, b.proposer)
  }

  function Before(blocks: seq<ChainBlock>, i: nat): Option<ChainBlock>
    requires i < |blocks|
  {
    if i == 0 then None else Some(blocks[i - 1])
  }

  predicate OkAt(cfg: Config, blocks: seq<ChainBlock>, i: nat)
    requires i < |blocks|
  {
    BlockOk(cfg, Before(blocks, i), blocks[i])
  }

  ghost predicate Accepted(cfg: Config, blocks: seq<ChainBlock>) {
    forall i :: 0 <= i < |blocks| ==> OkAt(cfg, blocks, i)
  }

  /** The checks on one block of the sequence, given the one before it. */
  method VerifyBlock(cfg: Config, prev: Option<ChainBlock>, block: ChainBlock) returns (ok: bool)
    ensures ok <==> BlockOk(cfg, prev, block)
  {
    if HashBlockPayload(cfg, block) != block.hash { return false; }
    if prev.None? {
      if block.number == 1 && block.parentHash != ZERO_HASH { return false; }
    } else {
      if block.parentHash != prev.value.hash { return false; }
      if block.number != prev.value.number + 1 { return false; }
      if block.timestampMs <= prev.value.timestampMs { return false; }
    }
    if !WeightOk(prev, block) { return false; }
    if |cfg.validators| > 0 && block.proposer !in cfg.validators { return false; }
    if cfg.verifier.Some? && cfg.sigMode != Off {
      if block.signature != "" {
        if !cfg.verifier.value("block:" + block.hash, block.signature, block.proposer) { return false; }
      } else if cfg.sigMode == Enforce {
        return false;
      }
    }
    return true;
  }

  method VerifyBlockChain(cfg: Config, blocks: seq<ChainBlock>) returns (ok: bool)
    ensures ok <==> Accepted(cfg, blocks)
  {
    for i := 0 to |blocks|
      invariant forall j :: 0 <= j < i ==> OkAt(cfg, blocks, j)
    {
      var ok' := VerifyBlock(cfg, if i > 0 then Some(blocks[i - 1]) else None, blocks[i]);
      assert ok' <==> OkAt(cfg, blocks, i);
      if !ok' { return false; }
    }
    return true;
  }

  /** What is signed under a block, as far as the policy asks for it. */
  ghost predicate ProperlySigned(cfg: Config, b: ChainBlock, signer: string) {
    cfg.sigMode != Off && cfg.verifier.Some? ==>
      (b.signature != "" ==> cfg.verifier.value("block:" + b.hash, b.signature, signer))
      && (cfg.sigMode == Enforce ==> b.signature != "")
  }

  /** The fields a block's own hash covers. */
  lemma HashText(cfg: Config, b: ChainBlock)
    ensures var p := Payload(b.number, b.parentHash, b.proposer, b.timestampMs, b.txs,
                             match b.baseFee case Some(x) => x case None => 0,
                             match b.cumulativeWeight case Some(x) => x case None => 0,
                             match b.blobGasUsed case Some(x) => x case None => 0,
                             match b.excessBlobGas case Some(x) => x case None => 0,
                             match b.parentBeaconBlockRoot case Some(x) => x case None => "");
            HashBlockPayload(cfg, b) == cfg.digest(PreImage(p))
  {
  }

  /** A weight, once given, is given for every later block, and it is the block's number. */
  ghost predicate Weighed(blocks: seq<ChainBlock>) {
    (forall i :: 0 <= i < |blocks| && blocks[i].cumulativeWeight.Some? ==>
       blocks[i].cumulativeWeight.value == blocks[i].number)
    && (forall i, j :: 0 <= i < j < |blocks| && blocks[i].cumulativeWeight.Some? ==> blocks[j].cumulativeWeight.Some?)
  }

  ghost predicate Rising(blocks: seq<ChainBlock>) {
    forall i, j :: 0 <= i < j < |blocks| ==> blocks[i].timestampMs < blocks[j].timestampMs
  }

  /** The block is the one after its predecessor; a block 1 in front has no parent. */
  ghost predicate LinkedAt(blocks: seq<ChainBlock>, i: nat)
    requires i < |blocks|
  {
    if i == 0 then blocks[i].number == 1 ==> blocks[i].parentHash == ZERO_HASH
    else blocks[i].parentHash == blocks[i - 1].hash && blocks[i].number == blocks[i - 1].number + 1
  }

  ghost predicate Linked(blocks: seq<ChainBlock>) {
    forall i :: 0 <= i < |blocks| ==> LinkedAt(blocks, i)
  }

  /** The block has its own hash right, a proposer among the validators, if there are any, and a proper signature. */
  ghost predicate AttestedBlock(cfg: Config, b: ChainBlock) {
    HashBlockPayload(cfg, b) == b.hash && (cfg.validators != [] ==> b.proposer in cfg.validators)
    && ProperlySigned(cfg, b, b.proposer)
  }

  ghost predicate Attested(cfg: Config, blocks: seq<ChainBlock>) {
    forall i :: 0 <= i < |blocks| ==> AttestedBlock(cfg, blocks[i])
  }

  lemma {:induction false} TimesRise(cfg: Config, blocks: seq<ChainBlock>, i: nat, j: nat)
    requires Accepted(cfg, blocks) && i < j < |blocks|
    ensures blocks[i].timestampMs < blocks[j].timestampMs
    ensures blocks[i].cumulativeWeight.Some? ==> blocks[j].cumulativeWeight.Some?
  {
    assert OkAt(cfg, blocks, j);
    if i < j - 1 {
      TimesRise(cfg, blocks, i, j - 1);
    }
  }

  lemma OneBlock(cfg: Config, blocks: seq<ChainBlock>, i: nat)
    requires i < |blocks| && Linked(blocks) && Rising(blocks) && Weighed(blocks) && Attested(cfg, blocks)
    ensures OkAt(cfg, blocks, i)
  {
    assert LinkedAt(blocks, i) && AttestedBlock(cfg, blocks[i]);
    if i > 0 {
      assert blocks[i - 1].timestampMs < blocks[i].timestampMs;
    }
  }

  /**
   * A sequence is accepted exactly if it is linked from first to last, its times rise throughout, weights are the
   * block numbers from where they start, and every block is attested.
   */
  lemma AcceptedExactly(cfg: Config, blocks: seq<ChainBlock>)
    ensures Accepted(cfg, blocks) <==>
            Linked(blocks) && Rising(blocks) && Weighed(blocks) && Attested(cfg, blocks)
  {
    if Accepted(cfg, blocks) {
      forall i, j | 0 <= i < j < |blocks|
        ensures blocks[i].timestampMs < blocks[j].timestampMs
                && (blocks[i].cumulativeWeight.Some? ==> blocks[j].cumulativeWeight.Some?)
      {
        TimesRise(cfg, blocks, i, j);
      }
      AcceptedIsAttested(cfg, blocks);
    } else {
      if Linked(blocks) && Rising(blocks) && Weighed(blocks) && Attested(cfg, blocks) {
        forall i | 0 <= i < |blocks| ensures OkAt(cfg, blocks, i) {
          OneBlock(cfg, blocks, i);
        }
      }
    }
  }

  lemma AcceptedAt(cfg: Config, blocks: seq<ChainBlock>, i: nat)
    requires Accepted(cfg, blocks) && i < |blocks|
    ensures AttestedBlock(cfg, blocks[i])
    ensures blocks[i].cumulativeWeight.Some? ==> blocks[i].cumulativeWeight.value == blocks[i].number
    ensures LinkedAt(blocks, i)
  {
    assert OkAt(cfg, blocks, i);
  }

  lemma AcceptedIsAttested(cfg: Config, blocks: seq<ChainBlock>)
    requires Accepted(cfg, blocks)
    ensures Linked(blocks) && Attested(cfg, blocks)
    ensures forall i :: 0 <= i < |blocks| && blocks[i].cumulativeWeight.Some? ==>
              blocks[i].cumulativeWeight.value == blocks[i].number
  {
    forall i | 0 <= i < |blocks|
      ensures AttestedBlock(cfg, blocks[i])
      ensures blocks[i].cumulativeWeight.Some? ==> blocks[i].cumulativeWeight.value == blocks[i].number
      ensures LinkedAt(blocks, i)
    {
      AcceptedAt(cfg, blocks, i);
    }
  }

  ghost predicate CollisionFree(digest: string -> string) {
    forall x, y :: digest(x) == digest(y) ==> x == y
  }

  ghost predicate AllClean(blocks: seq<ChainBlock>) { forall i :: 0 <= i < |blocks| ==> Clean(PayloadOf(blocks[i])) }

  lemma SameHashSamePayload(cfg: Config, x: ChainBlock, y: ChainBlock)
    requires CollisionFree(cfg.digest) && Clean(PayloadOf(x)) && Clean(PayloadOf(y))
    requires HashBlockPayload(cfg, x) == HashBlockPayload(cfg, y)
    ensures PayloadOf(x) == PayloadOf(y)
  {
    PreImageInjective(PayloadOf(x), PayloadOf(y));
  }

  lemma ParentsAgree(cfg: Config, a: seq<ChainBlock>, i: nat)
    requires Accepted(cfg, a) && 0 < i < |a|
    ensures a[i - 1].hash == PayloadOf(a[i]).parentHash
  {
    assert OkAt(cfg, a, i);
  }

  lemma HashIsDigest(cfg: Config, a: seq<ChainBlock>, i: nat)
    requires Accepted(cfg, a) && i < |a|
    ensures HashBlockPayload(cfg, a[i]) == a[i].hash
  {
    assert OkAt(cfg, a, i);
  }

  lemma SameHashAt(cfg: Config, a: seq<ChainBlock>, i: nat, b: seq<ChainBlock>, j: nat)
    requires CollisionFree(cfg.digest) && Accepted(cfg, a) && Accepted(cfg, b) && AllClean(a) && AllClean(b)
    requires i < |a| && j < |b| && a[i].hash == b[j].hash
    ensures PayloadOf(a[i]) == PayloadOf(b[j])
  {
    HashIsDigest(cfg, a, i);
    HashIsDigest(cfg, b, j);
    SameHashSamePayload(cfg, a[i], b[j]);
  }

  /** Two accepted sequences with one tip hash agree on every hash-bound field, as far back as both go. */
  lemma {:induction false} TipHashBindsChain(cfg: Config, a: seq<ChainBlock>, b: seq<ChainBlock>, k: nat)
    requires CollisionFree(cfg.digest) && Accepted(cfg, a) && Accepted(cfg, b) && AllClean(a) && AllClean(b)
    requires k < |a| && k < |b| && a[|a| - 1].hash == b[|b| - 1].hash
    ensures a[|a| - 1 - k].hash == b[|b| - 1 - k].hash
    ensures PayloadOf(a[|a| - 1 - k]) == PayloadOf(b[|b| - 1 - k])
  {
    if k > 0 {
      TipHashBindsChain(cfg, a, b, k - 1);
      ParentsAgree(cfg, a, |a| - k);
      ParentsAgree(cfg, b, |b| - k);
    }
    SameHashAt(cfg, a, |a| - 1 - k, b, |b| - 1 - k);
  }

  lemma {:induction false} NumbersConsecutive(cfg: Config, blocks: seq<ChainBlock>, i: nat)
    requires Accepted(cfg, blocks) && i < |blocks|
    ensures blocks[i].number == blocks[0].number + i
  {
    if i > 0 {
      NumbersConsecutive(cfg, blocks, i - 1);
      assert OkAt(cfg, blocks, i);
    }
  }

  /** From block 1 on, the tip hash determines the whole sequence: its length and all hash-bound fields. */
  lemma SameLength(cfg: Config, a: seq<ChainBlock>, b: seq<ChainBlock>)
    requires CollisionFree(cfg.digest) && Accepted(cfg, a) && Accepted(cfg, b) && AllClean(a) && AllClean(b)
    requires a != [] && b != [] && a[0].number == 1 == b[0].number && a[|a| - 1].hash == b[|b| - 1].hash
    ensures |a| == |b|
  {
    TipHashBindsChain(cfg, a, b, 0);
    NumberOfPayload(a[|a| - 1]);
    NumberOfPayload(b[|b| - 1]);
    NumbersConsecutive(cfg, a, |a| - 1);
    NumbersConsecutive(cfg, b, |b| - 1);
  }

  lemma NumberOfPayload(b: ChainBlock)
    ensures PayloadOf(b).number == b.number
  {
  }

  lemma TipHashBindsFullChain(cfg: Config, a: seq<ChainBlock>, b: seq<ChainBlock>)
    requires CollisionFree(cfg.digest) && Accepted(cfg, a) && Accepted(cfg, b) && AllClean(a) && AllClean(b)
    requires a != [] && b != [] && a[0].number == 1 == b[0].number && a[|a| - 1].hash == b[|b| - 1].hash
    ensures |a| == |b| && forall i :: 0 <= i < |a| ==> a[i].hash == b[i].hash && PayloadOf(a[i]) == PayloadOf(b[i])
  {
    SameLength(cfg, a, b);
    forall i | 0 <= i < |a| ensures a[i].hash == b[i].hash && PayloadOf(a[i]) == PayloadOf(b[i]) {
      TipHashBindsChain(cfg, a, b, |a| - 1 - i);
    }
  }

  // ----- the array and its indices

  datatype Chain = Chain(blocks: seq<ChainBlock>, byNumber: map<int, ChainBlock>, byHash: map<string, ChainBlock>)

  /** The block at index `i` has number `i + 1` and is in both indices. */
  ghost predicate SlotOk(c: Chain, i: int)
    requires 0 <= i < |c.blocks|
  {
    var b := c.blocks[i];
    b.number == i + 1 && b.number in c.byNumber && c.byNumber[b.number] == b && b.hash in c.byHash
    && c.byHash[b.hash] == b
  }

  /** The hash index leads to a block of the array. */
  ghost predicate HashOk(c: Chain, h: string)
    requires h in c.byHash
  {
    var b := c.byHash[h];
    b.hash == h && 1 <= b.number <= |c.blocks| && c.blocks[b.number - 1] == b
  }

  /** Blocks are numbered from 1, and both indices hold exactly the blocks of the array. */
  ghost predicate Indexed(c: Chain) {
    (forall i {:trigger SlotOk(c, i)} :: 0 <= i < |c.blocks| ==> SlotOk(c, i))
    && (forall h {:trigger HashOk(c, h)} :: h in c.byHash ==> HashOk(c, h))
    && (forall n :: n in c.byNumber ==> 1 <= n <= |c.blocks|)
  }

  function Depth(cfg: Config): int { if cfg.finalityDepth > 1 then cfg.finalityDepth else 1 }

  /** Exactly the blocks numbered up to `n` are flagged final. */
  ghost predicate FinalUpTo(blocks: seq<ChainBlock>, n: int) {
    forall i :: 0 <= i < |blocks| ==> (blocks[i].finalized <==> i + 1 <= n)
  }

  function Pushed(c: Chain, b: ChainBlock): Chain {
    Chain(c.blocks + [b], c.byNumber[b.number := b], c.byHash[b.hash := b])
  }

  /** The block at index `i` gives way to a version of itself with other metadata. */
  function Updated(c: Chain, i: nat, b: ChainBlock): Chain
    requires i < |c.blocks|
  {
    Chain(c.blocks[i := b], c.byNumber[b.number := b], c.byHash[b.hash := b])
  }

  lemma PushKeepsIndex(c: Chain, b: ChainBlock)
    requires Indexed(c) && b.number == |c.blocks| + 1 && b.hash !in c.byHash
    ensures Indexed(Pushed(c, b))
  {
    var d := Pushed(c, b);
    forall i | 0 <= i < |d.blocks| ensures SlotOk(d, i) {
      assert i < |c.blocks| ==> SlotOk(c, i);
    }
    forall h | h in d.byHash ensures HashOk(d, h) {
      assert h != b.hash ==> HashOk(c, h);
    }
  }

  lemma UpdateKeepsIndex(c: Chain, i: nat, b: ChainBlock)
    requires Indexed(c) && i < |c.blocks| && b.number == c.blocks[i].number && b.hash == c.blocks[i].hash
    ensures Indexed(Updated(c, i, b))
  {
    var d := Updated(c, i, b);
    assert SlotOk(c, i);
    forall j | 0 <= j < |d.blocks| ensures SlotOk(d, j) {
      assert SlotOk(c, j);
    }
    forall h | h in d.byHash ensures HashOk(d, h) {
      assert h in c.byHash ==> HashOk(c, h);
    }
  }

  /** Why a block is refused, if it is, in the order of the checks. */
  function Refusal(cfg: Config, tip: Option<ChainBlock>, b: ChainBlock, local: bool, now: int,
                   exec: Execution): Option<ApplyError> {
    if !LinkOk(tip, b) then Some(BadLink)
    else if ExpectedProposer(cfg, b.number) != b.proposer then Some(BadProposer)
    else if !local && !SignatureOk(cfg, b, cfg.addressOf(b.proposer)) then Some(BadSignature)
    else if !local && (b.timestampMs < 0 || (tip.Some? && b.timestampMs <= tip.value.timestampMs)
                       || b.timestampMs > now + MAX_FUTURE_MS)
    then Some(BadTimestamp)
    else if !WeightOk(tip, b) then Some(BadWeight)
    else if HashBlockPayload(cfg, b) != b.hash then Some(BadHash)
    else if exec.Reverted? || exec.gasUsed > BLOCK_GAS_LIMIT
            || (!local && b.gasUsed.Some? && b.gasUsed.value != exec.gasUsed)
    then Some(BadExecution)
    else if !local && b.stateRootSig != "" && b.stateRoot != "" && cfg.verifier.Some? && cfg.sigMode == Enforce
            && !cfg.verifier.value("stateRoot:" + b.hash + ":" + b.stateRoot, b.stateRootSig, cfg.addressOf(b.proposer))
    then Some(BadStateRootSig)
    else None
  }

  /** What is stored: finality is never taken from the incoming block, BFT finality only from the local path. */
  function Stored(cfg: Config, b: ChainBlock, local: bool, gasUsed: nat): ChainBlock {
    b.(gasUsed := Some(gasUsed),
       stateRootSig := if local && cfg.signer.Some? && b.stateRoot != ""
                       then cfg.signer.value("stateRoot:" + b.hash + ":" + b.stateRoot) else b.stateRootSig,
       finalized := false,
       bftFinalized := local && b.bftFinalized)
  }

  /** Validators take turns in their order, the first one at height 1; without any it is always the node itself. */
  lemma Rotation(cfg: Config, height: int)
    ensures cfg.validators == [] ==> ExpectedProposer(cfg, height) == cfg.nodeId
    ensures 1 <= height <= |cfg.validators| ==> ExpectedProposer(cfg, height) == cfg.validators[height - 1]
    ensures cfg.validators != [] && height < 1 ==> ExpectedProposer(cfg, height) == cfg.validators[0]
    ensures height >= 1 ==> ExpectedProposer(cfg, height + |cfg.validators|) == ExpectedProposer(cfg, height)
  {
    if cfg.validators != [] && height >= 1 {
      AddModulus(height - 1, |cfg.validators|);
      if height <= |cfg.validators| {
        SameRemainder(height - 1, |cfg.validators|, 0, height - 1);
      }
    }
  }

  lemma AddModulus(h: nat, n: nat)
    requires n > 0
    ensures (h + n) % n == h % n
  {
    var q, r := h / n, h % n;
    assert n * (q + 1) == n * q + n;
    SameRemainder(h + n, n, q + 1, r);
  }

  lemma SameRemainder(x: nat, n: nat, q: nat, r: nat)
    requires n > 0 && x == n * q + r && r < n
    ensures x % n == r
  {
    var p, s := x / n, x % n;
    assert x == n * p + s;
    Multiples(n, p + 1, q);
    Multiples(n, q + 1, p);
    assert n * (p + 1) == n * p + n && n * (q + 1) == n * q + n;
  }

  lemma Multiples(n: nat, a: int, b: int)
    ensures a <= b ==> n * a <= n * b
  {
  }

  /** The block goes on from the tip: number, parent, proposer, weight and hash are what they have to be. */
  ghost predicate Extends(cfg: Config, tip: Option<ChainBlock>, b: ChainBlock) {
    (tip.None? ==> b.number == 1 && b.parentHash == ZERO_HASH)
    && (tip.Some? ==> b.number == tip.value.number + 1 && b.parentHash == tip.value.hash)
    && b.proposer == ExpectedProposer(cfg, b.number) && b.hash == HashBlockPayload(cfg, b)
    && (b.cumulativeWeight.Some? ==> b.cumulativeWeight.value == b.number)
    && (tip.Some? && tip.value.cumulativeWeight.Some? ==> b.cumulativeWeight.Some?)
  }

  /** What is asked of a block that comes from elsewhere: signatures, its time, and the gas it claims. */
  ghost predicate Presentable(cfg: Config, tip: Option<ChainBlock>, b: ChainBlock, now: int, gasUsed: nat) {
    ProperlySigned(cfg, b, cfg.addressOf(b.proposer)) && 0 <= b.timestampMs <= now + 60_000
    && (tip.Some? ==> tip.value.timestampMs < b.timestampMs)
    && (b.gasUsed.Some? ==> b.gasUsed.value == gasUsed)
    && (cfg.sigMode == Enforce && cfg.verifier.Some? && b.stateRoot != "" && b.stateRootSig != "" ==>
          cfg.verifier.value("stateRoot:" + b.hash + ":" + b.stateRoot, b.stateRootSig, cfg.addressOf(b.proposer)))
  }

  /** Exactly the blocks that go on from the tip, run within 30 million gas and are presentable or local are taken. */
  lemma TakenExactly(cfg: Config, tip: Option<ChainBlock>, b: ChainBlock, local: bool, now: int, exec: Execution)
    ensures Refusal(cfg, tip, b, local, now, exec) == None <==>
            Extends(cfg, tip, b) && exec.Executed? && exec.gasUsed <= 30_000_000
            && (local || Presentable(cfg, tip, b, now, exec.gasUsed))
  {
  }

  /** A refusal names something that is wrong. */
  lemma RefusalNames(cfg: Config, tip: Option<ChainBlock>, b: ChainBlock, local: bool, now: int, exec: Execution)
    requires Refusal(cfg, tip, b, local, now, exec).Some?
    ensures match Refusal(cfg, tip, b, local, now, exec).value
            case Reentrant => false
            case BadLink =>
              if tip.None? then b.number != 1 || b.parentHash != ZERO_HASH
              else b.number != tip.value.number + 1 || b.parentHash != tip.value.hash
            case BadProposer => b.proposer != ExpectedProposer(cfg, b.number)
            case BadSignature => !local && !ProperlySigned(cfg, b, cfg.addressOf(b.proposer))
            case BadTimestamp =>
              !local && !(0 <= b.timestampMs <= now + 60_000 && (tip.Some? ==> tip.value.timestampMs < b.timestampMs))
            case BadWeight =>
              if b.cumulativeWeight.Some? then b.cumulativeWeight.value != b.number
              else tip.Some? && tip.value.cumulativeWeight.Some?
            case BadHash => b.hash != HashBlockPayload(cfg, b)
            case BadExecution =>
              exec.Executed? && exec.gasUsed <= 30_000_000 ==>
                !local && b.gasUsed.Some? && b.gasUsed.value != exec.gasUsed
            case BadStateRootSig =>
              !local && cfg.sigMode == Enforce && cfg.verifier.Some? && b.stateRoot != "" && b.stateRootSig != ""
              && !cfg.verifier.value("stateRoot:" + b.hash + ":" + b.stateRoot, b.stateRootSig,
                                     cfg.addressOf(b.proposer))
  {
  }

  /** What is stored of a block: all that its hash covers, the gas it took, and finality only on the node's own word. */
  lemma StoredBlock(cfg: Config, b: ChainBlock, local: bool, gasUsed: nat)
    ensures var c := Stored(cfg, b, local, gasUsed);
            c.hash == b.hash && PayloadOf(c) == PayloadOf(b) && c.cumulativeWeight == b.cumulativeWeight
            && c.gasUsed == Some(gasUsed) && !c.finalized && (c.bftFinalized <==> local && b.bftFinalized)
            && c.signature == b.signature && c.stateRoot == b.stateRoot
            && (!local || cfg.signer.None? || b.stateRoot == "" ==> c.stateRootSig == b.stateRootSig)
            && (local && cfg.signer.Some? && b.stateRoot != "" ==>
                  c.stateRootSig == cfg.signer.value("stateRoot:" + b.hash + ":" + b.stateRoot))
  {
  }

  // ----- every chain that is built

  ghost predicate GroundedAt(cfg: Config, blocks: seq<ChainBlock>, i: nat)
    requires i < |blocks|
  {
    Extends(cfg, Before(blocks, i), blocks[i]) && blocks[i].gasUsed.Some? && blocks[i].gasUsed.value <= 30_000_000
  }

  /** Every block goes on from the one before it, and ran within the gas limit. */
  ghost predicate Grounded(cfg: Config, blocks: seq<ChainBlock>) {
    forall i :: 0 <= i < |blocks| ==> GroundedAt(cfg, blocks, i)
  }

  /** The same but for the two finality flags. */
  ghost predicate Alike(a: ChainBlock, b: ChainBlock) {
    a.(finalized := false, bftFinalized := false) == b.(finalized := false, bftFinalized := false)
  }

  ghost predicate AllAlike(a: seq<ChainBlock>, b: seq<ChainBlock>) {
    |a| == |b| && forall i :: 0 <= i < |a| ==> Alike(a[i], b[i])
  }

  lemma AlikeExtends(cfg: Config, p: Option<ChainBlock>, q: Option<ChainBlock>, a: ChainBlock, b: ChainBlock)
    requires Extends(cfg, p, a) && Alike(a, b) && (p.None? <==> q.None?) && (p.Some? ==> Alike(p.value, q.value))
    ensures Extends(cfg, q, b)
  {
    assert PayloadOf(a) == PayloadOf(b);
  }

  lemma AlikeGrounded(cfg: Config, a: seq<ChainBlock>, b: seq<ChainBlock>)
    requires Grounded(cfg, a) && AllAlike(a, b)
    ensures Grounded(cfg, b)
  {
    forall i | 0 <= i < |b| ensures GroundedAt(cfg, b, i) {
      assert GroundedAt(cfg, a, i) && Alike(a[i], b[i]);
      AlikeExtends(cfg, Before(a, i), Before(b, i), a[i], b[i]);
    }
  }

  lemma UpdatedGrounded(cfg: Config, blocks: seq<ChainBlock>, i: int, b: ChainBlock)
    requires Grounded(cfg, blocks) && 0 <= i < |blocks| && Alike(blocks[i], b)
    ensures Grounded(cfg, blocks[i := b])
  {
    AlikeGrounded(cfg, blocks, blocks[i := b]);
  }

  lemma GroundedGrows(cfg: Config, blocks: seq<ChainBlock>, b: ChainBlock)
    requires Grounded(cfg, blocks) && b.gasUsed.Some? && b.gasUsed.value <= 30_000_000
    requires Extends(cfg, if blocks == [] then None else Some(blocks[|blocks| - 1]), b)
    ensures Grounded(cfg, blocks + [b])
  {
    var all := blocks + [b];
    forall i | 0 <= i < |all| ensures GroundedAt(cfg, all, i) {
      if i < |blocks| {
        assert GroundedAt(cfg, blocks, i);
        assert Before(all, i) == Before(blocks, i);
      }
    }
  }

  method IndexOf(blocks: seq<ChainBlock>, b: ChainBlock) returns (i: int)
    ensures if i >= 0 then i < |blocks| && blocks[i] == b else b !in blocks
  {
    for k := 0 to |blocks|
      invariant b !in blocks[..k]
    {
      if blocks[k] == b { return k; }
    }
    return -1;
  }

  lemma WhereItIs(c: Chain, b: ChainBlock, i: int)
    requires Indexed(c) && b.hash in c.byHash && c.byHash[b.hash] == b
    ensures b in c.blocks
    ensures 0 <= i < |c.blocks| && c.blocks[i] == b ==> i == b.number - 1
  {
    assert HashOk(c, b.hash);
    assert 0 <= i < |c.blocks| ==> SlotOk(c, i);
  }

  /** What the BFT callback may change of a stored block. */
  function Promoted(b: ChainBlock, incoming: ChainBlock, local: bool): ChainBlock {
    if b.hash == incoming.hash && local && incoming.bftFinalized then b.(bftFinalized := true) else b
  }

  /** The same blocks up to their finality flags. */
  ghost predicate SameButFlags(a: seq<ChainBlock>, b: seq<ChainBlock>) {
    |a| == |b| && forall i :: 0 <= i < |a| ==> a[i].(finalized := false) == b[i].(finalized := false)
  }

  lemma NumberIsPlace(c: Chain, i: int)
    requires Indexed(c) && 0 <= i < |c.blocks|
    ensures c.blocks[i].number == i + 1 && c.blocks[i].hash in c.byHash && c.byHash[c.blocks[i].hash] == c.blocks[i]
  {
    assert SlotOk(c, i);
  }

  lemma FlagNext(before: seq<ChainBlock>, after: seq<ChainBlock>, n: int)
    requires FinalUpTo(before, n) && n >= 0 && n < |before|
    requires after == before[n := before[n].(finalized := true)]
    ensures FinalUpTo(after, n + 1) && SameButFlags(after, before)
  {
  }

  lemma PromotedAt(c: Chain, existing: ChainBlock, incoming: ChainBlock)
    requires Indexed(c) && incoming.hash in c.byHash && existing == c.byHash[incoming.hash]
    ensures existing.hash == incoming.hash && 1 <= existing.number <= |c.blocks|
            && c.blocks[existing.number - 1] == existing
    ensures forall i :: 0 <= i < |c.blocks| && i != existing.number - 1 ==> c.blocks[i].hash != incoming.hash
  {
    assert HashOk(c, incoming.hash);
    forall i | 0 <= i < |c.blocks| && i != existing.number - 1 ensures c.blocks[i].hash != incoming.hash {
      NumberIsPlace(c, i);
    }
  }

  function HashSet(blocks: seq<ChainBlock>): set<string> { set b | b in blocks :: b.hash }

  lemma HashSetGrows(blocks: seq<ChainBlock>, i: nat)
    requires i < |blocks|
    ensures HashSet(blocks[..i + 1]) == HashSet(blocks[..i]) + {blocks[i].hash}
  {
    assert blocks[..i + 1] == blocks[..i] + [blocks[i]];
  }

  /** What replaying the first `n` of the given blocks stores: each hash once, in order, nothing taken on trust. */
  function Replayed(cfg: Config, input: seq<ChainBlock>, n: nat, execute: nat -> Execution): seq<ChainBlock>
    requires n <= |input|
  {
    if n == 0 then []
    else
      var done, b := Replayed(cfg, input, n - 1, execute), input[n - 1];
      if b.hash in HashSet(input[..n - 1]) then done
      else done + [Stored(cfg, b, false, if execute(n - 1).Executed? then execute(n - 1).gasUsed else 0)]
  }

  /** Of blocks with different hashes, all are stored in their order. */
  lemma {:induction false} ReplayedDistinct(cfg: Config, input: seq<ChainBlock>, n: nat, execute: nat -> Execution,
                                            i: nat)
    requires i < n <= |input| && forall j, k :: 0 <= j < k < |input| ==> input[j].hash != input[k].hash
    ensures |Replayed(cfg, input, n, execute)| == n
    ensures execute(i).Executed? ==>
              Replayed(cfg, input, n, execute)[i] == Stored(cfg, input[i], false, execute(i).gasUsed)
  {
    if n > 1 {
      ReplayedDistinct(cfg, input, n - 1, execute, if i < n - 1 then i else 0);
    }
    assert input[n - 1].hash !in HashSet(input[..n - 1]);
  }

  /** A known block gains the BFT flag exactly if the node itself brings it with that flag. */
  lemma PromotedFlag(b: ChainBlock, incoming: ChainBlock, local: bool)
    ensures var c := Promoted(b, incoming, local);
            c == b.(bftFinalized := c.bftFinalized)
            && (c.bftFinalized <==> b.bftFinalized || (local && incoming.bftFinalized && incoming.hash == b.hash))
  {
  }

  lemma FlagsTransitive(a: seq<ChainBlock>, b: seq<ChainBlock>, c: seq<ChainBlock>, x: ChainBlock)
    requires SameButFlags(a, b + [x]) && SameButFlags(b, c)
    ensures SameButFlags(a, c + [x])
  {
  }

  class Engine {
    const cfg: Config
    var blocks: seq<ChainBlock>
    var blockByNumber: map<int, ChainBlock>
    var blockByHash: map<string, ChainBlock>
    var applyingBlock: bool

    function View(): Chain
      reads this
    {
      Chain(blocks, blockByNumber, blockByHash)
    }

    /**
     * The array and both indices agree, a block is final exactly when it is deep enough below the tip, and each block
     * goes on from the one before it.
     */
    ghost predicate Valid()
      reads this
    {
      Indexed(View()) && FinalUpTo(blocks, |blocks| - Depth(cfg)) && Grounded(cfg, blocks)
    }

    constructor (cfg: Config)
      ensures Valid() && this.cfg == cfg && blocks == [] && !applyingBlock
    {
      this.cfg := cfg;
      blocks, blockByNumber, blockByHash, applyingBlock := [], map[], map[], false;
    }

    function Tip(): Option<ChainBlock>
      reads this
    {
      if blocks == [] then None else Some(blocks[|blocks| - 1])
    }

    method GetHighestFinalizedBlock() returns (n: int)
      requires Valid()
      ensures 0 <= n
      ensures forall i :: 0 <= i < |blocks| ==> (blocks[i].finalized <==> blocks[i].number <= n)
      ensures n > 0 ==> n < |blocks| && n + cfg.finalityDepth <= |blocks|
      ensures n + 1 < |blocks| ==> n + 1 + cfg.finalityDepth > |blocks|
    {
      if blocks != [] { NumberIsPlace(View(), |blocks| - 1); }
      var tip := if blocks == [] then 0 else blocks[|blocks| - 1].number;
      var finalized := tip - Depth(cfg);
      n := if finalized < 0 then 0 else finalized;
      forall i | 0 <= i < |blocks| ensures blocks[i].finalized <==> blocks[i].number <= n {
        NumberIsPlace(View(), i);
      }
    }

    /** Replaces a stored block by a version with other metadata, in the array and both indices. */
    method Store(existing: ChainBlock, updated: ChainBlock)
      requires Indexed(View()) && existing.hash in blockByHash && blockByHash[existing.hash] == existing
      requires updated.number == existing.number && updated.hash == existing.hash
      modifies this`blocks, this`blockByNumber, this`blockByHash
      ensures Indexed(View()) && 1 <= existing.number <= |old(blocks)|
      ensures blocks == old(blocks)[existing.number - 1 := updated] && blockByHash.Keys == old(blockByHash).Keys
    {
      var arrIdx := IndexOf(blocks, existing);
      WhereItIs(View(), existing, arrIdx);
      UpdateKeepsIndex(View(), arrIdx, updated);
      blocks := blocks[arrIdx := updated];
      blockByNumber := blockByNumber[updated.number := updated];
      blockByHash := blockByHash[updated.hash := updated];
    }

    /** Flags the block that the new tip makes final. */
    method UpdateFinalityFlags()
      requires Indexed(View()) && FinalUpTo(blocks, |blocks| - 1 - Depth(cfg)) && Grounded(cfg, blocks)
      modifies this`blocks, this`blockByNumber, this`blockByHash
      ensures Valid() && SameButFlags(blocks, old(blocks)) && blockByHash.Keys == old(blockByHash).Keys
    {
      if blocks != [] { NumberIsPlace(View(), |blocks| - 1); }
      var tip := if blocks == [] then 0 else blocks[|blocks| - 1].number;
      var newlyFinal := tip - Depth(cfg);
      if newlyFinal < 1 { return; }
      assert SlotOk(View(), newlyFinal - 1);
      FlagNext(blocks, blocks[newlyFinal - 1 := blocks[newlyFinal - 1].(finalized := true)], newlyFinal - 1);
      if newlyFinal in blockByNumber && !blockByNumber[newlyFinal].finalized {
        var block := blockByNumber[newlyFinal];
        Store(block, block.(finalized := true));
        AlikeGrounded(cfg, old(blocks), blocks);
      }
    }

    /** Marks a stored block as BFT finalized, on the local path only. */
    method Promote(block: ChainBlock, locallyProposed: bool)
      requires Valid() && block.hash in blockByHash
      modifies this`blocks, this`blockByNumber, this`blockByHash
      ensures Valid() && blockByHash.Keys == old(blockByHash).Keys && |blocks| == |old(blocks)|
      ensures forall i :: 0 <= i < |blocks| ==> blocks[i] == Promoted(old(blocks)[i], block, locallyProposed)
    {
      var existing := blockByHash[block.hash];
      PromotedAt(View(), existing, block);
      if locallyProposed && block.bftFinalized && !existing.bftFinalized {
        UpdatedGrounded(cfg, blocks, existing.number - 1, existing.(bftFinalized := true));
        Store(existing, existing.(bftFinalized := true));
      }
    }

    lemma StoredExtends(tip: Option<ChainBlock>, b: ChainBlock, local: bool, now: int, exec: Execution)
      requires Refusal(cfg, tip, b, local, now, exec).None?
      ensures exec.Executed? && exec.gasUsed <= 30_000_000
      ensures Extends(cfg, tip, Stored(cfg, b, local, exec.gasUsed))
    {
      TakenExactly(cfg, tip, b, local, now, exec);
      StoredBlock(cfg, b, local, exec.gasUsed);
    }

    /** Exactly the blocks below the tip with at least `finalityDepth` blocks from them to the tip are final. */
    lemma FinalExactly(i: int)
      requires Valid() && 0 <= i < |blocks|
      ensures blocks[i].finalized <==> blocks[i].number < |blocks| && blocks[i].number + cfg.finalityDepth <= |blocks|
    {
      NumberIsPlace(View(), i);
    }

    method Append(stored: ChainBlock)
      requires Valid() && stored.number == |blocks| + 1 && stored.hash !in blockByHash && !stored.finalized
      requires Extends(cfg, Tip(), stored) && stored.gasUsed.Some? && stored.gasUsed.value <= 30_000_000
      modifies this`blocks, this`blockByNumber, this`blockByHash
      ensures Valid() && SameButFlags(blocks, old(blocks) + [stored])
      ensures blockByHash.Keys == old(blockByHash).Keys + {stored.hash}
    {
      PushKeepsIndex(View(), stored);
      GroundedGrows(cfg, blocks, stored);
      blocks := blocks + [stored];
      blockByNumber := blockByNumber[stored.number := stored];
      blockByHash := blockByHash[stored.hash := stored];
      UpdateFinalityFlags();
    }

    /**
     * A refused block changes nothing; a known one changes at most its BFT flag; a new one becomes the tip, with the
     * flags of the others brought up to date.
     */
    method ApplyBlock(block: ChainBlock, locallyProposed: bool, now: int, exec: Execution) returns (r: Applied)
      requires Valid()
      modifies this
      ensures Valid() && applyingBlock == old(applyingBlock)
      ensures r == if old(applyingBlock) then Err(Reentrant)
                   else if block.hash in old(blockByHash) then Ok
                   else match Refusal(cfg, old(Tip()), block, locallyProposed, now, exec)
                        case Some(e) => Err(e)
                        case None => Ok
      ensures r.Err? ==> View() == old(View())
      ensures r.Ok? ==> blockByHash.Keys == old(blockByHash).Keys + {block.hash}
      ensures r.Ok? && block.hash in old(blockByHash)
              ==> |blocks| == |old(blocks)|
                  && forall i :: 0 <= i < |blocks| ==> blocks[i] == Promoted(old(blocks)[i], block, locallyProposed)
      ensures r.Ok? && block.hash !in old(blockByHash)
              ==> exec.Executed?
                  && SameButFlags(blocks, old(blocks) + [Stored(cfg, block, locallyProposed, exec.gasUsed)])
    {
      if applyingBlock { return Err(Reentrant); }
      if block.hash in blockByHash {
        Promote(block, locallyProposed);
        return Ok;
      }
      var refusal := Refusal(cfg, Tip(), block, locallyProposed, now, exec);
      if refusal.Some? { return Err(refusal.value); }
      Take(block, locallyProposed, now, exec);
      return Ok;
    }

    /** The block is stored behind the tip. */
    method Take(block: ChainBlock, locallyProposed: bool, ghost now: int, exec: Execution)
      requires Valid() && block.hash !in blockByHash
      requires Refusal(cfg, Tip(), block, locallyProposed, now, exec).None?
      modifies this`blocks, this`blockByNumber, this`blockByHash
      ensures Valid() && blockByHash.Keys == old(blockByHash).Keys + {block.hash}
      ensures exec.Executed?
              && SameButFlags(blocks, old(blocks) + [Stored(cfg, block, locallyProposed, exec.gasUsed)])
    {
      if blocks != [] { NumberIsPlace(View(), |blocks| - 1); }
      StoredExtends(Tip(), block, locallyProposed, now, exec);
      Append(Stored(cfg, block, locallyProposed, exec.gasUsed));
    }

    /** The blocks before the `k`th were replayed, and that one is refused. */
    ghost predicate StoppedAt(input: seq<ChainBlock>, k: int, now: int, execute: nat -> Execution, error: ApplyError)
      reads this
    {
      0 <= k < |input| && input[k].hash !in blockByHash && blockByHash.Keys == HashSet(input[..k])
      && SameButFlags(blocks, Replayed(cfg, input, k, execute))
      && if applyingBlock then error == Reentrant
         else Refusal(cfg, Tip(), input[k], false, now, execute(k)) == Some(error)
    }

    /** Starts over from the given blocks; on a refusal the chain is what was applied up to there. */
    method RebuildFromBlocks(input: seq<ChainBlock>, now: int, execute: nat -> Execution) returns (r: Applied)
      requires Valid()
      modifies this
      ensures Valid() && applyingBlock == old(applyingBlock)
      ensures r.Ok? ==> SameButFlags(blocks, Replayed(cfg, input, |input|, execute))
                        && blockByHash.Keys == HashSet(input)
      ensures r.Err? ==> exists k :: StoppedAt(input, k, now, execute, r.error)
    {
      blocks, blockByNumber, blockByHash := [], map[], map[];
      for i := 0 to |input|
        invariant Valid() && applyingBlock == old(applyingBlock)
        invariant i > 0 ==> !applyingBlock
        invariant blockByHash.Keys == HashSet(input[..i]) && SameButFlags(blocks, Replayed(cfg, input, i, execute))
      {
        r := ReplayNext(input, i, now, execute);
        if r.Err? { return; }
      }
      assert input[..|input|] == input;
      return Ok;
    }

    /** The next of the blocks is applied, or the replay stops. */
    method ReplayNext(input: seq<ChainBlock>, i: nat, now: int, execute: nat -> Execution) returns (r: Applied)
      requires Valid() && i < |input| && (i > 0 ==> !applyingBlock)
      requires blockByHash.Keys == HashSet(input[..i]) && SameButFlags(blocks, Replayed(cfg, input, i, execute))
      modifies this
      ensures Valid() && applyingBlock == old(applyingBlock) && (r.Ok? ==> !applyingBlock)
      ensures r.Err? ==> StoppedAt(input, i, now, execute, r.error)
      ensures r.Ok? ==> blockByHash.Keys == HashSet(input[..i + 1])
                        && SameButFlags(blocks, Replayed(cfg, input, i + 1, execute))
    {
      HashSetGrows(input, i);
      r := ApplyBlock(input[i], false, now, execute(i));
      if r.Err? {
        assert i == 0 ==> input[..i] == [];
        assert StoppedAt(input, i, now, execute, r.error);
      } else if input[i].hash !in old(blockByHash) {
        FlagsTransitive(blocks, old(blocks), Replayed(cfg, input, i, execute),
                        Stored(cfg, input[i], false, execute(i).gasUsed));
      }
    }
  }
}
