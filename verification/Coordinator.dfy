/** The coordinator of BFT rounds. A step is what one handler does between two suspension points. */
module Coordinator {
  import opened Options
  import opened Text
  import opened Decimal
  import opened Quorum
  import opened Round
  import opened Detector

  const MAX_TRACKED_HEIGHTS: nat := 100
  const PENDING_LIMIT: nat := 50
  const FUTURE_GAP: nat := 10

  /** `verifier` answers whether a signature over a canonical text is by a sender. */
  datatype Config = Config(localId: string, hasSigner: bool, verifier: Option<(string, string, string) -> bool>)

  datatype State = State(
    validators: seq<Validator>,
    active: Option<RoundState>,
    pending: seq<BftMessage>,
    deferred: Option<Block>,
    lastFinalized: int,
    votes: VoteTable)

  /** A finalized block with the voters of the round that finalized it. */
  datatype Final = Final(block: Block, preparers: set<string>, committers: set<string>)

  datatype Outcome = Outcome(state: State, finals: seq<Final>)

  function Initial(vs: seq<Validator>): State {
    State(vs, None, [], None, 0, map[])
  }

  function KindName(k: MessageKind): string {
    match k
    case ProposeMsg => "propose"
    case PrepareMsg => "prepare"
    case CommitMsg => "commit"
  }

  /** The text a BFT message signature covers. */
  function Canonical(kind: MessageKind, height: int, blockHash: string): string {
    "bft" + [':'] + (KindName(kind) + [':'] + (Numeral(height) + [':'] + blockHash))
  }

  predicate Authentic(cfg: Config, m: BftMessage) {
    m.signature != ""
    && match cfg.verifier
       case Some(verify) => verify(Canonical(m.kind, m.height, m.blockHash), m.signature, m.senderId)
       case None => !cfg.hasSigner
  }

  predicate IsDuplicate(pending: seq<BftMessage>, m: BftMessage) {
    exists i :: 0 <= i < |pending| && pending[i].senderId == m.senderId && pending[i].kind == m.kind
      && pending[i].height == m.height
  }

  function Buffered(pending: seq<BftMessage>, m: BftMessage): seq<BftMessage> {
    if |pending| < PENDING_LIMIT && !IsDuplicate(pending, m) then pending + [m] else pending
  }

  function KindOfVote(k: MessageKind): VoteKind
    requires k != ProposeMsg
  {
    if k == PrepareMsg then PrepareVote else CommitVote
  }

  function CastOf(m: BftMessage): Cast
    requires m.kind != ProposeMsg
  {
    Cast(m.senderId, m.height, KindOfVote(m.kind), m.blockHash)
  }

  function VoteStep(r: RoundState, m: BftMessage): RoundState
    requires m.kind != ProposeMsg
  {
    if m.kind == PrepareMsg then PrepareStep(r, m.senderId, m.blockHash) else CommitStep(r, m.senderId, m.blockHash)
  }

  /** The vote is counted in round `r`; a round that finalizes is cleared at once. */
  function CountVote(s: State, r: RoundState, m: BftMessage): Outcome
    requires m.kind != ProposeMsg
  {
    var r' := VoteStep(r, m);
    if r'.phase == Finalized && r'.proposed.Some? && (m.kind == PrepareMsg || r.phase == Commit)
    then Outcome(s.(active := None, lastFinalized := m.height),
                 [Final(r'.proposed.value, r'.prepareVotes.Keys, r'.commitVotes.Keys)])
    else Outcome(s.(active := Some(r')), [])
  }

  /** A vote for the round in progress, with a signature that is accepted. */
  predicate Admissible(cfg: Config, s: State, m: BftMessage) {
    s.active.Some? && m.height == s.active.value.height && m.kind != ProposeMsg && Authentic(cfg, m)
  }

  /** The local commit vote that goes out when a prepare vote brings the round into the commit phase. */
  function LocalCommit(r: RoundState, m: BftMessage): seq<BftMessage>
    requires m.kind != ProposeMsg
  {
    if m.kind == PrepareMsg && r.phase == Prepare && VoteStep(r, m).phase == Commit && r.IsValidator()
    then [BftMessage(CommitMsg, r.height, m.blockHash, r.localId, "")] else []
  }

  ghost function DeliverStep(cfg: Config, s: State, m: BftMessage): Outcome {
    if s.active.None? then Outcome(s.(pending := Buffered(s.pending, m)), [])
    else
      var r := s.active.value;
      if m.height != r.height then
        Outcome(if r.height < m.height <= r.height + FUTURE_GAP then s.(pending := Buffered(s.pending, m)) else s, [])
      else if m.kind == ProposeMsg || !Authentic(cfg, m) then Outcome(s, [])
      else if Conflict(s.votes, CastOf(m)) != "" then Outcome(s, [])
      else CountVote(s.(votes := Record(s.votes, MAX_TRACKED_HEIGHTS, CastOf(m))), r, m)
  }

  function DropTerminal(s: State): State {
    if s.active.Some? && (s.active.value.phase == Finalized || s.active.value.phase == Failed) then s.(active := None)
    else s
  }

  /** A round in progress that has votes is not given up. */
  predicate HasProgress(s: State) {
    s.active.Some? && (s.active.value.phase == Prepare || s.active.value.phase == Commit)
    && (|s.active.value.prepareVotes| > 0 || |s.active.value.commitVotes| > 0)
  }

  /** Up to the first suspension: the block is deferred if the active round has votes, or else a round starts on it. */
  function BeginRound(cfg: Config, s: State, block: Block): State {
    var s1 := DropTerminal(s);
    if HasProgress(s1) then s1.(deferred := Some(block))
    else s1.(active := Some(ProposeStep(NewRound(block.number, s.validators, cfg.localId), block, block.proposer)),
             deferred := None)
  }

  /** The local prepare vote goes out exactly when a new round accepts its block. */
  function Announced(before: State, after: State): seq<BftMessage> {
    if after.active.Some? && after.active != before.active && after.active.value.phase == Prepare
       && after.active.value.proposed.Some? && after.active.value.IsValidator()
    then var r := after.active.value; [BftMessage(PrepareMsg, r.height, r.proposed.value.hash, r.localId, "")]
    else []
  }

  function ReceiveStep(cfg: Config, s: State, block: Block): State {
    if Lower(block.proposer) == Lower(cfg.localId) then s
    else
      var s1 := DropTerminal(s);
      if s1.active.None? then BeginRound(cfg, s1, block)
      else
        var r := s1.active.value;
        if block.number <= r.height then s
        else if r.phase == Commit || (r.phase == Prepare && (|r.prepareVotes| > 1 || |r.commitVotes| > 0))
        then s1.(deferred := Some(block))
        else BeginRound(cfg, s1.(active := None), block)
  }

  function DeferredStep(cfg: Config, s: State): State {
    var s1 := s.(deferred := None);
    if s.deferred.None? || s.deferred.value.number <= s.lastFinalized then s1
    else BeginRound(cfg, s1, s.deferred.value)
  }

  function TimeoutStep(cfg: Config, s: State): State {
    if DropTerminal(s).active.None? then s else DeferredStep(cfg, s.(active := None))
  }

  function Later(pending: seq<BftMessage>, height: int): seq<BftMessage> {
    if pending == [] then []
    else
      var m := pending[|pending| - 1];
      Later(pending[..|pending| - 1], height) + (if m.height > height then [m] else [])
  }

  function At(pending: seq<BftMessage>, height: int, commits: bool): seq<BftMessage> {
    if pending == [] then []
    else
      var m := pending[|pending| - 1];
      At(pending[..|pending| - 1], height, commits)
      + (if m.height == height && (m.kind == CommitMsg) == commits then [m] else [])
  }

  /** Everything that can happen to a coordinator; `Deliver` also stands for the replay of a buffered message. */
  datatype Event =
    | StartRound(block: Block)
    | TakeBuffered(height: int)
    | Deliver(msg: BftMessage)
    | ReceiveBlock(block: Block)
    | ProcessDeferred
    | Timeout
    | Stop

  ghost function Step(cfg: Config, s: State, e: Event): Outcome {
    match e
    case StartRound(block) => Outcome(BeginRound(cfg, s, block), [])
    case TakeBuffered(height) => Outcome(s.(pending := Later(s.pending, height)), [])
    case Deliver(msg) => DeliverStep(cfg, s, msg)
    case ReceiveBlock(block) => Outcome(ReceiveStep(cfg, s, block), [])
    case ProcessDeferred => Outcome(DeferredStep(cfg, s), [])
    case Timeout => Outcome(TimeoutStep(cfg, s), [])
    case Stop => Outcome(s.(active := None, pending := [], deferred := None), [])
  }

  /** A run from the initial state, with all it finalizes. */
  ghost function Run(cfg: Config, vs: seq<Validator>, events: seq<Event>): Outcome {
    if events == [] then Outcome(Initial(vs), [])
    else
      var o := Run(cfg, vs, events[..|events| - 1]);
      var next := Step(cfg, o.state, events[|events| - 1]);
      Outcome(next.state, o.finals + next.finals)
  }

  // ----- the coordinator object

  class BftCoordinator {
    const cfg: Config
    const detector: EquivocationDetector
    var validators: seq<Validator>
    var activeRound: BftRound?
    var pendingMessages: seq<BftMessage>
    var deferredBlock: Option<Block>
    var lastFinalizedHeight: int

    ghost function View(): State
      reads this, activeRound, detector
    {
      State(validators, if activeRound == null then None else Some(activeRound.State()),
            pendingMessages, deferredBlock, lastFinalizedHeight, detector.votes)
    }

    ghost predicate Valid()
      reads this, activeRound, detector
    {
      detector.Valid() && detector.maxTrackedHeights == MAX_TRACKED_HEIGHTS
      && (activeRound != null ==> activeRound.localId == cfg.localId && activeRound.Valid())
    }

    constructor (cfg: Config, validators: seq<Validator>)
      ensures Valid() && fresh(detector)
      ensures this.cfg == cfg && View() == Initial(validators)
    {
      this.cfg := cfg;
      this.validators := validators;
      activeRound, pendingMessages, deferredBlock, lastFinalizedHeight := null, [], None, 0;
      detector := new EquivocationDetector(MAX_TRACKED_HEIGHTS, 1000, 100);
    }

    method Begin(block: Block) returns (outgoing: seq<BftMessage>)
      requires Valid()
      modifies this
      ensures Valid() && View() == BeginRound(cfg, old(View()), block)
      ensures activeRound == old(activeRound) || activeRound == null || fresh(activeRound)
      ensures outgoing == Announced(old(View()), View())
    {
      outgoing := [];
      if activeRound != null && (activeRound.phase == Finalized || activeRound.phase == Failed) {
        activeRound := null;
      }
      if activeRound != null {
        var hasProgress := |activeRound.prepareVotes| > 0 || |activeRound.commitVotes| > 0;
        if (activeRound.phase == Prepare || activeRound.phase == Commit) && hasProgress {
          deferredBlock := Some(block);
          return;
        }
      }
      outgoing := OpenRound(block);
    }

    /** A new round on the block replaces whatever was active. */
    method OpenRound(block: Block) returns (outgoing: seq<BftMessage>)
      requires Valid()
      modifies this
      ensures Valid() && fresh(activeRound)
      ensures View() == old(View()).(active := Some(ProposeStep(NewRound(block.number, validators, cfg.localId),
                                                                block, block.proposer)),
                                     deferred := None)
      ensures outgoing == Announced(old(View()).(active := None), View())
    {
      activeRound := null;
      deferredBlock := None;
      var round := new BftRound(block.number, validators, cfg.localId);
      outgoing := round.HandlePropose(block, block.proposer);
      activeRound := round;
    }

    /** The buffered messages to replay for a new round, prepares first; older entries are dropped. */
    method Drain(height: int) returns (prepares: seq<BftMessage>, commits: seq<BftMessage>)
      requires Valid()
      modifies this`pendingMessages
      ensures Valid() && View() == old(View()).(pending := Later(old(pendingMessages), height))
      ensures prepares == At(old(pendingMessages), height, false) && commits == At(old(pendingMessages), height, true)
    {
      prepares, commits := [], [];
      var kept: seq<BftMessage> := [];
      for i := 0 to |pendingMessages|
        invariant kept == Later(pendingMessages[..i], height)
        invariant prepares == At(pendingMessages[..i], height, false)
                  && commits == At(pendingMessages[..i], height, true)
        invariant pendingMessages == old(pendingMessages)
      {
        var m := pendingMessages[i];
        assert pendingMessages[..i + 1][..i] == pendingMessages[..i];
        if m.height > height { kept := kept + [m]; }
        if m.height == height && m.kind != CommitMsg { prepares := prepares + [m]; }
        if m.height == height && m.kind == CommitMsg { commits := commits + [m]; }
      }
      assert pendingMessages[..|pendingMessages|] == pendingMessages;
      pendingMessages := kept;
    }

    method HandleMessage(msg: BftMessage)
      returns (finalized: Option<Block>, outgoing: seq<BftMessage>, evidence: Option<Evidence>)
      requires Valid()
      modifies this, activeRound, detector
      ensures Valid()
      ensures var o := DeliverStep(cfg, old(View()), msg);
              View() == o.state && finalized == if o.finals == [] then None else Some(o.finals[0].block)
      ensures evidence == if Admissible(cfg, old(View()), msg) && Conflict(old(View()).votes, CastOf(msg)) != ""
                          then Some(Evidence(Lower(msg.senderId), msg.height, KindOfVote(msg.kind),
                                             Conflict(old(View()).votes, CastOf(msg)), msg.blockHash))
                          else None
      ensures outgoing == if Admissible(cfg, old(View()), msg) && Conflict(old(View()).votes, CastOf(msg)) == ""
                          then LocalCommit(old(View()).active.value, msg) else []
    {
      finalized, outgoing, evidence := None, [], None;
      if activeRound == null {
        pendingMessages := Buffered(pendingMessages, msg);
        return;
      }
      if msg.height != activeRound.height {
        if activeRound.height < msg.height <= activeRound.height + FUTURE_GAP {
          pendingMessages := Buffered(pendingMessages, msg);
        }
        return;
      }
      if msg.kind == ProposeMsg { return; }
      if !Authentic(cfg, msg) { return; }
      evidence := detector.RecordVote(msg.senderId, msg.height, KindOfVote(msg.kind), msg.blockHash);
      if evidence.Some? { return; }
      finalized, outgoing := Count(msg);
    }

    /** The vote is counted in the active round. */
    method Count(msg: BftMessage) returns (finalized: Option<Block>, outgoing: seq<BftMessage>)
      requires Valid() && activeRound != null && msg.kind != ProposeMsg && msg.height == activeRound.height
      modifies this, activeRound
      ensures Valid()
      ensures var o := CountVote(old(View()), old(View()).active.value, msg);
              View() == o.state && finalized == if o.finals == [] then None else Some(o.finals[0].block)
      ensures outgoing == LocalCommit(old(View()).active.value, msg)
    {
      finalized, outgoing := None, [];
      if msg.kind == PrepareMsg {
        outgoing := activeRound.HandlePrepare(msg.senderId, msg.blockHash);
        if activeRound.phase == Finalized && activeRound.proposedBlock.Some? {
          finalized := activeRound.proposedBlock;
          outgoing := [];
          lastFinalizedHeight := msg.height;
          activeRound := null;
        }
      } else {
        var done := activeRound.HandleCommit(msg.senderId, msg.blockHash);
        if done && activeRound.proposedBlock.Some? {
          finalized := activeRound.proposedBlock;
          lastFinalizedHeight := msg.height;
          activeRound := null;
        }
      }
    }

    method HandleReceivedBlock(block: Block) returns (outgoing: seq<BftMessage>)
      requires Valid()
      modifies this
      ensures Valid() && View() == ReceiveStep(cfg, old(View()), block)
      ensures outgoing == Announced(old(View()), View())
    {
      outgoing := [];
      if Lower(block.proposer) == Lower(cfg.localId) { return; }
      if activeRound != null {
        if activeRound.phase == Finalized || activeRound.phase == Failed {
          activeRound := null;
        } else if block.number <= activeRound.height {
          return;
        }
      }
      if activeRound != null {
        var hasVotes := |activeRound.prepareVotes| > 1 || |activeRound.commitVotes| > 0;
        if activeRound.phase == Commit || (activeRound.phase == Prepare && hasVotes) {
          deferredBlock := Some(block);
          return;
        }
      }
      outgoing := Supersede(block);
    }

    /** The active round, if any, is given up for the block. */
    method Supersede(block: Block) returns (outgoing: seq<BftMessage>)
      requires Valid()
      modifies this
      ensures Valid() && View() == BeginRound(cfg, old(View()).(active := None), block)
      ensures View().active.Some? && View().active.value.height == block.number
      ensures outgoing == Announced(old(View()).(active := None), View())
    {
      activeRound := null;
      outgoing := Begin(block);
    }

    method ProcessDeferredBlock() returns (outgoing: seq<BftMessage>)
      requires Valid()
      modifies this
      ensures Valid() && View() == DeferredStep(cfg, old(View()))
      ensures outgoing == Announced(old(View()), View())
    {
      outgoing := [];
      var block := deferredBlock;
      deferredBlock := None;
      if block.None? { return; }
      if block.value.number <= lastFinalizedHeight { return; }
      outgoing := Begin(block.value);
    }

    method OnTimeout() returns (outgoing: seq<BftMessage>)
      requires Valid()
      modifies this, activeRound
      ensures Valid() && View() == TimeoutStep(cfg, old(View()))
      ensures outgoing == Announced(old(View()).(active := None), View())
    {
      outgoing := [];
      if activeRound != null && activeRound.phase != Finalized && activeRound.phase != Failed {
        activeRound.Fail();
        activeRound := null;
        outgoing := ProcessDeferredBlock();
      }
    }

    method StopAll()
      requires Valid()
      modifies this
      ensures Valid() && View() == old(View()).(active := None, pending := [], deferred := None)
    {
      activeRound, pendingMessages, deferredBlock := null, [], None;
    }

    /** An active round keeps the validators it started with. */
    method UpdateValidators(vs: seq<Validator>)
      requires Valid()
      modifies this
      ensures Valid() && View() == old(View()).(validators := vs)
    {
      validators := vs;
    }
  }

  /** A signature is bound to one kind, height and hash. */
  lemma CanonicalInjective(k1: MessageKind, h1: int, b1: string, k2: MessageKind, h2: int, b2: string)
    requires Canonical(k1, h1, b1) == Canonical(k2, h2, b2)
    ensures k1 == k2 && h1 == h2 && b1 == b2
  {
    var r1, r2 := Numeral(h1) + [':'] + b1, Numeral(h2) + [':'] + b2;
    assert "bft" + [':'] + (KindName(k1) + [':'] + r1) == "bft" + [':'] + (KindName(k2) + [':'] + r2);
    SplitUnique("bft", KindName(k1) + [':'] + r1, "bft", KindName(k2) + [':'] + r2, ':');
    SplitUnique(KindName(k1), r1, KindName(k2), r2, ':');
    NumeralFree(h1, ':');
    NumeralFree(h2, ':');
    SplitUnique(Numeral(h1), b1, Numeral(h2), b2, ':');
    NumeralInjective(h1, h2);
    assert KindName(k1)[2] == KindName(k2)[2];
    assert KindName(k1)[0] == KindName(k2)[0];
  }
}
