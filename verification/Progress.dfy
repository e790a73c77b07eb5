/** What becomes of blocks and messages that reach a coordinator. */
module Progress {
  import opened Options
  import opened Text
  import opened Quorum
  import opened Round
  import opened Detector
  import opened Coordinator
  import opened Safety

  // ----- received blocks

  /** The round is in the commit phase, or holds a commit vote or two prepare votes. */
  ghost predicate Advanced(r: RoundState) {
    r.phase == Commit || |r.prepareVotes| >= 2 || r.commitVotes != map[]
  }

  /** A round on the block, in its prepare phase if the proposer is known and in the propose phase if not. */
  ghost predicate RoundOn(cfg: Config, vs: seq<Validator>, r: RoundState, block: Block) {
    r.height == block.number && r.validators == vs && r.localId == cfg.localId && r.commitVotes == map[]
    && if Lower(block.proposer) in IdSet(vs)
       then r.phase == Prepare && r.proposed == Some(block)
            && r.prepareVotes == (if Lower(cfg.localId) in IdSet(vs) then map[Lower(cfg.localId) := block.hash]
                                  else map[])
       else r.phase == Propose && r.proposed == None && r.prepareVotes == map[]
  }

  lemma NotEmpty<K, V>(m: map<K, V>)
    ensures m == map[] <==> |m| == 0
  {
  }

  lemma RoundOpens(cfg: Config, vs: seq<Validator>, block: Block)
    ensures RoundOn(cfg, vs, ProposeStep(NewRound(block.number, vs, cfg.localId), block, block.proposer), block)
  {
  }

  /** The state with nothing but the round and the deferred block changed. */
  ghost predicate Holds(s: State, s': State, active: Option<RoundState>, deferred: Option<Block>) {
    s' == s.(active := active, deferred := deferred)
  }

  /**
   * A received block above the active round is deferred if that round has advanced, and the round stays as it was;
   * otherwise there is a round on the block.
   */
  lemma ReceivedBlock(cfg: Config, vs: seq<Validator>, s: State, block: Block)
    requires StateInv(cfg, vs, s) && Lower(block.proposer) != Lower(cfg.localId)
    requires s.active.Some? ==> block.number > s.active.value.height
    ensures var s' := Step(cfg, s, ReceiveBlock(block)).state;
            if s.active.Some? && Advanced(s.active.value) then Holds(s, s', s.active, Some(block))
            else s'.active.Some? && RoundOn(cfg, vs, s'.active.value, block) && Holds(s, s', s'.active, None)
  {
    RoundOpens(cfg, vs, block);
    if s.active.Some? {
      NotEmpty(s.active.value.commitVotes);
    }
  }

  /** Whatever the votes, the block is kept: deferred, or with a round at its height. */
  lemma ReceivedBlockKept(cfg: Config, vs: seq<Validator>, s: State, block: Block)
    requires StateInv(cfg, vs, s) && Lower(block.proposer) != Lower(cfg.localId)
    requires s.active.Some? ==> block.number > s.active.value.height
    ensures var s' := Step(cfg, s, ReceiveBlock(block)).state;
            s'.deferred == Some(block) || (s'.active.Some? && s'.active.value.height == block.number)
  {
    ReceivedBlock(cfg, vs, s, block);
  }

  /** A block of the node's own, or one not above the active round, changes nothing. */
  lemma ReceivedBlockIgnored(cfg: Config, vs: seq<Validator>, s: State, block: Block)
    requires StateInv(cfg, vs, s)
    requires Lower(block.proposer) == Lower(cfg.localId) || (s.active.Some? && block.number <= s.active.value.height)
    ensures Step(cfg, s, ReceiveBlock(block)).state == s
  {
  }

  /** Starting a round: one in progress with any vote stays and the block waits; otherwise there is a round on it. */
  lemma StartedBlock(cfg: Config, vs: seq<Validator>, s: State, block: Block)
    requires StateInv(cfg, vs, s)
    ensures var s' := Step(cfg, s, StartRound(block)).state;
            if s.active.Some? && (s.active.value.prepareVotes != map[] || s.active.value.commitVotes != map[])
            then Holds(s, s', s.active, Some(block))
            else s'.active.Some? && RoundOn(cfg, vs, s'.active.value, block) && Holds(s, s', s'.active, None)
  {
    RoundOpens(cfg, vs, block);
    if s.active.Some? {
      NotEmpty(s.active.value.prepareVotes);
      NotEmpty(s.active.value.commitVotes);
    }
  }

  /** A round that is finalized or failed is as good as none. */
  lemma TerminalIsNone(cfg: Config, s: State, block: Block)
    requires s.active.Some? && (s.active.value.phase == Finalized || s.active.value.phase == Failed)
    ensures Step(cfg, s, StartRound(block)) == Step(cfg, s.(active := None), StartRound(block))
    ensures Lower(block.proposer) != Lower(cfg.localId) ==>
              Step(cfg, s, ReceiveBlock(block)) == Step(cfg, s.(active := None), ReceiveBlock(block))
    ensures Step(cfg, s, Timeout).state == s
  {
  }

  // ----- deferred blocks

  /** Only what starts, gives up or stops rounds touches the deferred block. */
  lemma DeferredWaits(cfg: Config, s: State, e: Event)
    requires e.Deliver? || e.TakeBuffered?
    ensures Step(cfg, s, e).state.deferred == s.deferred
  {
  }

  /** With no round active, a deferred block gets its round exactly if it is above the last finalized height. */
  lemma DeferredStarts(cfg: Config, vs: seq<Validator>, s: State)
    requires StateInv(cfg, vs, s) && s.active.None? && s.deferred.Some?
    ensures var s' := Step(cfg, s, ProcessDeferred).state;
            if s.deferred.value.number > s.lastFinalized
            then s'.active.Some? && RoundOn(cfg, vs, s'.active.value, s.deferred.value) && Holds(s, s', s'.active, None)
            else Holds(s, s', None, None)
  {
    RoundOpens(cfg, vs, s.deferred.value);
  }

  /** A timeout gives the active round up for the deferred block, if that is above the last finalized height. */
  lemma TimeoutMovesOn(cfg: Config, vs: seq<Validator>, s: State)
    requires StateInv(cfg, vs, s)
    ensures var s' := Step(cfg, s, Timeout).state;
            if s.active.None? then s' == s
            else if s.deferred.Some? && s.deferred.value.number > s.lastFinalized
            then s'.active.Some? && RoundOn(cfg, vs, s'.active.value, s.deferred.value) && Holds(s, s', s'.active, None)
            else Holds(s, s', None, None)
  {
    if s.deferred.Some? {
      RoundOpens(cfg, vs, s.deferred.value);
    }
  }

  /** So in any run a received block above what is active and finalized has a round now or after a timeout. */
  lemma ReceivedBlockGetsRound(cfg: Config, vs: seq<Validator>, events: seq<Event>, block: Block)
    requires var s := Run(cfg, vs, events).state;
             Lower(block.proposer) != Lower(cfg.localId) && block.number > s.lastFinalized
             && (s.active.Some? ==> block.number > s.active.value.height)
    ensures var now := events + [ReceiveBlock(block)];
            var s1, s2 := Run(cfg, vs, now).state, Run(cfg, vs, now + [Timeout]).state;
            (s1.active.Some? && RoundOn(cfg, vs, s1.active.value, block))
            || (s2.active.Some? && RoundOn(cfg, vs, s2.active.value, block))
  {
    var now := events + [ReceiveBlock(block)];
    assert now[..|events|] == events && (now + [Timeout])[..|now|] == now;
    RunKeepsInv(cfg, vs, events);
    RunKeepsInv(cfg, vs, now);
    ReceivedBlock(cfg, vs, Run(cfg, vs, events).state, block);
    TimeoutMovesOn(cfg, vs, Run(cfg, vs, now).state);
  }

  // ----- buffered messages

  ghost predicate SameVoter(m: BftMessage, x: BftMessage) {
    m.senderId == x.senderId && m.kind == x.kind && m.height == x.height
  }

  /** A message is buffered behind the others if it is early by at most ten heights, not a repeated one and fits. */
  lemma BufferedExactly(cfg: Config, s: State, m: BftMessage)
    ensures var early := s.active.None? || s.active.value.height < m.height <= s.active.value.height + 10;
            Step(cfg, s, Deliver(m)).state.pending
            == if early && |s.pending| < 50 && (forall x :: x in s.pending ==> !SameVoter(m, x))
               then s.pending + [m] else s.pending
  {
    if IsDuplicate(s.pending, m) {
      var i :| 0 <= i < |s.pending| && s.pending[i].senderId == m.senderId && s.pending[i].kind == m.kind
               && s.pending[i].height == m.height;
      assert s.pending[i] in s.pending && SameVoter(m, s.pending[i]);
    }
    if x :| x in s.pending && SameVoter(m, x) {
      var i :| 0 <= i < |s.pending| && s.pending[i] == x;
      assert IsDuplicate(s.pending, m);
    }
  }

  /** An early message changes nothing else. */
  lemma EarlyIsHarmless(cfg: Config, s: State, m: BftMessage)
    requires s.active.None? || m.height != s.active.value.height
    ensures var o := Step(cfg, s, Deliver(m)); o.finals == [] && o.state == s.(pending := o.state.pending)
  {
  }

  ghost predicate PendingOk(pending: seq<BftMessage>) {
    |pending| <= 50 && forall i, j :: 0 <= i < j < |pending| ==> !SameVoter(pending[j], pending[i])
  }

  lemma {:induction false} LaterFrom(pending: seq<BftMessage>, height: int)
    requires PendingOk(pending)
    ensures PendingOk(Later(pending, height)) && |Later(pending, height)| <= |pending|
    ensures forall m :: m in Later(pending, height) <==> m in pending && m.height > height
  {
    if pending != [] {
      var init, last := pending[..|pending| - 1], pending[|pending| - 1];
      LaterFrom(init, height);
      assert pending == init + [last];
      forall i | 0 <= i < |Later(init, height)| ensures !SameVoter(last, Later(init, height)[i]) {
        assert Later(init, height)[i] in init;
      }
    }
  }

  lemma StepKeepsPending(cfg: Config, s: State, e: Event)
    requires PendingOk(s.pending)
    ensures PendingOk(Step(cfg, s, e).state.pending)
  {
    match e {
      case Deliver(m) =>
        BufferedExactly(cfg, s, m);
        assert forall i :: 0 <= i < |s.pending| ==> s.pending[i] in s.pending;
      case TakeBuffered(height) => LaterFrom(s.pending, height);
      case _ => OtherStepsKeepPending(cfg, s, e);
    }
  }

  lemma OtherStepsKeepPending(cfg: Config, s: State, e: Event)
    requires !e.Deliver? && !e.TakeBuffered?
    ensures Step(cfg, s, e).state.pending == if e.Stop? then [] else s.pending
  {
  }

  /** Over any run at most fifty messages are buffered, one for each sender, kind and height. */
  lemma {:induction false} PendingBounded(cfg: Config, vs: seq<Validator>, events: seq<Event>)
    ensures PendingOk(Run(cfg, vs, events).state.pending)
  {
    if events != [] {
      PendingBounded(cfg, vs, events[..|events| - 1]);
      StepKeepsPending(cfg, Run(cfg, vs, events[..|events| - 1]).state, events[|events| - 1]);
    }
  }

  lemma Filtered(s: seq<BftMessage>, kept: seq<BftMessage>, x: BftMessage, m: BftMessage, keepX: bool, keepM: bool)
    requires multiset(kept)[m] == (if keepM then multiset(s)[m] else 0) && (x == m ==> (keepX <==> keepM))
    ensures multiset(kept + if keepX then [x] else [])[m] == if keepM then multiset(s + [x])[m] else 0
  {
    assert kept + [] == kept;
  }

  /** Taking the messages of a height out keeps exactly the higher ones, each as often as before. */
  lemma {:induction false} LaterConserves(pending: seq<BftMessage>, height: int, m: BftMessage)
    ensures multiset(Later(pending, height))[m] == if m.height > height then multiset(pending)[m] else 0
  {
    if pending != [] {
      var init, last := pending[..|pending| - 1], pending[|pending| - 1];
      LaterConserves(init, height, m);
      assert pending == init + [last];
      Filtered(init, Later(init, height), last, m, last.height > height, m.height > height);
    }
  }

  /** And it hands out exactly those of the height, commits apart from the others. */
  lemma {:induction false} DrainConserves(pending: seq<BftMessage>, height: int, commits: bool, m: BftMessage)
    ensures multiset(At(pending, height, commits))[m]
            == if m.height == height && (m.kind == CommitMsg <==> commits) then multiset(pending)[m] else 0
  {
    if pending != [] {
      var init, last := pending[..|pending| - 1], pending[|pending| - 1];
      DrainConserves(init, height, commits, m);
      assert pending == init + [last];
      Filtered(init, At(init, height, commits), last, m, last.height == height && (last.kind == CommitMsg) == commits,
               m.height == height && (m.kind == CommitMsg <==> commits));
    }
  }

  /** Their order is kept. */
  lemma {:induction false} DrainKeepsOrder(a: seq<BftMessage>, b: seq<BftMessage>, height: int, c: bool)
    ensures Later(a + b, height) == Later(a, height) + Later(b, height)
    ensures At(a + b, height, c) == At(a, height, c) + At(b, height, c)
  {
    if b == [] {
      assert a + b == a;
    } else {
      assert (a + b)[..|a + b| - 1] == a + b[..|b| - 1];
      DrainKeepsOrder(a, b[..|b| - 1], height, c);
    }
  }

  // ----- votes

  /** The signature is there, and is the sender's on this very vote, or the node neither signs nor verifies. */
  ghost predicate Signed(cfg: Config, m: BftMessage) {
    m.signature != ""
    && (cfg.verifier.Some? ==> cfg.verifier.value(Canonical(m.kind, m.height, m.blockHash), m.signature, m.senderId))
    && (cfg.verifier.None? ==> !cfg.hasSigner)
  }

  /** An unsigned vote at the height of the round has no effect. */
  lemma UnsignedIgnored(cfg: Config, s: State, m: BftMessage)
    requires s.active.Some? && m.height == s.active.value.height && (!Signed(cfg, m) || m.kind == ProposeMsg)
    ensures Step(cfg, s, Deliver(m)) == Outcome(s, [])
  {
  }

  /** A signed one that contradicts nothing is recorded, if its height is among the hundred highest, and counted. */
  lemma SignedIsCounted(cfg: Config, s: State, m: BftMessage)
    requires s.active.Some? && m.height == s.active.value.height && Signed(cfg, m) && m.kind != ProposeMsg
    requires Conflict(s.votes, CastOf(m)) == ""
    ensures var o, r := Step(cfg, s, Deliver(m)), VoteStep(s.active.value, m);
            o.state.votes == Record(s.votes, 100, CastOf(m))
            && (r.phase != Finalized ==> o.state.active == Some(r) && o.finals == [])
  {
  }

  /** What is finalized is the block of the active round, and its height is noted; nothing else moves that note. */
  lemma FinalizedHeight(cfg: Config, vs: seq<Validator>, s: State, e: Event)
    requires StateInv(cfg, vs, s)
    ensures var o := Step(cfg, s, e);
            if o.finals == [] then o.state.lastFinalized == s.lastFinalized
            else |o.finals| == 1 && o.state.lastFinalized == o.finals[0].block.number && o.state.active.None?
                 && s.active.Some? && Some(o.finals[0].block) == s.active.value.proposed
  {
    if Step(cfg, s, e).finals != [] {
      FinalsOfStep(cfg, vs, s, e);
      VoteKeepsInv(s.active.value, e.msg);
    }
  }

  /** So after any run the note is the height of the last finalized block, or zero. */
  lemma {:induction false} LastFinalized(cfg: Config, vs: seq<Validator>, events: seq<Event>)
    ensures var o := Run(cfg, vs, events);
            o.state.lastFinalized == if o.finals == [] then 0 else o.finals[|o.finals| - 1].block.number
  {
    if events != [] {
      var init, e := events[..|events| - 1], events[|events| - 1];
      LastFinalized(cfg, vs, init);
      RunKeepsInv(cfg, vs, init);
      FinalizedHeight(cfg, vs, Run(cfg, vs, init).state, e);
    }
  }

  // ----- messages that go out

  /** A validator that starts a round on a block of a known proposer sends its prepare vote; nobody else sends one. */
  lemma PrepareSent(cfg: Config, vs: seq<Validator>, s: State, e: Event, block: Block)
    requires StateInv(cfg, vs, s) && Step(cfg, s, e).state.active.Some? && Step(cfg, s, e).state.active != s.active
    requires RoundOn(cfg, vs, Step(cfg, s, e).state.active.value, block)
    ensures Announced(s, Step(cfg, s, e).state)
            == if Lower(block.proposer) in IdSet(vs) && Lower(cfg.localId) in IdSet(vs)
               then [BftMessage(PrepareMsg, block.number, block.hash, cfg.localId, "")] else []
  {
  }

  lemma NothingSent(s: State, s': State)
    requires s'.active.None? || s'.active == s.active
    ensures Announced(s, s') == []
  {
  }

  /** A validator that a prepare vote takes into the commit phase sends its commit vote for the block of the round. */
  lemma CommitSent(r: RoundState, m: BftMessage)
    requires RoundInv(r) && m.kind != ProposeMsg && r.phase != Finalized && r.phase != Failed
    ensures LocalCommit(r, m)
            == if r.phase == Prepare && VoteStep(r, m).phase == Commit && Lower(r.localId) in IdSet(r.validators)
               then [BftMessage(CommitMsg, r.height, r.proposed.value.hash, r.localId, "")] else []
  {
    if m.kind == CommitMsg {
      CommitKeepsPhase(r, m);
    }
  }

  lemma CommitKeepsPhase(r: RoundState, m: BftMessage)
    requires m.kind == CommitMsg
    ensures VoteStep(r, m).phase == r.phase || (r.phase == Commit && VoteStep(r, m).phase == Finalized)
  {
  }

  /** What a signature covers. */
  lemma CanonicalText(height: int, hash: string)
    ensures Canonical(PrepareMsg, 12, hash) == "bft:prepare:12:" + hash
    ensures Canonical(CommitMsg, 7, hash) == "bft:commit:7:" + hash
  {
    assert Decimal.Digits(12) == "12" && Decimal.Digits(7) == "7" by { assert Decimal.Digits(1) == "1"; }
  }
}
