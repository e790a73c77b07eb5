/** Safety of the coordinator over whole runs. */
module Safety {
  import opened Options
  import opened Text
  import opened Quorum
  import opened Round
  import opened Detector
  import opened Coordinator

  // ----- what every step keeps

  ghost predicate StateInv(cfg: Config, vs: seq<Validator>, s: State) {
    s.validators == vs
    && (s.active.Some? ==>
          RoundInv(s.active.value) && s.active.value.validators == vs && s.active.value.localId == cfg.localId
          && s.active.value.phase != Finalized && s.active.value.phase != Failed)
  }

  lemma BeginKeepsInv(cfg: Config, vs: seq<Validator>, s: State, block: Block)
    requires StateInv(cfg, vs, s)
    ensures StateInv(cfg, vs, BeginRound(cfg, s, block))
  {
    var fresh0 := NewRound(block.number, s.validators, cfg.localId);
    ProposeKeepsInv(fresh0, block, block.proposer);
  }

  lemma VoteKeepsInv(r: RoundState, m: BftMessage)
    requires RoundInv(r) && m.kind != ProposeMsg && r.phase != Finalized && r.phase != Failed
    ensures RoundInv(VoteStep(r, m)) && VoteStep(r, m).phase != Failed
    ensures VoteStep(r, m).validators == r.validators && VoteStep(r, m).localId == r.localId
    ensures VoteStep(r, m).height == r.height && VoteStep(r, m).proposed == r.proposed
    ensures VoteStep(r, m).phase == Finalized ==> r.proposed.Some? && (m.kind == PrepareMsg || r.phase == Commit)
  {
    if m.kind == PrepareMsg {
      PrepareKeeps(r, m.senderId, m.blockHash);
    } else {
      CommitKeeps(r, m.senderId, m.blockHash);
    }
  }

  lemma PrepareKeeps(r: RoundState, sender: string, hash: string)
    requires RoundInv(r) && r.phase != Finalized && r.phase != Failed
    ensures var r' := PrepareStep(r, sender, hash);
            RoundInv(r') && r'.phase != Failed && SameRound(r, r') && (r'.phase == Finalized ==> r.proposed.Some?)
  {
    PrepareKeepsInv(r, sender, hash);
  }

  lemma CommitKeeps(r: RoundState, sender: string, hash: string)
    requires RoundInv(r) && r.phase != Finalized && r.phase != Failed
    ensures var r' := CommitStep(r, sender, hash);
            RoundInv(r') && r'.phase != Failed && SameRound(r, r')
            && (r'.phase == Finalized ==> r.proposed.Some? && r.phase == Commit)
  {
    CommitKeepsInv(r, sender, hash);
  }

  lemma StepKeepsInv(cfg: Config, vs: seq<Validator>, s: State, e: Event)
    requires StateInv(cfg, vs, s)
    ensures StateInv(cfg, vs, Step(cfg, s, e).state)
  {
    match e {
      case StartRound(block) => BeginKeepsInv(cfg, vs, s, block);
      case TakeBuffered(height) =>
      case Deliver(m) =>
        if s.active.Some? && m.kind != ProposeMsg {
          VoteKeepsInv(s.active.value, m);
        }
      case ReceiveBlock(block) =>
        BeginKeepsInv(cfg, vs, s, block);
        BeginKeepsInv(cfg, vs, s.(active := None), block);
      case ProcessDeferred => DeferredKeepsInv(cfg, vs, s);
      case Timeout => DeferredKeepsInv(cfg, vs, s.(active := None));
      case Stop =>
    }
  }

  lemma DeferredKeepsInv(cfg: Config, vs: seq<Validator>, s: State)
    requires StateInv(cfg, vs, s)
    ensures StateInv(cfg, vs, DeferredStep(cfg, s))
  {
    if s.deferred.Some? {
      BeginKeepsInv(cfg, vs, s.(deferred := None), s.deferred.value);
    }
  }

  lemma {:induction false} RunKeepsInv(cfg: Config, vs: seq<Validator>, events: seq<Event>)
    ensures StateInv(cfg, vs, Run(cfg, vs, events).state)
  {
    if events != [] {
      RunKeepsInv(cfg, vs, events[..|events| - 1]);
      StepKeepsInv(cfg, vs, Run(cfg, vs, events[..|events| - 1]).state, events[|events| - 1]);
    }
  }

  /**
   * What a step finalizes: the proposal of the active round, which becomes inactive, with its voters after the vote.
   */
  lemma FinalsOfStep(cfg: Config, vs: seq<Validator>, s: State, e: Event)
    requires StateInv(cfg, vs, s) && Step(cfg, s, e).finals != []
    ensures e.Deliver? && e.msg.kind != ProposeMsg && s.active.Some? && e.msg.height == s.active.value.height
    ensures Authentic(cfg, e.msg) && Conflict(s.votes, CastOf(e.msg)) == ""
    ensures Step(cfg, s, e).state.active == None
    ensures var r := VoteStep(s.active.value, e.msg);
            RoundInv(r) && r.phase == Finalized && r.proposed.Some? && r.validators == vs && r.localId == cfg.localId
            && Step(cfg, s, e).finals == [Final(r.proposed.value, r.prepareVotes.Keys, r.commitVotes.Keys)]
  {
    VoteKeepsInv(s.active.value, e.msg);
  }

  // ----- accountability

  /** An authentic vote of this kind, height and hash by `id` was delivered. */
  ghost predicate Voted(cfg: Config, events: seq<Event>, kind: MessageKind, height: int, hash: string, id: string) {
    exists e :: e in events && e.Deliver? && e.msg.kind == kind && e.msg.height == height && e.msg.blockHash == hash
                && Lower(e.msg.senderId) == id && Authentic(cfg, e.msg)
  }

  /** Every voter except the local node is backed by a delivered message. */
  ghost predicate Backed(cfg: Config, events: seq<Event>, block: Block, preparers: set<string>,
                         committers: set<string>)
  {
    && (forall id :: id in preparers && id != Lower(cfg.localId) ==>
        Voted(cfg, events, PrepareMsg, block.number, block.hash, id))
    && (forall id :: id in committers && id != Lower(cfg.localId) ==>
        Voted(cfg, events, CommitMsg, block.number, block.hash, id))
  }

  ghost predicate Accounted(cfg: Config, vs: seq<Validator>, events: seq<Event>, f: Final) {
    IsQuorum(f.preparers, vs) && IsQuorum(f.committers, vs) && f.preparers + f.committers <= IdSet(vs)
    && !(f.preparers <= {Lower(cfg.localId)})
    && Backed(cfg, events, f.block, f.preparers, f.committers)
  }

  ghost predicate RoundBacked(cfg: Config, events: seq<Event>, r: RoundState) {
    r.proposed.Some? ==> Backed(cfg, events, r.proposed.value, r.prepareVotes.Keys, r.commitVotes.Keys)
  }

  lemma VotedPersists(cfg: Config, events: seq<Event>, e: Event, block: Block, preparers: set<string>,
                      committers: set<string>)
    requires Backed(cfg, events, block, preparers, committers)
    ensures Backed(cfg, events + [e], block, preparers, committers)
  {
    forall kind, id | Voted(cfg, events, kind, block.number, block.hash, id)
      ensures Voted(cfg, events + [e], kind, block.number, block.hash, id)
    {
      var d :| d in events && d.Deliver? && d.msg.kind == kind && d.msg.height == block.number
               && d.msg.blockHash == block.hash
               && Lower(d.msg.senderId) == id && Authentic(cfg, d.msg);
      assert d in events + [e];
    }
  }

  lemma VoteIsBacked(cfg: Config, events: seq<Event>, r: RoundState, m: BftMessage)
    requires RoundInv(r) && RoundBacked(cfg, events, r) && r.localId == cfg.localId
    requires m.kind != ProposeMsg && m.height == r.height && Authentic(cfg, m) && r.phase != Finalized
             && r.phase != Failed
    ensures RoundBacked(cfg, events + [Deliver(m)], VoteStep(r, m))
  {
    VoteKeepsInv(r, m);
    if r.proposed.Some? {
      var b := r.proposed.value;
      VotedPersists(cfg, events, Deliver(m), b, r.prepareVotes.Keys, r.commitVotes.Keys);
      var all := events + [Deliver(m)];
      assert Deliver(m) in all;
      assert m.blockHash == b.hash ==> Voted(cfg, all, m.kind, b.number, b.hash, Lower(m.senderId));
      VoteAdds(r, m);
    }
  }

  /** A vote adds at most its sender, for the proposed hash, and at most the local id besides. */
  lemma VoteAdds(r: RoundState, m: BftMessage)
    requires RoundInv(r) && r.proposed.Some? && m.kind != ProposeMsg
    ensures var r' := VoteStep(r, m);
            && (forall id :: id in r'.prepareVotes && id !in r.prepareVotes ==>
                  m.kind == PrepareMsg && id == Lower(m.senderId) && m.blockHash == r.proposed.value.hash)
            && (forall id :: id in r'.commitVotes && id !in r.commitVotes && id != r.Local() ==>
                  m.kind == CommitMsg && id == Lower(m.senderId) && m.blockHash == r.proposed.value.hash)
  {
  }

  /** The round of a state that follows `s` is the round of `s`, or a new one that holds local votes only. */
  lemma OtherStepsKeepRound(cfg: Config, s: State, e: Event)
    requires !e.Deliver? && Step(cfg, s, e).state.active.Some?
    ensures var s' := Step(cfg, s, e).state;
            s'.active == s.active
            || (s'.active.value.prepareVotes.Keys <= {Lower(cfg.localId)} && s'.active.value.commitVotes == map[])
  {
    match e {
      case StartRound(block) => BeginKeepsRound(cfg, s, block);
      case ReceiveBlock(block) =>
        BeginKeepsRound(cfg, s, block);
        BeginKeepsRound(cfg, s.(active := None), block);
      case ProcessDeferred => DeferredKeepsRound(cfg, s);
      case Timeout => DeferredKeepsRound(cfg, s.(active := None));
      case _ =>
    }
  }

  lemma BeginKeepsRound(cfg: Config, s: State, block: Block)
    ensures var r := BeginRound(cfg, s, block).active;
            r == s.active || (r.Some? && r.value.prepareVotes.Keys <= {Lower(cfg.localId)}
                              && r.value.commitVotes == map[])
  {
  }

  lemma DeferredKeepsRound(cfg: Config, s: State)
    ensures var r := DeferredStep(cfg, s).active;
            r == s.active || (r.Some? && r.value.prepareVotes.Keys <= {Lower(cfg.localId)}
                              && r.value.commitVotes == map[])
  {
    if s.deferred.Some? {
      BeginKeepsRound(cfg, s.(deferred := None), s.deferred.value);
    }
  }

  lemma {:induction false} RunIsBacked(cfg: Config, vs: seq<Validator>, events: seq<Event>)
    ensures var o := Run(cfg, vs, events);
            (o.state.active.Some? ==> RoundBacked(cfg, events, o.state.active.value))
            && forall f :: f in o.finals ==> Accounted(cfg, vs, events, f)
  {
    if events != [] {
      var init, e := events[..|events| - 1], events[|events| - 1];
      assert events == init + [e];
      RunIsBacked(cfg, vs, init);
      RunKeepsInv(cfg, vs, init);
      var o := Run(cfg, vs, init);
      forall f | f in o.finals ensures Accounted(cfg, vs, events, f) {
        VotedPersists(cfg, init, e, f.block, f.preparers, f.committers);
      }
      StepIsBacked(cfg, vs, o.state, init, e);
    }
  }

  lemma StepIsBacked(cfg: Config, vs: seq<Validator>, s: State, events: seq<Event>, e: Event)
    requires StateInv(cfg, vs, s) && (s.active.Some? ==> RoundBacked(cfg, events, s.active.value))
    ensures var o := Step(cfg, s, e);
            (o.state.active.Some? ==> RoundBacked(cfg, events + [e], o.state.active.value))
            && forall f :: f in o.finals ==> Accounted(cfg, vs, events + [e], f)
  {
    var o := Step(cfg, s, e);
    if s.active.Some? && s.active.value.proposed.Some? {
      var r := s.active.value;
      VotedPersists(cfg, events, e, r.proposed.value, r.prepareVotes.Keys, r.commitVotes.Keys);
    }
    if o.finals != [] {
      FinalIsBacked(cfg, vs, s, events, e);
    } else if o.state.active.Some? && o.state.active != s.active {
      if e.Deliver? {
        VoteIsBacked(cfg, events, s.active.value, e.msg);
      } else {
        OtherStepsKeepRound(cfg, s, e);
      }
    }
  }

  lemma FinalIsBacked(cfg: Config, vs: seq<Validator>, s: State, events: seq<Event>, e: Event)
    requires StateInv(cfg, vs, s) && (s.active.Some? ==> RoundBacked(cfg, events, s.active.value))
             && Step(cfg, s, e).finals != []
    ensures Step(cfg, s, e).state.active.None?
            && forall f :: f in Step(cfg, s, e).finals ==> Accounted(cfg, vs, events + [e], f)
  {
    FinalsOfStep(cfg, vs, s, e);
    VoteIsBacked(cfg, events, s.active.value, e.msg);
  }

  /**
   * Accountable safety. If two nodes with the same validators finalize blocks, after any two runs, then validators
   * with more than a third of the stake are commit voters of both, and each node was sent the commit of each of
   * them but itself.
   */
  lemma AccountableSafety(cfg1: Config, cfg2: Config, vs: seq<Validator>, events1: seq<Event>, events2: seq<Event>,
                          f1: Final, f2: Final)
    requires f1 in Run(cfg1, vs, events1).finals && f2 in Run(cfg2, vs, events2).finals
    ensures 3 * StakeOf(f1.committers * f2.committers, vs) > TotalStake(vs)
    ensures forall id :: id in f1.committers * f2.committers ==>
              (id != Lower(cfg1.localId) ==> Voted(cfg1, events1, CommitMsg, f1.block.number, f1.block.hash, id))
              && (id != Lower(cfg2.localId) ==> Voted(cfg2, events2, CommitMsg, f2.block.number, f2.block.hash, id))
  {
    RunIsBacked(cfg1, vs, events1);
    RunIsBacked(cfg2, vs, events2);
    QuorumOverlap(f1.committers, f2.committers, vs);
  }
}
