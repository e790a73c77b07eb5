/** When one coordinator can finalize two different blocks at one height, and when it cannot. */
module SingleNode {
  import opened Options
  import opened Text
  import opened Quorum
  import opened Round
  import opened Detector
  import opened Coordinator
  import opened Safety

  ghost function BlockHeights(events: seq<Event>): set<int> {
    set e | e in events && (e.StartRound? || e.ReceiveBlock?) :: e.block.number
  }

  ghost function BlockHeightsAbove(events: seq<Event>, h: int): set<int> {
    set x | x in BlockHeights(events) && x > h
  }

  /** The remote votes of a round or a finalized block are on record. */
  ghost predicate OnRecord(cfg: Config, t: VoteTable, block: Block, preparers: set<string>, committers: set<string>) {
    && (forall id :: id in preparers && id != Lower(cfg.localId) ==>
        Recorded(t, block.number, PrepareVote, id) == block.hash)
    && (forall id :: id in committers && id != Lower(cfg.localId) ==>
        Recorded(t, block.number, CommitVote, id) == block.hash)
  }

  ghost predicate Within(x: int, h: int, above: set<int>) { x > h ==> x in above }

  ghost predicate HeightsWithin(s: State, h: int, above: set<int>) {
    (forall x :: x in s.votes ==> Within(x, h, above))
    && (s.active.Some? ==> Within(s.active.value.height, h, above))
    && (s.deferred.Some? ==> Within(s.deferred.value.number, h, above))
  }

  ghost predicate RoundOnRecord(cfg: Config, s: State, h: int) {
    s.active.Some? && s.active.value.height == h && s.active.value.proposed.Some?
    && s.active.value.proposed.value.hash != ""
    ==> OnRecord(cfg, s.votes, s.active.value.proposed.value, s.active.value.prepareVotes.Keys,
                 s.active.value.commitVotes.Keys)
  }

  ghost predicate FinalOnRecord(cfg: Config, s: State, h: int, f: Final) {
    f.block.number == h && f.block.hash != "" ==> OnRecord(cfg, s.votes, f.block, f.preparers, f.committers)
  }

  lemma RecordKeepsOnRecord(cfg: Config, t: VoteTable, v: Cast, above: set<int>, block: Block, preparers: set<string>,
                            committers: set<string>)
    requires OnRecord(cfg, t, block, preparers, committers) && block.hash != ""
    requires |above| < MAX_TRACKED_HEIGHTS && Conflict(t, v) == ""
    requires (forall x :: x in t ==> Within(x, block.number, above)) && Within(v.height, block.number, above)
    ensures OnRecord(cfg, Record(t, MAX_TRACKED_HEIGHTS, v), block, preparers, committers)
  {
    forall kind, id | Recorded(t, block.number, kind, id) == block.hash
      ensures Recorded(Record(t, MAX_TRACKED_HEIGHTS, v), block.number, kind, id) == block.hash
    {
      RecordRetains(t, MAX_TRACKED_HEIGHTS, v, block.number, above);
      RecordKeeps(t, MAX_TRACKED_HEIGHTS, v, block.number, kind, id);
    }
  }

  lemma RecordKeysWithin(t: VoteTable, v: Cast, h: int, above: set<int>)
    requires (forall x :: x in t ==> Within(x, h, above)) && Within(v.height, h, above)
    ensures forall x :: x in Record(t, MAX_TRACKED_HEIGHTS, v) ==> Within(x, h, above)
  {
    if Conflict(t, v) == "" {
      var p := Put(t, v.height, v.kind, Lower(v.voter), v.hash);
      assert p.Keys == t.Keys + {v.height};
    }
  }

  /** A counted vote goes on record together with the ones before it. */
  lemma VoteGoesOnRecord(cfg: Config, vs: seq<Validator>, s: State, m: BftMessage, h: int, above: set<int>)
    requires StateInv(cfg, vs, s) && s.active.Some? && HeightsWithin(s, h, above) && |above| < MAX_TRACKED_HEIGHTS
    requires m.kind != ProposeMsg && m.height == s.active.value.height == h && Conflict(s.votes, CastOf(m)) == ""
    requires RoundOnRecord(cfg, s, h)
    ensures var r := VoteStep(s.active.value, m);
            r.proposed.Some? && r.proposed.value.hash != "" ==>
              OnRecord(cfg, Record(s.votes, MAX_TRACKED_HEIGHTS, CastOf(m)), r.proposed.value, r.prepareVotes.Keys,
                       r.commitVotes.Keys)
  {
    var r := s.active.value;
    VoteKeepsInv(r, m);
    if r.proposed.Some? && r.proposed.value.hash != "" {
      var v, b := CastOf(m), r.proposed.value;
      RecordKeepsOnRecord(cfg, s.votes, v, above, b, r.prepareVotes.Keys, r.commitVotes.Keys);
      RecordRetains(s.votes, MAX_TRACKED_HEIGHTS, v, h, above);
      UnflaggedIsRecorded(s.votes, MAX_TRACKED_HEIGHTS, v);
      VoteAdds(r, m);
    }
  }

  lemma CountKeepsRecord(cfg: Config, s: State, r: RoundState, m: BftMessage, h: int, above: set<int>)
    requires HeightsWithin(s, h, above) && s.active == Some(r) && m.kind != ProposeMsg
             && VoteStep(r, m).height == r.height
    requires VoteStep(r, m).proposed.Some? ==> VoteStep(r, m).proposed.value.number == r.height
    requires r.height == h && VoteStep(r, m).proposed.Some? && VoteStep(r, m).proposed.value.hash != "" ==>
               OnRecord(cfg, s.votes, VoteStep(r, m).proposed.value, VoteStep(r, m).prepareVotes.Keys,
                        VoteStep(r, m).commitVotes.Keys)
    ensures var o := CountVote(s, r, m);
            HeightsWithin(o.state, h, above) && RoundOnRecord(cfg, o.state, h)
            && forall f :: f in o.finals ==> FinalOnRecord(cfg, o.state, h, f)
  {
  }

  lemma DeliverKeepsRecord(cfg: Config, vs: seq<Validator>, s: State, m: BftMessage, h: int, above: set<int>)
    requires StateInv(cfg, vs, s) && HeightsWithin(s, h, above) && |above| < MAX_TRACKED_HEIGHTS
    requires RoundOnRecord(cfg, s, h)
    ensures var o := DeliverStep(cfg, s, m);
            HeightsWithin(o.state, h, above) && RoundOnRecord(cfg, o.state, h)
            && forall f :: f in o.finals ==> FinalOnRecord(cfg, o.state, h, f)
  {
    DeliverRecords(cfg, s, m);
    if Recording(cfg, s, m) {
      VoteKeepsInv(s.active.value, m);
      RecordKeysWithin(s.votes, CastOf(m), h, above);
      if m.height == h {
        VoteGoesOnRecord(cfg, vs, s, m, h, above);
      }
      CountKeepsRecord(cfg, s.(votes := Record(s.votes, MAX_TRACKED_HEIGHTS, CastOf(m))), s.active.value, m, h, above);
    }
  }

  lemma BeginKeepsHeights(cfg: Config, s: State, block: Block, h: int, above: set<int>)
    requires HeightsWithin(s, h, above) && Within(block.number, h, above)
    ensures HeightsWithin(BeginRound(cfg, s, block), h, above)
  {
  }

  lemma OtherStepsKeepRecord(cfg: Config, s: State, e: Event, h: int)
    requires !e.Deliver? && RoundOnRecord(cfg, s, h)
    ensures RoundOnRecord(cfg, Step(cfg, s, e).state, h)
  {
    OtherStepsKeepVotes(cfg, s, e);
    if Step(cfg, s, e).state.active.Some? {
      OtherStepsKeepRound(cfg, s, e);
      RoundStaysOnRecord(cfg, s, Step(cfg, s, e).state, h);
    }
  }

  lemma OtherStepsKeepVotes(cfg: Config, s: State, e: Event)
    requires !e.Deliver?
    ensures Step(cfg, s, e).state.votes == s.votes
  {
  }

  lemma RoundStaysOnRecord(cfg: Config, s: State, s': State, h: int)
    requires RoundOnRecord(cfg, s, h) && s'.votes == s.votes && s'.active.Some?
    requires s'.active == s.active
             || (s'.active.value.prepareVotes.Keys <= {Lower(cfg.localId)} && s'.active.value.commitVotes == map[])
    ensures RoundOnRecord(cfg, s', h)
  {
  }

  lemma OtherStepsKeepHeights(cfg: Config, s: State, e: Event, h: int, above: set<int>)
    requires !e.Deliver? && HeightsWithin(s, h, above)
    requires e.StartRound? || e.ReceiveBlock? ==> Within(e.block.number, h, above)
    ensures HeightsWithin(Step(cfg, s, e).state, h, above)
  {
    if s.deferred.Some? {
      BeginKeepsHeights(cfg, s.(deferred := None), s.deferred.value, h, above);
      BeginKeepsHeights(cfg, s.(active := None, deferred := None), s.deferred.value, h, above);
    }
    if e.StartRound? || e.ReceiveBlock? {
      BeginKeepsHeights(cfg, s, e.block, h, above);
      BeginKeepsHeights(cfg, s.(active := None), e.block, h, above);
    }
  }

  lemma StepKeepsRecord(cfg: Config, vs: seq<Validator>, s: State, e: Event, h: int, above: set<int>)
    requires StateInv(cfg, vs, s) && HeightsWithin(s, h, above) && |above| < MAX_TRACKED_HEIGHTS
    requires RoundOnRecord(cfg, s, h)
    requires e.StartRound? || e.ReceiveBlock? ==> Within(e.block.number, h, above)
    ensures var o := Step(cfg, s, e);
            HeightsWithin(o.state, h, above) && RoundOnRecord(cfg, o.state, h)
            && forall f :: f in o.finals ==> FinalOnRecord(cfg, o.state, h, f)
  {
    if e.Deliver? {
      DeliverKeepsRecord(cfg, vs, s, e.msg, h, above);
    } else {
      OtherStepsKeepHeights(cfg, s, e, h, above);
      OtherStepsKeepRecord(cfg, s, e, h);
    }
  }

  /** What is on record stays on record. */
  lemma StepKeepsFinals(cfg: Config, s: State, e: Event, h: int, above: set<int>, f: Final)
    requires HeightsWithin(s, h, above) && |above| < MAX_TRACKED_HEIGHTS
    requires FinalOnRecord(cfg, s, h, f)
    ensures FinalOnRecord(cfg, Step(cfg, s, e).state, h, f)
  {
    if e.Deliver? {
      DeliverRecords(cfg, s, e.msg);
      if Recording(cfg, s, e.msg) && f.block.number == h && f.block.hash != "" {
        RecordKeepsOnRecord(cfg, s.votes, CastOf(e.msg), above, f.block, f.preparers, f.committers);
      }
    } else {
      OtherStepsKeepVotes(cfg, s, e);
    }
  }

  /** The delivered message is recorded as a vote. */
  ghost predicate Recording(cfg: Config, s: State, m: BftMessage) {
    Admissible(cfg, s, m) && Conflict(s.votes, CastOf(m)) == ""
  }

  lemma DeliverRecords(cfg: Config, s: State, m: BftMessage)
    ensures DeliverStep(cfg, s, m).state.votes
            == if Recording(cfg, s, m) then Record(s.votes, MAX_TRACKED_HEIGHTS, CastOf(m)) else s.votes
    ensures !Recording(cfg, s, m) ==>
              DeliverStep(cfg, s, m).finals == []
              && DeliverStep(cfg, s, m).state == s.(pending := DeliverStep(cfg, s, m).state.pending)
    ensures Recording(cfg, s, m) ==>
              DeliverStep(cfg, s, m)
              == CountVote(s.(votes := Record(s.votes, MAX_TRACKED_HEIGHTS, CastOf(m))), s.active.value, m)
  {
  }

  lemma {:induction false} RunKeepsRecord(cfg: Config, vs: seq<Validator>, events: seq<Event>, h: int, above: set<int>)
    requires |above| < MAX_TRACKED_HEIGHTS && BlockHeightsAbove(events, h) <= above
    ensures var o := Run(cfg, vs, events);
            HeightsWithin(o.state, h, above) && RoundOnRecord(cfg, o.state, h)
            && forall f :: f in o.finals ==> FinalOnRecord(cfg, o.state, h, f)
  {
    if events != [] {
      var init, e := events[..|events| - 1], events[|events| - 1];
      assert e in events && forall x :: x in init ==> x in events;
      assert BlockHeightsAbove(init, h) <= BlockHeightsAbove(events, h);
      RunKeepsRecord(cfg, vs, init, h, above);
      RunKeepsInv(cfg, vs, init);
      var o := Run(cfg, vs, init);
      assert e.StartRound? || e.ReceiveBlock? ==> e.block.number in BlockHeights(events);
      StepKeepsRecord(cfg, vs, o.state, e, h, above);
      forall f | f in o.finals ensures FinalOnRecord(cfg, Step(cfg, o.state, e).state, h, f) {
        StepKeepsFinals(cfg, o.state, e, h, above, f);
      }
    }
  }

  /**
   * In the detector's window, blocks with different non-empty hashes at one height have no remote voter in common,
   * in either phase.
   */
  lemma NoCommonRemoteVoter(cfg: Config, vs: seq<Validator>, events: seq<Event>, f1: Final, f2: Final)
    requires f1 in Run(cfg, vs, events).finals && f2 in Run(cfg, vs, events).finals
    requires f1.block.number == f2.block.number && f1.block.hash != f2.block.hash
    requires |BlockHeightsAbove(events, f1.block.number)| < MAX_TRACKED_HEIGHTS
    ensures (f1.committers * f2.committers <= {Lower(cfg.localId)}
             && f1.preparers * f2.preparers <= {Lower(cfg.localId)})
            || f1.block.hash == "" || f2.block.hash == ""
  {
    RunKeepsRecord(cfg, vs, events, f1.block.number, BlockHeightsAbove(events, f1.block.number));
  }

  /**
   * One coordinator whose own stake is at most a third never finalizes two different non-empty hashes at one height.
   */
  lemma SingleNodeSafety(cfg: Config, vs: seq<Validator>, events: seq<Event>, f1: Final, f2: Final)
    requires f1 in Run(cfg, vs, events).finals && f2 in Run(cfg, vs, events).finals
    requires f1.block.number == f2.block.number
    requires |BlockHeightsAbove(events, f1.block.number)| < MAX_TRACKED_HEIGHTS
    requires 3 * StakeOf({Lower(cfg.localId)}, vs) <= TotalStake(vs)
    ensures f1.block.hash == f2.block.hash || f1.block.hash == "" || f2.block.hash == ""
  {
    if f1.block.hash != f2.block.hash && f1.block.hash != "" && f2.block.hash != "" {
      NoCommonRemoteVoter(cfg, vs, events, f1, f2);
      RunIsBacked(cfg, vs, events);
      QuorumOverlap(f1.committers, f2.committers, vs);
      StakeMonotone(f1.committers * f2.committers, {Lower(cfg.localId)}, vs);
      assert false;
    }
  }
}
