/** The validator sets on which one coordinator can be made to finalize two blocks at one height. */
module ConflictingRuns {
  import opened Options
  import Sets
  import opened Text
  import opened Quorum
  import opened Round
  import opened Detector
  import opened Coordinator
  import opened Safety
  import opened SingleNode
  import opened Confluence

  /** Two disjoint groups of remote validators that each reach quorum together with the local one. */
  ghost predicate SplitBy(vs: seq<Validator>, local: string, a: set<string>, b: set<string>) {
    a != {} && b != {} && a !! b && a + b <= IdSet(vs) - {local}
    && IsQuorum(a + {local}, vs) && IsQuorum(b + {local}, vs)
  }

  /** A group of remote validators that reaches quorum together with the local one. */
  ghost predicate Group(vs: seq<Validator>, local: string, a: set<string>) {
    a != {} && a <= IdSet(vs) - {local} && IsQuorum(a + {local}, vs)
  }

  /** The run finalizes two different hashes at one height. */
  ghost predicate TwoHashes(cfg: Config, vs: seq<Validator>, events: seq<Event>, f1: Final, f2: Final) {
    f1 in Run(cfg, vs, events).finals && f2 in Run(cfg, vs, events).finals
    && f1.block.number == f2.block.number && f1.block.hash != f2.block.hash
  }

  /** It does so while the height is in the detector's window. */
  ghost predicate AnyConflict(cfg: Config, vs: seq<Validator>, events: seq<Event>, f1: Final, f2: Final) {
    TwoHashes(cfg, vs, events, f1, f2) && |BlockHeightsAbove(events, f1.block.number)| < MAX_TRACKED_HEIGHTS
  }

  /** And neither hash is empty. */
  ghost predicate Conflicts(cfg: Config, vs: seq<Validator>, events: seq<Event>, f1: Final, f2: Final) {
    AnyConflict(cfg, vs, events, f1, f2) && f1.block.hash != "" && f2.block.hash != ""
  }

  /** Whatever is finalized was prepared by a group. */
  lemma FinalNeedsGroup(cfg: Config, vs: seq<Validator>, events: seq<Event>, f: Final) returns (a: set<string>)
    requires f in Run(cfg, vs, events).finals
    ensures Group(vs, Lower(cfg.localId), a)
  {
    RunIsBacked(cfg, vs, events);
    a := f.preparers - {Lower(cfg.localId)};
    StakeMonotone(f.preparers, a + {Lower(cfg.localId)}, vs);
  }

  lemma ConflictNeedsSplit(cfg: Config, vs: seq<Validator>, events: seq<Event>, f1: Final, f2: Final)
    returns (a: set<string>, b: set<string>)
    requires Conflicts(cfg, vs, events, f1, f2)
    ensures SplitBy(vs, Lower(cfg.localId), a, b)
  {
    var local := Lower(cfg.localId);
    NoCommonRemoteVoter(cfg, vs, events, f1, f2);
    RunIsBacked(cfg, vs, events);
    a, b := f1.committers - {local}, f2.committers - {local};
    StakeMonotone(f1.committers, a + {local}, vs);
    StakeMonotone(f2.committers, b + {local}, vs);
    if a == {} || b == {} {
      // the local node alone is a quorum: two prepare voters tell the rounds apart
      assert IsQuorum({local}, vs) by {
        assert {} + {local} == {local};
      }
      var v :| v in f1.preparers && v != local;
      var w :| w in f2.preparers && w != local;
      a, b := {v}, {w};
      StakeMonotone({local}, a + {local}, vs);
      StakeMonotone({local}, b + {local}, vs);
      assert v != w by { assert v == w ==> v in f1.preparers * f2.preparers; }
    }
  }

  // ----- and a split is enough

  ghost predicate IsVote(cfg: Config, m: BftMessage, kind: MessageKind, height: int, hash: string, id: string) {
    m.kind == kind && m.height == height && m.blockHash == hash && Lower(m.senderId) == id && Authentic(cfg, m)
  }

  ghost predicate VoteExists(cfg: Config, kind: MessageKind, height: int, hash: string, id: string) {
    exists m :: IsVote(cfg, m, kind, height, hash, id)
  }

  /** Every validator can sign votes the coordinator takes for authentic. */
  ghost predicate CanSign(cfg: Config, vs: seq<Validator>) {
    forall kind, height, hash, id :: kind != ProposeMsg && id in IdSet(vs) ==> VoteExists(cfg, kind, height, hash, id)
  }

  /** At height `h` the table holds nothing of `mine` but votes for `hash`, and nothing of `others`. */
  ghost predicate TableOk(t: VoteTable, h: int, hash: string, mine: set<string>, others: set<string>) {
    (forall kind, id :: id in mine ==> Recorded(t, h, kind, id) == "" || Recorded(t, h, kind, id) == hash)
    && (forall kind, id :: id in others ==> Recorded(t, h, kind, id) == "")
  }

  lemma RecordOk(t: VoteTable, hash: string, mine: set<string>, others: set<string>, v: Cast)
    requires TableOk(t, v.height, hash, mine, others) && v.hash == hash && Lower(v.voter) in mine && mine !! others
    ensures Conflict(t, v) == "" && TableOk(Record(t, MAX_TRACKED_HEIGHTS, v), v.height, hash, mine, others)
  {
    var p := Put(t, v.height, v.kind, Lower(v.voter), v.hash);
    forall kind, id
      ensures Recorded(Record(t, MAX_TRACKED_HEIGHTS, v), v.height, kind, id)
              in {"", if kind == v.kind && id == Lower(v.voter) then hash else Recorded(t, v.height, kind, id)}
    {
      RecordedAfterPrune(p, MAX_TRACKED_HEIGHTS, v.height, kind, id);
      RecordedAfterPut(t, v.height, v.kind, Lower(v.voter), v.hash, v.height, kind, id);
    }
  }

  /** At an observer: all prepares of `p` and then all commits of `c` lead from `r0` to `r`. */
  ghost predicate ObserverTracks(r0: RoundState, r: RoundState, p: set<string>, c: set<string>) {
    if c == {} then AfterPrepares(r0, r, p)
    else exists r1 :: AfterPrepares(r0, r1, p) && AfterCommits(r1, r, c)
  }

  ghost predicate VotesTracked(r0: RoundState, r: RoundState, p: set<string>, c: set<string>) {
    if r0.IsValidator() then Tracks(r0, r, p, c) else ObserverTracks(r0, r, p, c)
  }

  /** The active round started as `r0` and has prepare senders `p` and commit senders `c`. */
  ghost predicate Voting(cfg: Config, vs: seq<Validator>, s: State, r0: RoundState, p: set<string>, c: set<string>) {
    AfterProposal(r0) && r0.validators == vs && r0.localId == cfg.localId
    && s.active.Some? && s.active.value.phase != Finalized
    && VotesTracked(r0, s.active.value, p, c)
  }

  lemma ObserverVotes(r0: RoundState, r: RoundState, p: set<string>, c: set<string>, kind: MessageKind, sender: string)
    requires AfterProposal(r0) && !r0.IsValidator() && r0.IsKnown(sender) && ObserverTracks(r0, r, p, c)
    requires kind == CommitMsg || (kind == PrepareMsg && c == {})
    ensures var hash := r0.proposed.value.hash;
            if kind == PrepareMsg then ObserverTracks(r0, PrepareStep(r, sender, hash), p + {Lower(sender)}, c)
            else ObserverTracks(r0, CommitStep(r, sender, hash), p, c + {Lower(sender)})
  {
    if kind == PrepareMsg {
      AnotherPrepare(r0, r, p, sender);
    } else if c == {} {
      EmptySetIsNoQuorum(r0.validators);
      assert r.commitVotes.Keys + c == {};
      AnotherCommit(r, r, c, sender);
    } else {
      var r1 :| AfterPrepares(r0, r1, p) && AfterCommits(r1, r, c);
      AnotherCommit(r1, r, c, sender);
    }
  }

  ghost predicate Done(cfg: Config, vs: seq<Validator>, events: seq<Event>, block: Block) {
    Run(cfg, vs, events).state.active.None? && exists f :: f in Run(cfg, vs, events).finals && f.block == block
  }

  ghost predicate IsVoteFor(e: Event, block: Block, ids: set<string>) {
    e.Deliver? && e.msg.height == block.number && e.msg.blockHash == block.hash && Lower(e.msg.senderId) in ids
  }

  /** `next` continues `events` with votes of `ids` for the block only. */
  ghost predicate Continues(events: seq<Event>, next: seq<Event>, block: Block, ids: set<string>) {
    |events| <= |next| && next[..|events|] == events
    && forall i :: |events| <= i < |next| ==> IsVoteFor(next[i], block, ids)
  }

  lemma {:induction false} FinalsGrow(cfg: Config, vs: seq<Validator>, events: seq<Event>, n: nat)
    requires n <= |events|
    ensures forall f :: f in Run(cfg, vs, events[..n]).finals ==> f in Run(cfg, vs, events).finals
  {
    if n < |events| {
      FinalsGrow(cfg, vs, events[..|events| - 1], n);
      assert events[..|events| - 1][..n] == events[..n];
    } else {
      assert events[..n] == events;
    }
  }

  lemma VoteTracks(cfg: Config, vs: seq<Validator>, s: State, r0: RoundState, p: set<string>, c: set<string>,
                   m: BftMessage)
    requires Voting(cfg, vs, s, r0, p, c)
    requires m.kind == CommitMsg || (m.kind == PrepareMsg && c == {})
    requires m.blockHash == r0.proposed.value.hash && Lower(m.senderId) in IdSet(vs)
    ensures VotesTracked(r0, VoteStep(s.active.value, m), if m.kind == PrepareMsg then p + {Lower(m.senderId)} else p,
                         if m.kind == CommitMsg then c + {Lower(m.senderId)} else c)
  {
    if !r0.IsValidator() {
      ObserverVotes(r0, s.active.value, p, c, m.kind, m.senderId);
    } else if m.kind == PrepareMsg {
      TracksPrepare(r0, s.active.value, p, c, m.senderId, m.blockHash);
    } else {
      TracksCommit(r0, s.active.value, p, c, m.senderId, m.blockHash);
    }
  }

  lemma RoundOfTracks(cfg: Config, vs: seq<Validator>, s: State, r0: RoundState, p: set<string>, c: set<string>)
    requires Voting(cfg, vs, s, r0, p, c)
    ensures SameRound(r0, s.active.value)
  {
  }

  lemma VoteIsCounted(cfg: Config, vs: seq<Validator>, s: State, r0: RoundState, p: set<string>, c: set<string>,
                      m: BftMessage, mine: set<string>, others: set<string>) returns (t: VoteTable)
    requires Voting(cfg, vs, s, r0, p, c) && mine !! others && m.kind != ProposeMsg
    requires TableOk(s.votes, r0.height, r0.proposed.value.hash, mine, others)
    requires IsVote(cfg, m, m.kind, r0.height, r0.proposed.value.hash, Lower(m.senderId)) && Lower(m.senderId) in mine
    ensures TableOk(t, r0.height, r0.proposed.value.hash, mine, others)
    ensures Step(cfg, s, Deliver(m)) == CountVote(s.(votes := t), s.active.value, m)
  {
    RoundOfTracks(cfg, vs, s, r0, p, c);
    RecordOk(s.votes, r0.proposed.value.hash, mine, others, CastOf(m));
    t := Record(s.votes, MAX_TRACKED_HEIGHTS, CastOf(m));
    DeliverRecords(cfg, s, m);
  }

  /** What the round becomes is what the coordinator holds next, or has finalized. */
  lemma CountKeepsVoting(cfg: Config, vs: seq<Validator>, s: State, r: RoundState, r0: RoundState,
                         p: set<string>, c: set<string>, m: BftMessage)
    requires AfterProposal(r0) && r0.validators == vs && r0.localId == cfg.localId && m.kind != ProposeMsg
    requires VotesTracked(r0, VoteStep(r, m), p, c) && VoteStep(r, m).proposed == r0.proposed
    requires VoteStep(r, m).phase == Finalized ==> m.kind == PrepareMsg || r.phase == Commit
    ensures var o := CountVote(s, r, m);
            o.state.votes == s.votes
            && if o.finals != [] then o.state.active.None? && o.finals[0].block == r0.proposed.value
               else Voting(cfg, vs, o.state, r0, p, c)
  {
  }

  lemma CountMoves(cfg: Config, vs: seq<Validator>, s: State, r0: RoundState, p: set<string>, c: set<string>,
                   m: BftMessage, t: VoteTable)
    requires StateInv(cfg, vs, s) && Voting(cfg, vs, s, r0, p, c) && Lower(m.senderId) in IdSet(vs)
    requires m.blockHash == r0.proposed.value.hash && (m.kind == CommitMsg || (m.kind == PrepareMsg && c == {}))
    ensures var o := CountVote(s.(votes := t), s.active.value, m);
            o.state.votes == t
            && if o.finals != [] then o.state.active.None? && o.finals[0].block == r0.proposed.value
               else Voting(cfg, vs, o.state, r0, if m.kind == PrepareMsg then p + {Lower(m.senderId)} else p,
                           if m.kind == CommitMsg then c + {Lower(m.senderId)} else c)
  {
    var p' := if m.kind == PrepareMsg then p + {Lower(m.senderId)} else p;
    var c' := if m.kind == CommitMsg then c + {Lower(m.senderId)} else c;
    RoundOfTracks(cfg, vs, s, r0, p, c);
    VoteTracks(cfg, vs, s, r0, p, c, m);
    VoteKeepsInv(s.active.value, m);
    CountKeepsVoting(cfg, vs, s.(votes := t), s.active.value, r0, p', c', m);
  }

  lemma VoteMoves(cfg: Config, vs: seq<Validator>, s: State, r0: RoundState, p: set<string>, c: set<string>,
                  m: BftMessage, mine: set<string>, others: set<string>)
    requires StateInv(cfg, vs, s) && Voting(cfg, vs, s, r0, p, c) && mine <= IdSet(vs) && mine !! others
    requires TableOk(s.votes, r0.height, r0.proposed.value.hash, mine, others)
    requires m.kind == CommitMsg || (m.kind == PrepareMsg && c == {})
    requires IsVote(cfg, m, m.kind, r0.height, r0.proposed.value.hash, Lower(m.senderId)) && Lower(m.senderId) in mine
    ensures var o := Step(cfg, s, Deliver(m));
            TableOk(o.state.votes, r0.height, r0.proposed.value.hash, mine, others)
            && if o.finals != [] then o.state.active.None? && o.finals[0].block == r0.proposed.value
               else Voting(cfg, vs, o.state, r0, if m.kind == PrepareMsg then p + {Lower(m.senderId)} else p,
                           if m.kind == CommitMsg then c + {Lower(m.senderId)} else c)
  {
    var t := VoteIsCounted(cfg, vs, s, r0, p, c, m, mine, others);
    CountMoves(cfg, vs, s, r0, p, c, m, t);
  }

  lemma OneVote(cfg: Config, vs: seq<Validator>, events: seq<Event>, r0: RoundState, p: set<string>, c: set<string>,
                kind: MessageKind, id: string, mine: set<string>, others: set<string>) returns (next: seq<Event>)
    requires CanSign(cfg, vs) && id in mine && mine <= IdSet(vs) && mine !! others
    requires kind == CommitMsg || (kind == PrepareMsg && c == {})
    requires Polling(cfg, vs, events, r0, p, c, mine, others)
    ensures Continues(events, next, r0.proposed.value, mine)
    ensures Polled(cfg, vs, next, r0.proposed.value, mine, others)
            || Polling(cfg, vs, next, r0, if kind == PrepareMsg then p + {id} else p,
                       if kind == CommitMsg then c + {id} else c, mine, others)
  {
    var s, hash := Run(cfg, vs, events).state, r0.proposed.value.hash;
    RunKeepsInv(cfg, vs, events);
    assert VoteExists(cfg, kind, r0.height, hash, id);
    var m :| IsVote(cfg, m, kind, r0.height, hash, id);
    next := events + [Deliver(m)];
    assert next[..|next| - 1] == events;
    VoteMoves(cfg, vs, s, r0, p, c, m, mine, others);
    var o := Step(cfg, s, Deliver(m));
    if o.finals != [] {
      assert o.finals[0] in Run(cfg, vs, next).finals;
    }
  }

  lemma ContinuesTransitive(a: seq<Event>, b: seq<Event>, c: seq<Event>, block: Block, ids: set<string>)
    requires Continues(a, b, block, ids) && Continues(b, c, block, ids)
    ensures Continues(a, c, block, ids)
  {
    assert c[..|a|] == c[..|b|][..|a|];
    assert forall i :: |a| <= i < |b| ==> c[i] == c[..|b|][i];
  }

  /** After `events` the group is as in `Voting` and `TableOk`. */
  ghost predicate Polling(cfg: Config, vs: seq<Validator>, events: seq<Event>, r0: RoundState, p: set<string>,
                          c: set<string>, mine: set<string>, others: set<string>)
  {
    var s := Run(cfg, vs, events).state;
    Voting(cfg, vs, s, r0, p, c) && TableOk(s.votes, r0.height, r0.proposed.value.hash, mine, others)
  }

  ghost predicate Polled(cfg: Config, vs: seq<Validator>, events: seq<Event>, block: Block, mine: set<string>,
                         others: set<string>)
  {
    Done(cfg, vs, events, block) && TableOk(Run(cfg, vs, events).state.votes, block.number, block.hash, mine, others)
  }

  /** All of `rest` vote, one after the other, unless the block is finalized before. */
  lemma {:induction false} GroupVotes(cfg: Config, vs: seq<Validator>, events: seq<Event>, r0: RoundState,
                                      p: set<string>, c: set<string>, kind: MessageKind, rest: set<string>,
                                      mine: set<string>, others: set<string>) returns (next: seq<Event>)
    requires CanSign(cfg, vs) && rest <= mine && mine <= IdSet(vs) && mine !! others
    requires kind == CommitMsg || (kind == PrepareMsg && c == {})
    requires Polling(cfg, vs, events, r0, p, c, mine, others)
    ensures Continues(events, next, r0.proposed.value, mine)
    ensures Polled(cfg, vs, next, r0.proposed.value, mine, others)
            || Polling(cfg, vs, next, r0, if kind == PrepareMsg then p + rest else p,
                       if kind == CommitMsg then c + rest else c, mine, others)
    decreases rest
  {
    if rest == {} {
      assert p + rest == p && c + rest == c && events[..|events|] == events;
      return events;
    }
    var id := Sets.AnyOf(rest);
    var mid := OneVote(cfg, vs, events, r0, p, c, kind, id, mine, others);
    if Polled(cfg, vs, mid, r0.proposed.value, mine, others) {
      return mid;
    }
    OneMore(p, id, rest);
    OneMore(c, id, rest);
    next := GroupVotes(cfg, vs, mid, r0, if kind == PrepareMsg then p + {id} else p,
                       if kind == CommitMsg then c + {id} else c, kind, rest - {id}, mine, others);
    ContinuesTransitive(events, mid, next, r0.proposed.value, mine);
  }

  lemma OneMore(s: set<string>, id: string, rest: set<string>)
    requires id in rest
    ensures s + {id} + (rest - {id}) == s + rest
  {
  }

  lemma ObserverFinalizes(r0: RoundState, r: RoundState, ids: set<string>)
    requires AfterProposal(r0) && !r0.IsValidator() && ObserverTracks(r0, r, ids, ids)
    requires ids != {} && IsQuorum(ids, r0.validators)
    ensures r.phase == Finalized
  {
    var r1 :| AfterPrepares(r0, r1, ids) && AfterCommits(r1, r, ids);
    assert r0.prepareVotes.Keys + ids == ids && r1.commitVotes.Keys + ids == ids;
  }

  lemma QuorumWithoutStranger(vs: seq<Validator>, x: string, a: set<string>)
    requires x !in IdSet(vs) && IsQuorum(a + {x}, vs)
    ensures IsQuorum(a, vs)
  {
    StakeSplit(a, {x}, vs);
    StakeOfStrangers({x}, vs);
  }

  /** The group and the local node make a quorum, so the round cannot still be open after all their votes. */
  lemma GroupSuffices(cfg: Config, vs: seq<Validator>, s: State, r0: RoundState, mine: set<string>)
    requires mine != {} && Lower(cfg.localId) !in mine && IsQuorum(mine + {Lower(cfg.localId)}, vs)
    ensures !Voting(cfg, vs, s, r0, mine, mine)
  {
    var id :| id in mine;
    assert id in mine + {Lower(cfg.localId)};
    if Lower(cfg.localId) !in IdSet(vs) {
      QuorumWithoutStranger(vs, Lower(cfg.localId), mine);
      forall r | AfterProposal(r0) && r0.validators == vs && !r0.IsValidator() && ObserverTracks(r0, r, mine, mine)
        ensures r.phase == Finalized
      {
        ObserverFinalizes(r0, r, mine);
      }
    }
  }

  lemma OpensWithoutVotes(r0: RoundState)
    requires AfterProposal(r0) && RoundInv(r0)
    ensures VotesTracked(r0, r0, {}, {})
  {
    if r0.IsValidator() {
      PhaseOfSchedule(r0, []);
      assert Prepares(r0, []) == {} && Commits(r0, []) == {};
    } else {
      EmptySetIsNoQuorum(r0.validators);
      assert r0.prepareVotes.Keys + {} == {};
    }
  }

  lemma RoundOpens(cfg: Config, vs: seq<Validator>, events: seq<Event>, block: Block, mine: set<string>,
                   others: set<string>)
    returns (started: seq<Event>, r0: RoundState)
    requires Lower(block.proposer) in IdSet(vs) && Run(cfg, vs, events).state.active.None?
    requires TableOk(Run(cfg, vs, events).state.votes, block.number, block.hash, mine, others)
    ensures started == events + [StartRound(block)] && r0.proposed == Some(block)
    ensures Polling(cfg, vs, started, r0, {}, {}, mine, others)
  {
    RunKeepsInv(cfg, vs, events);
    started := events + [StartRound(block)];
    assert started[..|started| - 1] == events;
    r0 := Run(cfg, vs, started).state.active.value;
    ProposalAccepted(block.number, vs, cfg.localId, block, block.proposer);
    RunKeepsInv(cfg, vs, started);
    OpensWithoutVotes(r0);
  }

  /** The commits of the group finalize a block that all of the group prepared. */
  lemma FinishWith(cfg: Config, vs: seq<Validator>, events: seq<Event>, r0: RoundState, mine: set<string>,
                   others: set<string>)
    returns (next: seq<Event>)
    requires CanSign(cfg, vs) && Group(vs, Lower(cfg.localId), mine) && mine !! others
    requires Polling(cfg, vs, events, r0, mine, {}, mine, others)
    ensures Continues(events, next, r0.proposed.value, mine) && Polled(cfg, vs, next, r0.proposed.value, mine, others)
  {
    next := GroupVotes(cfg, vs, events, r0, mine, {}, CommitMsg, mine, mine, others);
    assert {} + mine == mine;
    GroupSuffices(cfg, vs, Run(cfg, vs, next).state, r0, mine);
  }

  /** So do its prepares and commits from the start. */
  lemma VoteThrough(cfg: Config, vs: seq<Validator>, events: seq<Event>, r0: RoundState, mine: set<string>,
                    others: set<string>)
    returns (next: seq<Event>)
    requires CanSign(cfg, vs) && Group(vs, Lower(cfg.localId), mine) && mine !! others
    requires Polling(cfg, vs, events, r0, {}, {}, mine, others)
    ensures Continues(events, next, r0.proposed.value, mine) && Polled(cfg, vs, next, r0.proposed.value, mine, others)
  {
    next := GroupVotes(cfg, vs, events, r0, {}, {}, PrepareMsg, mine, mine, others);
    assert {} + mine == mine;
    if !Polled(cfg, vs, next, r0.proposed.value, mine, others) {
      var prepared := next;
      next := FinishWith(cfg, vs, prepared, r0, mine, others);
      ContinuesTransitive(events, prepared, next, r0.proposed.value, mine);
    }
  }

  /** With no round active, a fresh group that makes a quorum with the local node finalizes any block. */
  lemma FinalizeWith(cfg: Config, vs: seq<Validator>, events: seq<Event>, block: Block, mine: set<string>,
                     others: set<string>)
    returns (next: seq<Event>)
    requires CanSign(cfg, vs) && Group(vs, Lower(cfg.localId), mine) && mine !! others
    requires Lower(block.proposer) in IdSet(vs) && Run(cfg, vs, events).state.active.None?
    requires TableOk(Run(cfg, vs, events).state.votes, block.number, block.hash, mine, others)
    ensures |events| < |next| && next[..|events|] == events
    ensures Continues(events + [StartRound(block)], next, block, mine)
    ensures Polled(cfg, vs, next, block, mine, others)
    ensures BlockHeights(next) == BlockHeights(events) + {block.number}
  {
    var started, r0 := RoundOpens(cfg, vs, events, block, mine, others);
    next := VoteThrough(cfg, vs, started, r0, mine, others);
    assert next[..|events|] == next[..|started|][..|events|];
    HeightsOfContinuation(events, block, next, mine);
  }

  lemma HeightsOfContinuation(events: seq<Event>, block: Block, next: seq<Event>, ids: set<string>)
    requires Continues(events + [StartRound(block)], next, block, ids)
    ensures BlockHeights(next) == BlockHeights(events) + {block.number}
  {
    var started := events + [StartRound(block)];
    assert next == started + next[|started|..];
    assert forall e :: e in next[|started|..] ==> e.Deliver?;
    assert forall e :: e in started <==> e in events || e == StartRound(block);
    assert StartRound(block) in next;
    assert forall e :: e in next && !e.Deliver? <==> e in started && !e.Deliver?;
  }

  /**
   * Two blocks at one height are finalized one after the other, if the votes
   * for the first do not stand against the second.
   */
  lemma FinalizeTwo(cfg: Config, vs: seq<Validator>, a: set<string>, b: set<string>, hash1: string, hash2: string)
    returns (events: seq<Event>, f1: Final, f2: Final)
    requires CanSign(cfg, vs) && Group(vs, Lower(cfg.localId), a) && Group(vs, Lower(cfg.localId), b)
    requires hash1 != hash2 && (a !! b || (a == b && hash1 == ""))
    ensures AnyConflict(cfg, vs, events, f1, f2) && f1.block.hash == hash1 && f2.block.hash == hash2
    ensures f1.block.number == 1 && BlockHeights(events) == {1}
    ensures forall e :: e in events && e.Deliver? ==>
              e.msg.height == 1 && ((e.msg.blockHash == hash1 && Lower(e.msg.senderId) in a)
                                    || (e.msg.blockHash == hash2 && Lower(e.msg.senderId) in b))
  {
    var v :| v in vs;
    var x, y, others := Block(1, hash1, v.id), Block(1, hash2, v.id), if a == b then {} else b;
    var first := FinalizeWith(cfg, vs, [], x, a, others);
    assert TableOk(Run(cfg, vs, first).state.votes, 1, hash2, b, {});
    events := FinalizeWith(cfg, vs, first, y, b, {});
    f1 :| f1 in Run(cfg, vs, first).finals && f1.block == x;
    f2 :| f2 in Run(cfg, vs, events).finals && f2.block == y;
    FinalsGrow(cfg, vs, events, |first|);
    assert BlockHeightsAbove(events, 1) == {};
    VotesOf([], first, x, a);
    VotesOf(first, events, y, b);
  }

  lemma VotesOf(events: seq<Event>, next: seq<Event>, block: Block, ids: set<string>)
    requires Continues(events + [StartRound(block)], next, block, ids)
    ensures forall e :: e in next && e.Deliver? ==> e in events || IsVoteFor(e, block, ids)
  {
    var started := events + [StartRound(block)];
    forall e | e in next && e.Deliver? ensures e in events || IsVoteFor(e, block, ids) {
      var i :| 0 <= i < |next| && next[i] == e;
      assert i < |started| ==> next[..|started|][i] == started[i];
    }
  }

  lemma SplitMakesConflict(cfg: Config, vs: seq<Validator>, a: set<string>, b: set<string>)
    returns (events: seq<Event>, f1: Final, f2: Final)
    requires CanSign(cfg, vs) && SplitBy(vs, Lower(cfg.localId), a, b)
    ensures Conflicts(cfg, vs, events, f1, f2)
    ensures f1.block.number == 1 && BlockHeights(events) == {1}
  {
    events, f1, f2 := FinalizeTwo(cfg, vs, a, b, "x", "y");
  }

  /**
   * Exactly the validator sets with such a split let one coordinator, in the detector's window, finalize two
   * non-empty hashes at one height.
   */
  lemma ConflictExactly(cfg: Config, vs: seq<Validator>)
    requires CanSign(cfg, vs)
    ensures (exists events, f1, f2 :: Conflicts(cfg, vs, events, f1, f2))
            <==> (exists a, b :: SplitBy(vs, Lower(cfg.localId), a, b))
  {
    if events, f1, f2 :| Conflicts(cfg, vs, events, f1, f2) {
      var a, b := ConflictNeedsSplit(cfg, vs, events, f1, f2);
    }
    if a, b :| SplitBy(vs, Lower(cfg.localId), a, b) {
      var events, f1, f2 := SplitMakesConflict(cfg, vs, a, b);
    }
  }

  // ----- an empty hash leaves no record

  /** One group finalizes the empty hash, of which nothing is on record, and then another one at the same height. */
  lemma GroupMakesConflict(cfg: Config, vs: seq<Validator>, a: set<string>)
    returns (events: seq<Event>, f1: Final, f2: Final)
    requires CanSign(cfg, vs) && Group(vs, Lower(cfg.localId), a)
    ensures AnyConflict(cfg, vs, events, f1, f2) && f1.block.hash == "" && f1.block.number == 1
            && BlockHeights(events) == {1}
  {
    events, f1, f2 := FinalizeTwo(cfg, vs, a, a, "", "y");
  }

  /**
   * If one of the hashes may be empty, no split is needed: exactly the validator sets on which the coordinator,
   * validator or observer, can finalize anything at all let it finalize two hashes at one height, in the detector's
   * window.
   */
  lemma AnyConflictExactly(cfg: Config, vs: seq<Validator>)
    requires CanSign(cfg, vs)
    ensures (exists events, f1, f2 :: AnyConflict(cfg, vs, events, f1, f2))
            <==> (exists a :: Group(vs, Lower(cfg.localId), a))
  {
    if events, f1, f2 :| AnyConflict(cfg, vs, events, f1, f2) {
      var a := FinalNeedsGroup(cfg, vs, events, f1);
    }
    if a :| Group(vs, Lower(cfg.localId), a) {
      var events, f1, f2 := GroupMakesConflict(cfg, vs, a);
    }
  }

  /** A coordinator with at most a third of the stake has no split, and yet finalizes two hashes, one of them empty. */
  lemma LightNodeConflicts(cfg: Config, vs: seq<Validator>, a: set<string>)
    requires CanSign(cfg, vs) && Group(vs, Lower(cfg.localId), a)
             && 3 * StakeOf({Lower(cfg.localId)}, vs) <= TotalStake(vs)
    ensures forall b, c :: !SplitBy(vs, Lower(cfg.localId), b, c)
    ensures exists events, f1, f2 :: AnyConflict(cfg, vs, events, f1, f2)
  {
    var local := Lower(cfg.localId);
    forall b, c ensures !SplitBy(vs, local, b, c) {
      if SplitBy(vs, local, b, c) {
        assert (b + {local}) * (c + {local}) == {local};
        QuorumOverlap(b + {local}, c + {local}, vs);
      }
    }
    var events, f1, f2 := GroupMakesConflict(cfg, vs, a);
  }

  /** Four equal validators are such a set. */
  lemma FourValidators(cfg: Config, vs: seq<Validator>)
    requires CanSign(cfg, vs) && Lower(cfg.localId) == "a"
    requires vs == [Validator("a", 1), Validator("b", 1), Validator("c", 1), Validator("d", 1)]
    ensures (forall b, c :: !SplitBy(vs, "a", b, c)) && exists events, f1, f2 :: AnyConflict(cfg, vs, events, f1, f2)
  {
    FourStakes(vs);
    LightNodeConflicts(cfg, vs, {"b", "c", "d"});
  }

  lemma FourStakes(vs: seq<Validator>)
    requires vs == [Validator("a", 1), Validator("b", 1), Validator("c", 1), Validator("d", 1)]
    ensures TotalStake(vs) == 4 && StakeOf({"a"}, vs) == 1 && Group(vs, "a", {"b", "c", "d"})
  {
    assert Lower("a") == "a" && Lower("b") == "b" && Lower("c") == "c" && Lower("d") == "d";
    assert vs[0] in vs && vs[1] in vs && vs[2] in vs && vs[3] in vs;
    var one, two, three := vs[..1], vs[..2], vs[..3];
    assert three[..2] == two && two[..1] == one && one[..0] == [];
    assert TotalStake(one) == 1 && TotalStake(two) == 2 && TotalStake(three) == 3;
    assert StakeOf({"a"}, one) == 1;
    assert {"a"} - {"b"} == {"a"} && {"a"} - {"c"} == {"a"} && {"a"} - {"d"} == {"a"};
    assert StakeOf({"a"}, two) == 1 && StakeOf({"a"}, three) == 1;
    var all := {"b", "c", "d"} + {"a"};
    assert all - {"d"} == {"a", "b", "c"} && {"a", "b", "c"} - {"c"} == {"a", "b"} && {"a", "b"} - {"b"} == {"a"};
    assert StakeOf({"a", "b"}, two) == 2 && StakeOf({"a", "b", "c"}, three) == 3 && StakeOf(all, vs) == 4;
  }
}
