/** What a node commits to, and agreement between the nodes of a network. */
module Agreement {
  import opened Options
  import Sets
  import opened Text
  import opened Quorum
  import opened Round
  import opened Detector
  import opened Coordinator
  import opened Safety
  import opened SingleNode

  // ----- one node commits to one hash per height

  /** The active round is past its prepare quorum for the block, or the block was finalized. */
  ghost predicate CommittedIn(o: Outcome, block: Block) {
    (o.state.active.Some? && o.state.active.value.phase == Commit && o.state.active.value.proposed == Some(block))
    || exists f :: f in o.finals && f.block == block
  }

  ghost predicate CommitsAt(cfg: Config, vs: seq<Validator>, events: seq<Event>, n: nat, block: Block) {
    n <= |events| && CommittedIn(Run(cfg, vs, events[..n]), block)
  }

  /** At some point of the run the node was committed to this hash at this height. */
  ghost predicate Commits(cfg: Config, vs: seq<Validator>, events: seq<Event>, height: int, hash: string) {
    exists n, block :: CommitsAt(cfg, vs, events, n, block) && block.number == height && block.hash == hash
  }

  lemma LaterHeights(events: seq<Event>, more: seq<Event>, h: int)
    ensures BlockHeightsAbove(events, h) <= BlockHeightsAbove(events + more, h)
  {
    assert forall e :: e in events ==> e in events + more;
  }

  /** A set of validators that reaches quorum and is not the local one alone. */
  ghost predicate PrepareQuorum(cfg: Config, vs: seq<Validator>, preparers: set<string>) {
    IsQuorum(preparers, vs) && preparers <= IdSet(vs) && !(preparers <= {Lower(cfg.localId)})
  }

  /** When the node commits there is a prepare quorum, and in the detector's window it is on record. */
  lemma QuorumOnRecord(cfg: Config, vs: seq<Validator>, events: seq<Event>, block: Block)
    returns (preparers: set<string>)
    requires CommittedIn(Run(cfg, vs, events), block)
    ensures PrepareQuorum(cfg, vs, preparers)
    ensures |BlockHeightsAbove(events, block.number)| < MAX_TRACKED_HEIGHTS ==>
              FinalOnRecord(cfg, Run(cfg, vs, events).state, block.number, Final(block, preparers, {}))
  {
    var o := Run(cfg, vs, events);
    RunKeepsInv(cfg, vs, events);
    RunIsBacked(cfg, vs, events);
    if |BlockHeightsAbove(events, block.number)| < MAX_TRACKED_HEIGHTS {
      RunKeepsRecord(cfg, vs, events, block.number, BlockHeightsAbove(events, block.number));
    }
    if f :| f in o.finals && f.block == block {
      preparers := f.preparers;
    } else {
      preparers := o.state.active.value.prepareVotes.Keys;
    }
  }

  /** What is on record stays so when the run goes on. */
  lemma {:induction false} StaysOnRecord(cfg: Config, vs: seq<Validator>, events: seq<Event>, more: seq<Event>,
                                         above: set<int>, f: Final)
    requires |above| < MAX_TRACKED_HEIGHTS && BlockHeightsAbove(events + more, f.block.number) <= above
    requires FinalOnRecord(cfg, Run(cfg, vs, events).state, f.block.number, f)
    ensures FinalOnRecord(cfg, Run(cfg, vs, events + more).state, f.block.number, f)
    decreases |more|
  {
    if more == [] {
      assert events + more == events;
    } else {
      var next := events + [more[0]];
      assert events + more == next + more[1..];
      LaterHeights(events, more, f.block.number);
      StaysOneStep(cfg, vs, events, more[0], above, f);
      StaysOnRecord(cfg, vs, next, more[1..], above, f);
    }
  }

  lemma StaysOneStep(cfg: Config, vs: seq<Validator>, events: seq<Event>, e: Event, above: set<int>, f: Final)
    requires |above| < MAX_TRACKED_HEIGHTS && BlockHeightsAbove(events, f.block.number) <= above
    requires FinalOnRecord(cfg, Run(cfg, vs, events).state, f.block.number, f)
    ensures FinalOnRecord(cfg, Run(cfg, vs, events + [e]).state, f.block.number, f)
  {
    RunKeepsRecord(cfg, vs, events, f.block.number, above);
    StepKeepsFinals(cfg, Run(cfg, vs, events).state, e, f.block.number, above, f);
    assert (events + [e])[..|events|] == events;
  }

  lemma QuorumAtEnd(cfg: Config, vs: seq<Validator>, events: seq<Event>, n: nat, block: Block)
    returns (preparers: set<string>)
    requires CommitsAt(cfg, vs, events, n, block)
    requires |BlockHeightsAbove(events, block.number)| < MAX_TRACKED_HEIGHTS
    ensures PrepareQuorum(cfg, vs, preparers)
    ensures FinalOnRecord(cfg, Run(cfg, vs, events).state, block.number, Final(block, preparers, {}))
  {
    var above := BlockHeightsAbove(events, block.number);
    assert events[..n] + events[n..] == events;
    LaterHeights(events[..n], events[n..], block.number);
    Sets.SubsetSize(BlockHeightsAbove(events[..n], block.number), above);
    preparers := QuorumOnRecord(cfg, vs, events[..n], block);
    StaysOnRecord(cfg, vs, events[..n], events[n..], above, Final(block, preparers, {}));
  }

  /** The node commits to two different hashes at one height. */
  ghost predicate CommitsTwo(cfg: Config, vs: seq<Validator>, events: seq<Event>, height: int, hash1: string,
                             hash2: string)
  {
    Commits(cfg, vs, events, height, hash1) && Commits(cfg, vs, events, height, hash2) && hash1 != hash2
  }

  /** In the window, two non-empty hashes have prepare quorums with no remote voter in common. */
  lemma QuorumsOfTwo(cfg: Config, vs: seq<Validator>, events: seq<Event>, height: int, hash1: string, hash2: string)
    returns (p1: set<string>, p2: set<string>)
    requires CommitsTwo(cfg, vs, events, height, hash1, hash2) && hash1 != "" && hash2 != ""
    requires |BlockHeightsAbove(events, height)| < MAX_TRACKED_HEIGHTS
    ensures PrepareQuorum(cfg, vs, p1) && PrepareQuorum(cfg, vs, p2) && p1 * p2 <= {Lower(cfg.localId)}
  {
    var n1, b1 :| CommitsAt(cfg, vs, events, n1, b1) && b1.number == height && b1.hash == hash1;
    var n2, b2 :| CommitsAt(cfg, vs, events, n2, b2) && b2.number == height && b2.hash == hash2;
    p1 := QuorumAtEnd(cfg, vs, events, n1, b1);
    p2 := QuorumAtEnd(cfg, vs, events, n2, b2);
  }

  /** Over any run in the window, a node whose own stake is at most a third commits to one non-empty hash per height. */
  lemma CommitsOnce(cfg: Config, vs: seq<Validator>, events: seq<Event>, height: int, hash1: string, hash2: string)
    requires Commits(cfg, vs, events, height, hash1) && Commits(cfg, vs, events, height, hash2)
    requires |BlockHeightsAbove(events, height)| < MAX_TRACKED_HEIGHTS
    requires 3 * StakeOf({Lower(cfg.localId)}, vs) <= TotalStake(vs)
    ensures hash1 == hash2 || hash1 == "" || hash2 == ""
  {
    if hash1 != hash2 && hash1 != "" && hash2 != "" {
      var p1, p2 := QuorumsOfTwo(cfg, vs, events, height, hash1, hash2);
      QuorumOverlap(p1, p2, vs);
      StakeMonotone(p1 * p2, {Lower(cfg.localId)}, vs);
      assert false;
    }
  }

  /** The commit vote that a node sends out is for a hash it is committed to. */
  lemma SentIsCommitted(cfg: Config, vs: seq<Validator>, events: seq<Event>, m: BftMessage)
    requires var s := Run(cfg, vs, events).state;
             Admissible(cfg, s, m) && Conflict(s.votes, CastOf(m)) == "" && LocalCommit(s.active.value, m) != []
    ensures var out := LocalCommit(Run(cfg, vs, events).state.active.value, m)[0];
            Commits(cfg, vs, events + [Deliver(m)], out.height, out.blockHash)
  {
    var more := events + [Deliver(m)];
    assert more[..|events|] == events && more[..|more|] == more;
    RunKeepsInv(cfg, vs, events);
    var r := Run(cfg, vs, events).state.active.value;
    VoteKeepsInv(r, m);
    assert CommitsAt(cfg, vs, more, |more|, r.proposed.value);
  }

  // ----- agreement

  datatype Node = Node(cfg: Config, events: seq<Event>)

  /** The honest validators by their id, each with its own run. */
  type Honest = map<string, Node>

  ghost predicate OwnIds(honest: Honest) {
    forall id :: id in honest ==> Lower(honest[id].cfg.localId) == id
  }

  /** A node is sent a commit of an honest validator only if that validator committed to the hash at the height. */
  ghost predicate SentFaithfully(vs: seq<Validator>, honest: Honest, o: Node) {
    (Lower(o.cfg.localId) in honest ==> honest[Lower(o.cfg.localId)] == o)
    && forall id, height, hash :: id in honest && Voted(o.cfg, o.events, CommitMsg, height, hash, id) ==>
         Commits(honest[id].cfg, vs, honest[id].events, height, hash)
  }

  ghost predicate InWindow(honest: Honest, height: int) {
    forall id :: id in honest ==> |BlockHeightsAbove(honest[id].events, height)| < MAX_TRACKED_HEIGHTS
  }

  /** In the window and with at most a third of the stake, so that no honest validator contradicts itself. */
  ghost predicate Steady(vs: seq<Validator>, honest: Honest, height: int) {
    InWindow(honest, height) && forall id :: id in honest ==> 3 * StakeOf({id}, vs) <= TotalStake(vs)
  }

  lemma CommitterCommits(vs: seq<Validator>, honest: Honest, o: Node, f: Final, id: string)
    requires SentFaithfully(vs, honest, o) && f in Run(o.cfg, vs, o.events).finals && id in f.committers && id in honest
    ensures Commits(honest[id].cfg, vs, honest[id].events, f.block.number, f.block.hash)
  {
    if id == Lower(o.cfg.localId) {
      assert o.events[..|o.events|] == o.events;
      assert CommitsAt(o.cfg, vs, o.events, |o.events|, f.block);
    } else {
      RunIsBacked(o.cfg, vs, o.events);
      assert Voted(o.cfg, o.events, CommitMsg, f.block.number, f.block.hash, id);
    }
  }

  /** Two finalized blocks have an honest committer in common if the others hold at most a third of the stake. */
  lemma HonestCommitter(vs: seq<Validator>, honest: Honest, o1: Node, o2: Node, f1: Final, f2: Final)
    returns (id: string)
    requires f1 in Run(o1.cfg, vs, o1.events).finals && f2 in Run(o2.cfg, vs, o2.events).finals
    requires 3 * StakeOf(IdSet(vs) - honest.Keys, vs) <= TotalStake(vs)
    ensures id in f1.committers * f2.committers && id in honest && id in IdSet(vs)
  {
    AccountableSafety(o1.cfg, o2.cfg, vs, o1.events, o2.events, f1, f2);
    RunIsBacked(o1.cfg, vs, o1.events);
    HeavyMeets(f1.committers * f2.committers, honest.Keys, vs);
    id := Sets.AnyOf(f1.committers * f2.committers * honest.Keys);
  }

  lemma HeavyMeets(heavy: set<string>, rest: set<string>, vs: seq<Validator>)
    requires heavy <= IdSet(vs) && 3 * StakeOf(heavy, vs) > TotalStake(vs) >= 3 * StakeOf(IdSet(vs) - rest, vs)
    ensures heavy * rest != {}
  {
    if heavy * rest == {} {
      assert forall x :: x in heavy && x in rest ==> x in heavy * rest;
      assert heavy <= IdSet(vs) - rest;
      StakeMonotone(heavy, IdSet(vs) - rest, vs);
    }
  }

  /** The two nodes get votes from honest validators, who hold all but a third of the stake, and from others. */
  ghost predicate MostlyHonest(vs: seq<Validator>, honest: Honest, o1: Node, o2: Node) {
    OwnIds(honest) && SentFaithfully(vs, honest, o1) && SentFaithfully(vs, honest, o2)
    && 3 * StakeOf(IdSet(vs) - honest.Keys, vs) <= TotalStake(vs)
  }

  /** The two nodes finalize different hashes at one height. */
  ghost predicate Disagree(vs: seq<Validator>, o1: Node, o2: Node, f1: Final, f2: Final) {
    f1 in Run(o1.cfg, vs, o1.events).finals && f2 in Run(o2.cfg, vs, o2.events).finals
    && f1.block.number == f2.block.number && f1.block.hash != f2.block.hash
  }

  /** Whatever the hashes and however long the runs, an honest validator then committed to both. */
  lemma DisagreementNeedsTwoCommits(vs: seq<Validator>, honest: Honest, o1: Node, o2: Node, f1: Final, f2: Final)
    returns (id: string)
    requires MostlyHonest(vs, honest, o1, o2) && Disagree(vs, o1, o2, f1, f2)
    ensures id in honest && id in IdSet(vs)
    ensures CommitsTwo(honest[id].cfg, vs, honest[id].events, f1.block.number, f1.block.hash, f2.block.hash)
  {
    id := HonestCommitter(vs, honest, o1, o2, f1, f2);
    CommitterCommits(vs, honest, o1, f1, id);
    CommitterCommits(vs, honest, o2, f2, id);
  }

  /** If the honest validators do not contradict themselves, no two nodes finalize different non-empty hashes. */
  lemma NetworkAgreement(vs: seq<Validator>, honest: Honest, o1: Node, o2: Node, f1: Final, f2: Final)
    requires MostlyHonest(vs, honest, o1, o2) && Steady(vs, honest, f1.block.number)
    requires f1 in Run(o1.cfg, vs, o1.events).finals && f2 in Run(o2.cfg, vs, o2.events).finals
    requires f1.block.number == f2.block.number
    ensures f1.block.hash == f2.block.hash || f1.block.hash == "" || f2.block.hash == ""
  {
    if f1.block.hash != f2.block.hash {
      var id := DisagreementNeedsTwoCommits(vs, honest, o1, o2, f1, f2);
      CommitsOnce(honest[id].cfg, vs, honest[id].events, f1.block.number, f1.block.hash, f2.block.hash);
    }
  }
}
