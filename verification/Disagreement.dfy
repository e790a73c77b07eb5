/** Exactly when a node can commit to two hashes at one height, and when honest nodes can finalize two. */
module Disagreement {
  import opened Options
  import Sets
  import opened Text
  import opened Quorum
  import opened Round
  import opened Detector
  import opened Coordinator
  import opened Safety
  import opened SingleNode
  import opened ConflictingRuns
  import opened LongRuns
  import opened Agreement

  // ----- one node

  /** The node commits to two hashes at a height, with `n` higher heights among the blocks of its run. */
  ghost predicate CommitsTwoBelow(cfg: Config, vs: seq<Validator>, events: seq<Event>, height: int, hash1: string,
                                  hash2: string, n: nat)
  {
    CommitsTwo(cfg, vs, events, height, hash1, hash2) && |BlockHeightsAbove(events, height)| == n
  }

  ghost predicate ProperCommitsTwoBelow(cfg: Config, vs: seq<Validator>, events: seq<Event>, height: int,
                                        hash1: string, hash2: string, n: nat)
  {
    CommitsTwoBelow(cfg, vs, events, height, hash1, hash2, n) && hash1 != "" && hash2 != ""
  }

  lemma FinalsAreCommitted(cfg: Config, vs: seq<Validator>, events: seq<Event>, f: Final)
    requires f in Run(cfg, vs, events).finals
    ensures Commits(cfg, vs, events, f.block.number, f.block.hash)
  {
    assert events[..|events|] == events;
    assert CommitsAt(cfg, vs, events, |events|, f.block);
  }

  lemma RemoteGroup(cfg: Config, vs: seq<Validator>, p: set<string>)
    requires PrepareQuorum(cfg, vs, p)
    ensures Group(vs, Lower(cfg.localId), p - {Lower(cfg.localId)})
  {
    StakeMonotone(p, p - {Lower(cfg.localId)} + {Lower(cfg.localId)}, vs);
  }

  lemma CommitAtNeedsGroup(cfg: Config, vs: seq<Validator>, events: seq<Event>, n: nat, block: Block)
    returns (a: set<string>)
    requires CommitsAt(cfg, vs, events, n, block)
    ensures Group(vs, Lower(cfg.localId), a)
  {
    var prefix := events[..n];
    var p := QuorumOnRecord(cfg, vs, prefix, block);
    RemoteGroup(cfg, vs, p);
    a := p - {Lower(cfg.localId)};
  }

  lemma CommitNeedsGroup(cfg: Config, vs: seq<Validator>, events: seq<Event>, height: int, hash: string)
    returns (a: set<string>)
    requires Commits(cfg, vs, events, height, hash)
    ensures Group(vs, Lower(cfg.localId), a)
  {
    var n, block :| CommitsAt(cfg, vs, events, n, block) && block.number == height && block.hash == hash;
    a := CommitAtNeedsGroup(cfg, vs, events, n, block);
  }

  lemma CommitsNeedSplit(cfg: Config, vs: seq<Validator>, events: seq<Event>, height: int, hash1: string, hash2: string)
    returns (a: set<string>, b: set<string>)
    requires CommitsTwo(cfg, vs, events, height, hash1, hash2) && hash1 != "" && hash2 != ""
    requires |BlockHeightsAbove(events, height)| < MAX_TRACKED_HEIGHTS
    ensures SplitBy(vs, Lower(cfg.localId), a, b)
  {
    var p1, p2 := QuorumsOfTwo(cfg, vs, events, height, hash1, hash2);
    RemoteGroup(cfg, vs, p1);
    RemoteGroup(cfg, vs, p2);
    a, b := p1 - {Lower(cfg.localId)}, p2 - {Lower(cfg.localId)};
  }

  /**
   * A node can commit to two non-empty hashes at one height exactly on the validator sets on which it can finalize two.
   */
  lemma CommitsTwoExactly(cfg: Config, vs: seq<Validator>, n: nat)
    requires CanSign(cfg, vs)
    ensures (exists events, height, hash1, hash2 :: ProperCommitsTwoBelow(cfg, vs, events, height, hash1, hash2, n))
            <==> if n < MAX_TRACKED_HEIGHTS then exists a, b :: SplitBy(vs, Lower(cfg.localId), a, b)
                 else exists a :: Group(vs, Lower(cfg.localId), a)
  {
    if events, height, hash1, hash2 :| ProperCommitsTwoBelow(cfg, vs, events, height, hash1, hash2, n) {
      if n < MAX_TRACKED_HEIGHTS {
        var a, b := CommitsNeedSplit(cfg, vs, events, height, hash1, hash2);
      } else {
        var a := CommitNeedsGroup(cfg, vs, events, height, hash1);
      }
    }
    ConflictBelowExactly(cfg, vs, n);
    if events, f1, f2 :| ProperConflictBelow(cfg, vs, events, f1, f2, n) {
      FinalsAreCommitted(cfg, vs, events, f1);
      FinalsAreCommitted(cfg, vs, events, f2);
      assert ProperCommitsTwoBelow(cfg, vs, events, f1.block.number, f1.block.hash, f2.block.hash, n);
    }
  }

  lemma AnyCommitsTwoExactly(cfg: Config, vs: seq<Validator>, n: nat)
    requires CanSign(cfg, vs)
    ensures (exists events, height, hash1, hash2 :: CommitsTwoBelow(cfg, vs, events, height, hash1, hash2, n))
            <==> (exists a :: Group(vs, Lower(cfg.localId), a))
  {
    if events, height, hash1, hash2 :| CommitsTwoBelow(cfg, vs, events, height, hash1, hash2, n) {
      var a := CommitNeedsGroup(cfg, vs, events, height, hash1);
    }
    AnyConflictBelowExactly(cfg, vs, n);
    if events, f1, f2 :| ConflictBelow(cfg, vs, events, f1, f2, n) {
      FinalsAreCommitted(cfg, vs, events, f1);
      FinalsAreCommitted(cfg, vs, events, f2);
      assert CommitsTwoBelow(cfg, vs, events, f1.block.number, f1.block.hash, f2.block.hash, n);
    }
  }

  // ----- putting a network together

  /** The hashes that a validator is to commit to, each with its height. */
  type Part = set<(int, string)>

  ghost predicate Plays(cfg: Config, vs: seq<Validator>, events: seq<Event>, part: Part, heights: set<int>) {
    BlockHeights(events) <= heights && forall x :: x in part ==> Commits(cfg, vs, events, x.0, x.1)
  }

  ghost predicate CanPlay(cfg: Config, vs: seq<Validator>, part: Part, heights: set<int>) {
    exists events :: Plays(cfg, vs, events, part, heights)
  }

  /** The votes delivered are those of the parts. */
  ghost predicate Hears(events: seq<Event>, parts: string -> Part) {
    forall e :: e in events && e.Deliver? ==> (e.msg.height, e.msg.blockHash) in parts(Lower(e.msg.senderId))
  }

  /** Every validator can sign, and runs under its own id. */
  ghost predicate Network(vs: seq<Validator>, cfgs: string -> Config) {
    forall id :: id in IdSet(vs) ==> Lower(cfgs(id).localId) == id && CanSign(cfgs(id), vs)
  }

  /** The honest nodes of a network run these configurations. */
  ghost predicate Runs(honest: Honest, cfgs: string -> Config) {
    forall id :: id in honest ==> honest[id].cfg == cfgs(id)
  }

  ghost predicate AllPlay(vs: seq<Validator>, cfgs: string -> Config, honest: Honest, parts: string -> Part,
                          heights: set<int>)
  {
    forall id :: id in honest ==>
      honest[id].cfg == cfgs(id) && Plays(cfgs(id), vs, honest[id].events, parts(id), heights)
  }

  lemma {:induction false} Assemble(vs: seq<Validator>, cfgs: string -> Config, parts: string -> Part,
                                    heights: set<int>, ids: set<string>) returns (honest: Honest)
    requires forall id :: id in ids ==> CanPlay(cfgs(id), vs, parts(id), heights)
    ensures honest.Keys == ids && AllPlay(vs, cfgs, honest, parts, heights)
    decreases ids
  {
    if ids == {} {
      honest := map[];
    } else {
      var id :| id in ids;
      var rest := Assemble(vs, cfgs, parts, heights, ids - {id});
      var events :| Plays(cfgs(id), vs, events, parts(id), heights);
      honest := rest[id := Node(cfgs(id), events)];
    }
  }

  lemma HearsFaithfully(vs: seq<Validator>, cfgs: string -> Config, honest: Honest, parts: string -> Part,
                        heights: set<int>, star: string)
    requires AllPlay(vs, cfgs, honest, parts, heights) && OwnIds(honest)
    requires star in honest && Hears(honest[star].events, parts)
    ensures SentFaithfully(vs, honest, honest[star])
  {
    forall id, height, hash | id in honest && Voted(honest[star].cfg, honest[star].events, CommitMsg, height, hash, id)
      ensures Commits(honest[id].cfg, vs, honest[id].events, height, hash)
    {
      assert (height, hash) in parts(id);
    }
  }

  /** One validator hears the parts that all of them play: this is a network of honest validators. */
  lemma Stage(vs: seq<Validator>, cfgs: string -> Config, parts: string -> Part, heights: set<int>,
              star: string, events: seq<Event>) returns (honest: Honest)
    requires Network(vs, cfgs) && star in IdSet(vs) && Hears(events, parts)
    requires Plays(cfgs(star), vs, events, parts(star), heights)
    requires forall id :: id in IdSet(vs) ==> CanPlay(cfgs(id), vs, parts(id), heights)
    ensures honest.Keys == IdSet(vs) && Runs(honest, cfgs) && honest[star] == Node(cfgs(star), events)
    ensures MostlyHonest(vs, honest, honest[star], honest[star]) && AllPlay(vs, cfgs, honest, parts, heights)
  {
    var others := Assemble(vs, cfgs, parts, heights, IdSet(vs) - {star});
    honest := others[star := Node(cfgs(star), events)];
    HearsFaithfully(vs, cfgs, honest, parts, heights, star);
    assert IdSet(vs) - honest.Keys == {};
    StakeOfStrangers({}, vs);
  }

  lemma PlaysInWindow(vs: seq<Validator>, cfgs: string -> Config, honest: Honest, parts: string -> Part)
    requires AllPlay(vs, cfgs, honest, parts, {1})
    ensures InWindow(honest, 1)
  {
    forall id | id in honest ensures BlockHeightsAbove(honest[id].events, 1) == {} {
      assert Plays(cfgs(id), vs, honest[id].events, parts(id), {1});
    }
  }

  lemma QuorumOfAll(vs: seq<Validator>, id: string, a: set<string>, x: string)
    requires Group(vs, id, a) && id in IdSet(vs) && x in IdSet(vs)
    ensures Group(vs, x, IdSet(vs) - {x})
  {
    StakeMonotone(a + {id}, IdSet(vs), vs);
    assert IdSet(vs) - {x} + {x} == IdSet(vs);
    var y := Sets.AnyOf(a);
    assert (if x == id then y else id) in IdSet(vs) - {x};
  }

  lemma PlaysTwo(cfg: Config, vs: seq<Validator>, events: seq<Event>, f1: Final, f2: Final)
    requires TwoHashes(cfg, vs, events, f1, f2) && f1.block.number == 1 && BlockHeights(events) == {1}
    ensures Plays(cfg, vs, events, {(1, f1.block.hash), (1, f2.block.hash)}, {1})
  {
    FinalsAreCommitted(cfg, vs, events, f1);
    FinalsAreCommitted(cfg, vs, events, f2);
  }

  // ----- disagreement on an empty hash

  /** Most of the stake is honest and no honest node has over a third or left the window, and yet two nodes disagree. */
  ghost predicate HonestDisagreement(vs: seq<Validator>, honest: Honest, o1: Node, o2: Node, f1: Final, f2: Final) {
    MostlyHonest(vs, honest, o1, o2) && Steady(vs, honest, f1.block.number) && Disagree(vs, o1, o2, f1, f2)
  }

  ghost predicate NoHeavyValidator(vs: seq<Validator>) {
    forall id :: id in IdSet(vs) ==> 3 * StakeOf({id}, vs) <= TotalStake(vs)
  }

  lemma NeedsOthers(vs: seq<Validator>, id: string)
    requires id in IdSet(vs) && IsQuorum(IdSet(vs), vs) && 3 * StakeOf({id}, vs) <= TotalStake(vs)
    ensures Group(vs, id, IdSet(vs) - {id})
  {
    assert IdSet(vs) - {id} + {id} == IdSet(vs) != {id};
  }

  ghost function EmptyPart(id: string): Part { {(1, ""), (1, "y")} }

  lemma PlaysEmpty(cfg: Config, vs: seq<Validator>, a: set<string>) returns (events: seq<Event>, f1: Final, f2: Final)
    requires CanSign(cfg, vs) && Group(vs, Lower(cfg.localId), a)
    ensures Plays(cfg, vs, events, EmptyPart(Lower(cfg.localId)), {1}) && Hears(events, EmptyPart)
    ensures TwoHashes(cfg, vs, events, f1, f2) && f1.block.number == 1
  {
    events, f1, f2 := FinalizeTwo(cfg, vs, a, a, "", "y");
    PlaysTwo(cfg, vs, events, f1, f2);
  }

  lemma DisagreementOnEmpty(vs: seq<Validator>, cfgs: string -> Config)
    returns (honest: Honest, o: Node, f1: Final, f2: Final)
    requires Network(vs, cfgs) && IsQuorum(IdSet(vs), vs) && NoHeavyValidator(vs)
    ensures HonestDisagreement(vs, honest, o, o, f1, f2) && Runs(honest, cfgs)
  {
    forall id | id in IdSet(vs) ensures CanPlay(cfgs(id), vs, EmptyPart(id), {1}) {
      NeedsOthers(vs, id);
      var events, g1, g2 := PlaysEmpty(cfgs(id), vs, IdSet(vs) - {id});
    }
    EmptySetIsNoQuorum(vs);
    var star := Sets.AnyOf(IdSet(vs));
    NeedsOthers(vs, star);
    var events;
    events, f1, f2 := PlaysEmpty(cfgs(star), vs, IdSet(vs) - {star});
    honest := Stage(vs, cfgs, EmptyPart, {1}, star, events);
    PlaysInWindow(vs, cfgs, honest, EmptyPart);
    o := honest[star];
  }

  /**
   * With an empty hash among the two, all but a third of the stake being honest does not help: some network of honest
   * nodes disagrees exactly if the validators together reach quorum and none of them has more than a third.
   */
  lemma AnyDisagreementExactly(vs: seq<Validator>, cfgs: string -> Config)
    requires Network(vs, cfgs)
    ensures (exists honest, o1, o2, f1, f2 :: HonestDisagreement(vs, honest, o1, o2, f1, f2) && Runs(honest, cfgs))
            <==> IsQuorum(IdSet(vs), vs) && NoHeavyValidator(vs)
  {
    if honest, o1, o2, f1, f2 :| HonestDisagreement(vs, honest, o1, o2, f1, f2) && Runs(honest, cfgs) {
      RunIsBacked(o1.cfg, vs, o1.events);
      StakeMonotone(f1.committers, IdSet(vs), vs);
      forall id | id in IdSet(vs) ensures 3 * StakeOf({id}, vs) <= TotalStake(vs) {
        if id !in honest {
          StakeMonotone({id}, IdSet(vs) - honest.Keys, vs);
        }
      }
    }
    if IsQuorum(IdSet(vs), vs) && NoHeavyValidator(vs) {
      var honest, o, f1, f2 := DisagreementOnEmpty(vs, cfgs);
    }
  }

  // ----- disagreement on proper hashes

  /** Most of the stake is honest, and yet two nodes finalize different hashes at one height, neither of them empty. */
  ghost predicate ProperDisagreement(vs: seq<Validator>, honest: Honest, o1: Node, o2: Node, f1: Final, f2: Final) {
    MostlyHonest(vs, honest, o1, o2) && Disagree(vs, o1, o2, f1, f2) && f1.block.hash != "" && f2.block.hash != ""
  }

  ghost predicate ProperInWindow(vs: seq<Validator>, honest: Honest, o1: Node, o2: Node, f1: Final, f2: Final) {
    ProperDisagreement(vs, honest, o1, o2, f1, f2) && InWindow(honest, f1.block.number)
  }

  ghost predicate SplitAt(vs: seq<Validator>, id: string) {
    id in IdSet(vs) && exists a, b :: SplitBy(vs, id, a, b)
  }

  ghost predicate GroupAt(vs: seq<Validator>, id: string) {
    id in IdSet(vs) && exists a :: Group(vs, id, a)
  }

  /** One side of a split commits to `x`, the other to `y`, and the validator between them to both. */
  ghost function SplitPart(id: string, a: set<string>, b: set<string>, x: string): Part {
    if x == id then {(1, "x"), (1, "y")} else if x in a then {(1, "x")} else if x in b then {(1, "y")} else {}
  }

  /** A member of a group that reaches quorum with `id` can commit to any hash. */
  lemma MemberCommits(cfg: Config, vs: seq<Validator>, id: string, a: set<string>, hash: string)
    returns (events: seq<Event>)
    requires CanSign(cfg, vs) && Group(vs, id, a) && id in IdSet(vs) && Lower(cfg.localId) in a
    ensures Plays(cfg, vs, events, {(1, hash)}, {1})
  {
    var x, v := Lower(cfg.localId), vs[0];
    var block, group := Block(1, hash, v.id), a + {id} - {x};
    assert group + {x} == a + {id};
    assert id in group;
    events := FinalizeWith(cfg, vs, [], block, group, {});
    var f :| f in Run(cfg, vs, events).finals && f.block == block;
    FinalsAreCommitted(cfg, vs, events, f);
  }

  lemma SplitRun(cfg: Config, vs: seq<Validator>, a: set<string>, b: set<string>)
    returns (events: seq<Event>, f1: Final, f2: Final)
    requires CanSign(cfg, vs) && SplitBy(vs, Lower(cfg.localId), a, b)
    ensures var id := Lower(cfg.localId);
            Plays(cfg, vs, events, SplitPart(id, a, b, id), {1}) && Hears(events, x => SplitPart(id, a, b, x))
    ensures Conflicts(cfg, vs, events, f1, f2) && f1.block.number == 1
  {
    events, f1, f2 := FinalizeTwo(cfg, vs, a, b, "x", "y");
    PlaysTwo(cfg, vs, events, f1, f2);
  }

  lemma PlaysSplit(vs: seq<Validator>, cfgs: string -> Config, id: string, a: set<string>, b: set<string>, x: string)
    requires Network(vs, cfgs) && id in IdSet(vs) && SplitBy(vs, id, a, b) && x in IdSet(vs)
    ensures CanPlay(cfgs(x), vs, SplitPart(id, a, b, x), {1})
  {
    if x == id {
      var events, f1, f2 := SplitRun(cfgs(x), vs, a, b);
    } else if x in a {
      var events := MemberCommits(cfgs(x), vs, id, a, "x");
    } else if x in b {
      var events := MemberCommits(cfgs(x), vs, id, b, "y");
    } else {
      assert Plays(cfgs(x), vs, [], {}, {1});
    }
  }

  lemma DisagreementOnSplit(vs: seq<Validator>, cfgs: string -> Config, id: string, a: set<string>, b: set<string>)
    returns (honest: Honest, o: Node, f1: Final, f2: Final)
    requires Network(vs, cfgs) && id in IdSet(vs) && SplitBy(vs, id, a, b)
    ensures ProperInWindow(vs, honest, o, o, f1, f2) && Runs(honest, cfgs)
  {
    var parts := x => SplitPart(id, a, b, x);
    forall x | x in IdSet(vs) ensures CanPlay(cfgs(x), vs, parts(x), {1}) {
      PlaysSplit(vs, cfgs, id, a, b, x);
    }
    var events;
    events, f1, f2 := SplitRun(cfgs(id), vs, a, b);
    honest := Stage(vs, cfgs, parts, {1}, id, events);
    PlaysInWindow(vs, cfgs, honest, parts);
    o := honest[id];
  }

  lemma DisagreementNeedsSplit(vs: seq<Validator>, honest: Honest, o1: Node, o2: Node, f1: Final, f2: Final)
    returns (id: string)
    requires ProperInWindow(vs, honest, o1, o2, f1, f2)
    ensures SplitAt(vs, id)
  {
    id := DisagreementNeedsTwoCommits(vs, honest, o1, o2, f1, f2);
    var o := honest[id];
    var a, b := CommitsNeedSplit(o.cfg, vs, o.events, f1.block.number, f1.block.hash, f2.block.hash);
  }

  /**
   * In the window, a network that is mostly honest can disagree on non-empty hashes exactly if one of the validators
   * splits the others.
   */
  lemma ProperDisagreementExactly(vs: seq<Validator>, cfgs: string -> Config)
    requires Network(vs, cfgs)
    ensures (exists honest, o1, o2, f1, f2 :: ProperInWindow(vs, honest, o1, o2, f1, f2) && Runs(honest, cfgs))
            <==> (exists id :: SplitAt(vs, id))
  {
    if honest, o1, o2, f1, f2 :| ProperInWindow(vs, honest, o1, o2, f1, f2) && Runs(honest, cfgs) {
      var id := DisagreementNeedsSplit(vs, honest, o1, o2, f1, f2);
    }
    if id :| SplitAt(vs, id) {
      var a, b :| SplitBy(vs, id, a, b);
      var honest, o, f1, f2 := DisagreementOnSplit(vs, cfgs, id, a, b);
    }
  }

  // ----- and in runs of any length

  ghost function LongPart(id: string): Part {
    (set h | h in Heights(1, MAX_TRACKED_HEIGHTS + 1) :: (h, "x")) + {(1, "y")}
  }

  lemma HearsLong(cfg: Config, vs: seq<Validator>, events: seq<Event>)
    requires FellBack(cfg, vs, events, MAX_TRACKED_HEIGHTS + 1)
    ensures Hears(events, LongPart)
  {
  }

  lemma CommitsLong(cfg: Config, vs: seq<Validator>, events: seq<Event>, h: int)
    requires FellBack(cfg, vs, events, MAX_TRACKED_HEIGHTS + 1) && 1 <= h <= MAX_TRACKED_HEIGHTS + 1
    ensures Commits(cfg, vs, events, h, "x")
  {
    assert FinalizedAt(cfg, vs, events, h);
    var f :| f in Run(cfg, vs, events).finals && f.block.number == h && f.block.hash == "x";
    FinalsAreCommitted(cfg, vs, events, f);
  }

  lemma CommitsBack(cfg: Config, vs: seq<Validator>, events: seq<Event>)
    requires FellBack(cfg, vs, events, MAX_TRACKED_HEIGHTS + 1)
    ensures Commits(cfg, vs, events, 1, "y")
  {
    var f :| f in Run(cfg, vs, events).finals && f.block.number == 1 && f.block.hash == "y";
    FinalsAreCommitted(cfg, vs, events, f);
  }

  lemma InLongPart(id: string, x: (int, string))
    requires x in LongPart(id)
    ensures (x.0 == 1 && x.1 == "y") || (1 <= x.0 <= MAX_TRACKED_HEIGHTS + 1 && x.1 == "x")
  {
  }

  lemma CommitsPart(cfg: Config, vs: seq<Validator>, events: seq<Event>, id: string, x: (int, string))
    requires FellBack(cfg, vs, events, MAX_TRACKED_HEIGHTS + 1) && x in LongPart(id)
    ensures Commits(cfg, vs, events, x.0, x.1)
  {
    InLongPart(id, x);
    if x.1 == "x" {
      CommitsLong(cfg, vs, events, x.0);
    } else {
      CommitsBack(cfg, vs, events);
    }
  }

  lemma PlaysFallBack(cfg: Config, vs: seq<Validator>, events: seq<Event>, id: string)
    requires FellBack(cfg, vs, events, MAX_TRACKED_HEIGHTS + 1)
    ensures Plays(cfg, vs, events, LongPart(id), Heights(1, MAX_TRACKED_HEIGHTS + 1))
  {
    forall x | x in LongPart(id) ensures Commits(cfg, vs, events, x.0, x.1) {
      CommitsPart(cfg, vs, events, id, x);
    }
  }

  lemma PlaysLong(cfg: Config, vs: seq<Validator>, a: set<string>) returns (events: seq<Event>, f1: Final, f2: Final)
    requires CanSign(cfg, vs) && Group(vs, Lower(cfg.localId), a)
    ensures Plays(cfg, vs, events, LongPart(Lower(cfg.localId)), Heights(1, MAX_TRACKED_HEIGHTS + 1))
    ensures Hears(events, LongPart)
    ensures TwoHashes(cfg, vs, events, f1, f2) && f1.block.hash == "x" && f2.block.hash == "y"
  {
    events := FallBack(cfg, vs, a, MAX_TRACKED_HEIGHTS + 1);
    HearsLong(cfg, vs, events);
    PlaysFallBack(cfg, vs, events, Lower(cfg.localId));
    assert FinalizedAt(cfg, vs, events, 1);
    f1 :| f1 in Run(cfg, vs, events).finals && f1.block.number == 1 && f1.block.hash == "x";
    f2 :| f2 in Run(cfg, vs, events).finals && f2.block.number == 1 && f2.block.hash == "y";
  }

  lemma LongDisagreement(vs: seq<Validator>, cfgs: string -> Config, star: string, a: set<string>)
    returns (honest: Honest, o: Node, f1: Final, f2: Final)
    requires Network(vs, cfgs) && star in IdSet(vs) && Group(vs, star, a)
    ensures ProperDisagreement(vs, honest, o, o, f1, f2) && Runs(honest, cfgs)
  {
    var heights := Heights(1, MAX_TRACKED_HEIGHTS + 1);
    forall id | id in IdSet(vs) ensures CanPlay(cfgs(id), vs, LongPart(id), heights) {
      QuorumOfAll(vs, star, a, id);
      var events, g1, g2 := PlaysLong(cfgs(id), vs, IdSet(vs) - {id});
    }
    var events;
    events, f1, f2 := PlaysLong(cfgs(star), vs, a);
    honest := Stage(vs, cfgs, LongPart, heights, star, events);
    o := honest[star];
  }

  lemma DisagreementNeedsGroup(vs: seq<Validator>, honest: Honest, o1: Node, o2: Node, f1: Final, f2: Final)
    returns (id: string)
    requires MostlyHonest(vs, honest, o1, o2) && Disagree(vs, o1, o2, f1, f2)
    ensures GroupAt(vs, id)
  {
    id := DisagreementNeedsTwoCommits(vs, honest, o1, o2, f1, f2);
    var a := CommitNeedsGroup(honest[id].cfg, vs, honest[id].events, f1.block.number, f1.block.hash);
  }

  /** In runs of any length it can disagree exactly if one of the validators can finalize anything at all. */
  lemma LongDisagreementExactly(vs: seq<Validator>, cfgs: string -> Config)
    requires Network(vs, cfgs)
    ensures (exists honest, o1, o2, f1, f2 :: ProperDisagreement(vs, honest, o1, o2, f1, f2) && Runs(honest, cfgs))
            <==> (exists id :: GroupAt(vs, id))
  {
    if honest, o1, o2, f1, f2 :| ProperDisagreement(vs, honest, o1, o2, f1, f2) && Runs(honest, cfgs) {
      var id := DisagreementNeedsGroup(vs, honest, o1, o2, f1, f2);
    }
    if id :| GroupAt(vs, id) {
      var a :| Group(vs, id, a);
      var honest, o, f1, f2 := LongDisagreement(vs, cfgs, id, a);
    }
  }
}
