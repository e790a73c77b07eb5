/** How the phase of a round depends on the votes delivered to it. */
module Confluence {
  import opened Options
  import opened Text
  import opened Quorum
  import opened Round

  datatype Vote = PrepareFrom(sender: string, hash: string) | CommitFrom(sender: string, hash: string)

  function ApplyVote(s: RoundState, v: Vote): RoundState {
    match v
    case PrepareFrom(sender, hash) => PrepareStep(s, sender, hash)
    case CommitFrom(sender, hash) => CommitStep(s, sender, hash)
  }

  function ApplyVotes(s: RoundState, votes: seq<Vote>): RoundState {
    if votes == [] then s else ApplyVote(ApplyVotes(s, votes[..|votes| - 1]), votes[|votes| - 1])
  }

  /** The state right after a round accepted its proposal. */
  ghost predicate AfterProposal(s: RoundState) {
    s.phase == Prepare && s.proposed.Some? && s.proposed.value.number == s.height
    && s.prepareVotes == (if s.IsValidator() then map[s.Local() := s.proposed.value.hash] else map[])
    && s.commitVotes == map[]
  }

  /** A fresh round accepts a proposal exactly when it is at its height and from the known validator the block names. */
  lemma ProposalAccepted(height: int, vs: seq<Validator>, localId: string, block: Block, senderId: string)
    ensures var s := NewRound(height, vs, localId);
            var r := ProposeStep(s, block, senderId);
            if block.number == height && Lower(senderId) in IdSet(vs) && Lower(block.proposer) == Lower(senderId)
            then AfterProposal(r) && r.proposed == Some(block) && r.height == height && r.validators == vs
                 && r.localId == localId
            else r == s
  {
  }

  /** The known validators whose prepare votes for the proposed hash are among `votes`. */
  ghost function Prepares(s: RoundState, votes: seq<Vote>): set<string>
    requires s.proposed.Some?
  {
    set v | v in votes && v.PrepareFrom? && v.hash == s.proposed.value.hash && s.IsKnown(v.sender) :: Lower(v.sender)
  }

  ghost function Commits(s: RoundState, votes: seq<Vote>): set<string>
    requires s.proposed.Some?
  {
    set v | v in votes && v.CommitFrom? && v.hash == s.proposed.value.hash && s.IsKnown(v.sender) :: Lower(v.sender)
  }

  ghost function NewPrepare(s: RoundState, v: Vote): set<string>
    requires s.proposed.Some?
  {
    if v.PrepareFrom? && v.hash == s.proposed.value.hash && s.IsKnown(v.sender) then {Lower(v.sender)} else {}
  }

  ghost function NewCommit(s: RoundState, v: Vote): set<string>
    requires s.proposed.Some?
  {
    if v.CommitFrom? && v.hash == s.proposed.value.hash && s.IsKnown(v.sender) then {Lower(v.sender)} else {}
  }

  lemma SendersOfLast(s: RoundState, votes: seq<Vote>)
    requires s.proposed.Some? && votes != []
    ensures Prepares(s, votes) == Prepares(s, votes[..|votes| - 1]) + NewPrepare(s, votes[|votes| - 1])
    ensures Commits(s, votes) == Commits(s, votes[..|votes| - 1]) + NewCommit(s, votes[|votes| - 1])
  {
    var init, last := votes[..|votes| - 1], votes[|votes| - 1];
    assert forall v :: v in votes <==> v in init || v == last by {
      assert votes == init + [last];
    }
  }

  // ----- validators

  /** The prepare phase is over: a quorum, and at least one prepare vote besides the local one. */
  ghost predicate Prepared(s: RoundState, p: set<string>) {
    IsQuorum(p + {s.Local()}, s.validators) && p + {s.Local()} != {s.Local()}
  }

  ghost function PhaseFor(s: RoundState, p: set<string>, c: set<string>): Phase {
    if !Prepared(s, p) then Prepare
    else if !IsQuorum(c + {s.Local()}, s.validators) then Commit
    else Finalized
  }

  /** `r` is where the proposal state `s` gets with prepare senders `p` and commit senders `c`. */
  ghost predicate Tracks(s: RoundState, r: RoundState, p: set<string>, c: set<string>) {
    SameRound(s, r) && RoundInv(r)
    && r.phase == PhaseFor(s, p, c)
    && (r.phase == Prepare ==> r.prepareVotes.Keys == p + {s.Local()} && r.commitVotes.Keys == c)
    && (r.phase == Commit ==> r.commitVotes.Keys == c + {s.Local()})
  }

  lemma TracksCommit(s: RoundState, r: RoundState, p: set<string>, c: set<string>, sender: string, hash: string)
    requires s.proposed.Some? && s.IsValidator()
    requires Tracks(s, r, p, c)
    ensures Tracks(s, CommitStep(r, sender, hash), p, c + NewCommit(s, CommitFrom(sender, hash)))
  {
    var c' := c + NewCommit(s, CommitFrom(sender, hash));
    StakeMonotone(c + {s.Local()}, c' + {s.Local()}, s.validators);
    if CountsCommit(r, sender, hash) {
      CommitKeepsInv(r, sender, hash);
      CountedCommit(r, sender, hash);
      assert r.commitVotes.Keys + {Lower(sender)} == if r.phase == Commit then c' + {s.Local()} else c';
    } else if r.phase == Commit {
      assert c' + {s.Local()} == c + {s.Local()};
    }
  }

  lemma CountedCommit(r: RoundState, sender: string, hash: string)
    requires RoundInv(r) && CountsCommit(r, sender, hash)
    ensures var r' := CommitStep(r, sender, hash);
            SameRound(r, r') && r'.prepareVotes == r.prepareVotes
            && r'.commitVotes.Keys == r.commitVotes.Keys + {Lower(sender)}
            && r'.phase == if r.phase == Commit && IsQuorum(r'.commitVotes.Keys, r.validators) then Finalized
                           else r.phase
  {
    var r' := CommitStep(r, sender, hash);
    assert forall id :: id in r'.commitVotes ==> r'.commitVotes[id] == hash;
    assert VotersFor(r'.commitVotes, hash) == r'.commitVotes.Keys;
  }

  lemma TracksPrepare(s: RoundState, r: RoundState, p: set<string>, c: set<string>, sender: string, hash: string)
    requires s.proposed.Some? && s.IsValidator()
    requires Tracks(s, r, p, c)
    ensures Tracks(s, PrepareStep(r, sender, hash), p + NewPrepare(s, PrepareFrom(sender, hash)), c)
  {
    PrepareKeepsInv(r, sender, hash);
    var p' := p + NewPrepare(s, PrepareFrom(sender, hash));
    StakeMonotone(p + {s.Local()}, p' + {s.Local()}, s.validators);
    if CountsPrepare(r, sender, hash) {
      assert p' + {s.Local()} == r.prepareVotes.Keys + {Lower(sender)};
      TracksEntry(s, r, p, c, sender);
    } else if r.phase == Prepare {
      assert p' + {s.Local()} == p + {s.Local()};
    }
  }

  /** The counted prepare vote of `TracksPrepare`. */
  lemma TracksEntry(s: RoundState, r: RoundState, p: set<string>, c: set<string>, sender: string)
    requires s.proposed.Some? && s.IsValidator()
    requires Tracks(s, r, p, c)
    requires CountsPrepare(r, sender, s.proposed.value.hash)
    ensures var r' := PrepareStep(r, sender, s.proposed.value.hash);
            r'.phase == PhaseFor(s, p + {Lower(sender)}, c)
            && r'.prepareVotes.Keys == p + {Lower(sender)} + {s.Local()}
            && (r'.phase == Prepare ==> r'.commitVotes.Keys == c)
            && (r'.phase == Commit ==> r'.commitVotes.Keys == c + {s.Local()})
  {
    var hash := s.proposed.value.hash;
    var s1 := r.(prepareVotes := r.prepareVotes[Lower(sender) := hash]);
    assert s1.prepareVotes.Keys == p + {Lower(sender)} + {s.Local()};
    assert Prepared(s, p + {Lower(sender)}) <==> IsQuorum(s1.prepareVotes.Keys, s.validators);
    var votes := r.commitVotes[s.Local() := hash];
    assert forall id :: id in votes ==> votes[id] == hash;
    assert VotersFor(votes, hash) == votes.Keys == c + {s.Local()};
  }

  /** For a validator the phase is a function of the two sets of delivered senders. */
  lemma {:induction false} PhaseOfSchedule(s: RoundState, votes: seq<Vote>)
    requires AfterProposal(s) && s.IsValidator()
    ensures Tracks(s, ApplyVotes(s, votes), Prepares(s, votes), Commits(s, votes))
  {
    if votes == [] {
      assert Prepares(s, votes) == {} && Commits(s, votes) == {};
      assert s.prepareVotes.Keys == {s.Local()};
    } else {
      var init, last := votes[..|votes| - 1], votes[|votes| - 1];
      PhaseOfSchedule(s, init);
      SendersOfLast(s, votes);
      var r := ApplyVotes(s, init);
      var p, c := Prepares(s, init), Commits(s, init);
      match last {
        case PrepareFrom(sender, hash) =>
          TracksPrepare(s, r, p, c, sender, hash);
          assert c + NewCommit(s, last) == c;
        case CommitFrom(sender, hash) =>
          TracksCommit(s, r, p, c, sender, hash);
          assert p + NewPrepare(s, last) == p;
      }
    }
  }

  /**
   * With a local stake below quorum: finalized exactly when both sender sets, joined with the local id, reach quorum.
   */
  lemma FinalizedExactly(s: RoundState, votes: seq<Vote>)
    requires AfterProposal(s) && s.IsValidator()
    requires !IsQuorum({s.Local()}, s.validators)
    ensures ApplyVotes(s, votes).phase == Finalized
            <==> IsQuorum(Prepares(s, votes) + {s.Local()}, s.validators)
                 && IsQuorum(Commits(s, votes) + {s.Local()}, s.validators)
  {
    PhaseOfSchedule(s, votes);
  }

  // ----- observers

  ghost predicate SameSenders(s: RoundState, votes1: seq<Vote>, votes2: seq<Vote>)
    requires s.proposed.Some?
  {
    Prepares(s, votes1) == Prepares(s, votes2) && Commits(s, votes1) == Commits(s, votes2)
  }

  /** Delivering the same valid votes in any order, with any repetitions and any invalid votes, gives the same phase. */
  ghost predicate Confluent(s: RoundState)
    requires s.proposed.Some?
  {
    forall votes1, votes2 :: SameSenders(s, votes1, votes2) ==>
      ApplyVotes(s, votes1).phase == ApplyVotes(s, votes2).phase
  }

  function AllPrepares(vs: seq<Validator>, hash: string): seq<Vote> {
    if vs == [] then [] else AllPrepares(vs[..|vs| - 1], hash) + [PrepareFrom(vs[|vs| - 1].id, hash)]
  }

  function AllCommits(vs: seq<Validator>, hash: string): seq<Vote> {
    if vs == [] then [] else AllCommits(vs[..|vs| - 1], hash) + [CommitFrom(vs[|vs| - 1].id, hash)]
  }

  lemma {:induction false} ApplyConcat(s: RoundState, a: seq<Vote>, b: seq<Vote>)
    ensures ApplyVotes(s, a + b) == ApplyVotes(ApplyVotes(s, a), b)
  {
    if b == [] {
      assert a + b == a;
    } else {
      var n := |b| - 1;
      assert (a + b)[..|a + b| - 1] == a + b[..n] && (a + b)[|a + b| - 1] == b[n];
      ApplyConcat(s, a, b[..n]);
    }
  }

  /** `r` is where the observer state `s` gets with prepare votes from `ids` and nothing else. */
  ghost predicate AfterPrepares(s: RoundState, r: RoundState, ids: set<string>) {
    SameRound(s, r) && RoundInv(r) && r.commitVotes == s.commitVotes
    && r.phase == (if IsQuorum(s.prepareVotes.Keys + ids, s.validators) then Commit else Prepare)
    && (r.phase == Prepare ==> r.prepareVotes.Keys == s.prepareVotes.Keys + ids)
  }

  lemma AnotherPrepare(s: RoundState, r: RoundState, ids: set<string>, sender: string)
    requires s.proposed.Some? && !s.IsValidator() && s.IsKnown(sender) && AfterPrepares(s, r, ids)
    ensures AfterPrepares(s, PrepareStep(r, sender, s.proposed.value.hash), ids + {Lower(sender)})
  {
    var hash, k := s.proposed.value.hash, s.prepareVotes.Keys;
    var ids' := ids + {Lower(sender)};
    PrepareKeepsInv(r, sender, hash);
    StakeMonotone(k + ids, k + ids', s.validators);
    if CountsPrepare(r, sender, hash) {
      assert r.prepareVotes[Lower(sender) := hash].Keys == k + ids';
    } else if r.phase == Prepare {
      assert k + ids' == k + ids;
    }
  }

  /** An observer that gets prepare votes only: it may enter the commit phase, and goes no further. */
  lemma {:induction false} ObserverPrepares(s: RoundState, vs: seq<Validator>)
    requires RoundInv(s) && s.phase == Prepare && !s.IsValidator()
    requires IdSet(vs) <= IdSet(s.validators) && !IsQuorum(s.prepareVotes.Keys, s.validators)
    ensures AfterPrepares(s, ApplyVotes(s, AllPrepares(vs, s.proposed.value.hash)), IdSet(vs))
  {
    if vs == [] {
      assert s.prepareVotes.Keys + IdSet(vs) == s.prepareVotes.Keys;
    } else {
      var hash, init, v := s.proposed.value.hash, vs[..|vs| - 1], vs[|vs| - 1];
      IdSetOfLast(vs);
      ObserverPrepares(s, init);
      AnotherPrepare(s, ApplyVotes(s, AllPrepares(init, hash)), IdSet(init), v.id);
      assert AllPrepares(vs, hash)[..|AllPrepares(vs, hash)| - 1] == AllPrepares(init, hash);
    }
  }

  lemma IdSetOfLast(vs: seq<Validator>)
    requires vs != []
    ensures IdSet(vs) == IdSet(vs[..|vs| - 1]) + {Lower(vs[|vs| - 1].id)}
  {
    assert vs == vs[..|vs| - 1] + [vs[|vs| - 1]];
    assert vs[|vs| - 1] in vs;
  }

  /** `r` is where `s` gets with commit votes from `ids` and nothing else. */
  ghost predicate AfterCommits(s: RoundState, r: RoundState, ids: set<string>) {
    SameRound(s, r) && RoundInv(r) && r.prepareVotes == s.prepareVotes
    && r.phase == (if s.phase == Commit && IsQuorum(s.commitVotes.Keys + ids, s.validators) then Finalized else s.phase)
    && (r.phase == s.phase ==> r.commitVotes.Keys == s.commitVotes.Keys + ids)
  }

  lemma AnotherCommit(s: RoundState, r: RoundState, ids: set<string>, sender: string)
    requires s.proposed.Some? && (s.phase == Prepare || s.phase == Commit) && s.IsKnown(sender)
             && AfterCommits(s, r, ids)
    ensures AfterCommits(s, CommitStep(r, sender, s.proposed.value.hash), ids + {Lower(sender)})
  {
    var hash, k := s.proposed.value.hash, s.commitVotes.Keys;
    var ids' := ids + {Lower(sender)};
    CommitKeepsInv(r, sender, hash);
    StakeMonotone(k + ids, k + ids', s.validators);
    if CountsCommit(r, sender, hash) {
      CountedCommit(r, sender, hash);
      assert r.commitVotes.Keys + {Lower(sender)} == k + ids';
    } else if r.phase == s.phase {
      assert k + ids' == k + ids;
    }
  }

  /** Commit votes alone: stored in the prepare phase without effect, counted to quorum in the commit phase. */
  lemma {:induction false} CommitsAlone(s: RoundState, vs: seq<Validator>)
    requires RoundInv(s) && (s.phase == Prepare || s.phase == Commit)
    requires IdSet(vs) <= IdSet(s.validators) && !IsQuorum(s.commitVotes.Keys, s.validators)
    ensures AfterCommits(s, ApplyVotes(s, AllCommits(vs, s.proposed.value.hash)), IdSet(vs))
  {
    if vs == [] {
      assert s.commitVotes.Keys + IdSet(vs) == s.commitVotes.Keys;
    } else {
      var hash, init, v := s.proposed.value.hash, vs[..|vs| - 1], vs[|vs| - 1];
      IdSetOfLast(vs);
      CommitsAlone(s, init);
      AnotherCommit(s, ApplyVotes(s, AllCommits(init, hash)), IdSet(init), v.id);
      assert AllCommits(vs, hash)[..|AllCommits(vs, hash)| - 1] == AllCommits(init, hash);
    }
  }

  /** While no set of validators reaches quorum, a round stays in the prepare phase. */
  lemma {:induction false} StaysInPrepare(s: RoundState, votes: seq<Vote>)
    requires RoundInv(s) && s.phase == Prepare
    requires !IsQuorum(IdSet(s.validators), s.validators)
    ensures ApplyVotes(s, votes).phase == Prepare && RoundInv(ApplyVotes(s, votes))
            && SameRound(s, ApplyVotes(s, votes))
  {
    if votes != [] {
      StaysInPrepare(s, votes[..|votes| - 1]);
      var r, v := ApplyVotes(s, votes[..|votes| - 1]), votes[|votes| - 1];
      match v {
        case PrepareFrom(sender, hash) =>
          PrepareKeepsInv(r, sender, hash);
          if CountsPrepare(r, sender, hash) {
            StakeMonotone(r.prepareVotes[Lower(sender) := hash].Keys, IdSet(s.validators), s.validators);
          }
        case CommitFrom(sender, hash) =>
          CommitKeepsInv(r, sender, hash);
      }
    }
  }

  lemma PreparesThenCommits(s: RoundState)
    requires AfterProposal(s) && !s.IsValidator() && IsQuorum(IdSet(s.validators), s.validators)
    ensures var hash := s.proposed.value.hash;
            ApplyVotes(s, AllPrepares(s.validators, hash) + AllCommits(s.validators, hash)).phase == Finalized
  {
    var hash, all := s.proposed.value.hash, IdSet(s.validators);
    var p, c := AllPrepares(s.validators, hash), AllCommits(s.validators, hash);
    EmptySetIsNoQuorum(s.validators);
    assert s.prepareVotes.Keys == {} == s.commitVotes.Keys && {} + all == all;
    ObserverPrepares(s, s.validators);
    CommitsAlone(ApplyVotes(s, p), s.validators);
    ApplyConcat(s, p, c);
  }

  lemma CommitsThenPrepares(s: RoundState)
    requires AfterProposal(s) && !s.IsValidator() && IsQuorum(IdSet(s.validators), s.validators)
    ensures var hash := s.proposed.value.hash;
            ApplyVotes(s, AllCommits(s.validators, hash) + AllPrepares(s.validators, hash)).phase == Commit
  {
    var hash, all := s.proposed.value.hash, IdSet(s.validators);
    var p, c := AllPrepares(s.validators, hash), AllCommits(s.validators, hash);
    EmptySetIsNoQuorum(s.validators);
    assert s.prepareVotes.Keys == {} == s.commitVotes.Keys && {} + all == all;
    CommitsAlone(s, s.validators);
    ObserverPrepares(ApplyVotes(s, c), s.validators);
    ApplyConcat(s, c, p);
  }

  lemma SwappedSenders(s: RoundState, a: seq<Vote>, b: seq<Vote>)
    requires s.proposed.Some?
    ensures SameSenders(s, a + b, b + a)
  {
    assert forall v :: v in a + b <==> v in b + a;
  }

  /** All prepares then all commits finalizes an observer's round; the other way round leaves it in the commit phase. */
  lemma ObserverOrderMatters(s: RoundState)
    requires AfterProposal(s) && !s.IsValidator() && IsQuorum(IdSet(s.validators), s.validators)
    ensures var hash := s.proposed.value.hash;
            var p, c := AllPrepares(s.validators, hash), AllCommits(s.validators, hash);
            SameSenders(s, p + c, c + p) && ApplyVotes(s, p + c).phase == Finalized
            && ApplyVotes(s, c + p).phase == Commit
  {
    PreparesThenCommits(s);
    CommitsThenPrepares(s);
    SwappedSenders(s, AllPrepares(s.validators, s.proposed.value.hash),
                   AllCommits(s.validators, s.proposed.value.hash));
  }

  /** A round is confluent exactly when the local node is a validator or no quorum can ever form. */
  lemma ConfluentExactly(s: RoundState)
    requires AfterProposal(s)
    ensures Confluent(s) <==> s.IsValidator() || !IsQuorum(IdSet(s.validators), s.validators)
  {
    if s.IsValidator() {
      forall votes1, votes2 | SameSenders(s, votes1, votes2)
        ensures ApplyVotes(s, votes1).phase == ApplyVotes(s, votes2).phase
      {
        PhaseOfSchedule(s, votes1);
        PhaseOfSchedule(s, votes2);
      }
    } else if IsQuorum(IdSet(s.validators), s.validators) {
      ObserverOrderMatters(s);
    } else {
      forall votes1, votes2 | SameSenders(s, votes1, votes2)
        ensures ApplyVotes(s, votes1).phase == ApplyVotes(s, votes2).phase
      {
        StaysInPrepare(s, votes1);
        StaysInPrepare(s, votes2);
      }
    }
  }
}
