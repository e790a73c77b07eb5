/** One three-phase voting round at a fixed block height. */
module Round {
  import opened Options
  import opened Sets
  import opened Text
  import opened Quorum

  datatype Phase = Propose | Prepare | Commit | Finalized | Failed

  datatype MessageKind = ProposeMsg | PrepareMsg | CommitMsg

  datatype BftMessage = BftMessage(kind: MessageKind, height: int, blockHash: string, senderId: string,
                                   signature: string)

  datatype Block = Block(number: int, hash: string, proposer: string)

  /** The vote maps go from lower-cased validator id to block hash. */
  datatype RoundState = RoundState(
    height: int,
    validators: seq<Validator>,
    localId: string,
    phase: Phase,
    proposed: Option<Block>,
    prepareVotes: map<string, string>,
    commitVotes: map<string, string>)
  {
    predicate IsKnown(id: string) { Lower(id) in IdSet(validators) }

    predicate IsValidator() { IsKnown(localId) }

    function Local(): string { Lower(localId) }
  }

  function NewRound(height: int, validators: seq<Validator>, localId: string): RoundState {
    RoundState(height, validators, localId, Propose, None, map[], map[])
  }

  function VotersFor(votes: map<string, string>, hash: string): set<string> {
    set id | id in votes && votes[id] == hash
  }

  function ProposeStep(s: RoundState, block: Block, senderId: string): RoundState {
    if s.phase != Propose || block.number != s.height || !s.IsKnown(senderId)
       || Lower(block.proposer) != Lower(senderId)
    then s
    else
      s.(proposed := Some(block),
         phase := Prepare,
         prepareVotes := if s.IsValidator() then s.prepareVotes[s.Local() := block.hash] else s.prepareVotes)
  }

  /** The vote is stored in the prepare phase only, for the proposed hash, once per validator. */
  predicate CountsPrepare(s: RoundState, senderId: string, blockHash: string) {
    s.phase == Prepare && s.proposed.Some? && s.IsKnown(senderId)
    && blockHash == s.proposed.value.hash && Lower(senderId) !in s.prepareVotes
  }

  /** Prepare quorum: a validator adds its own commit vote; commits that came early may already make a quorum. */
  function EnterCommit(s: RoundState, blockHash: string): RoundState {
    if !s.IsValidator() then s.(phase := Commit)
    else
      var votes := s.commitVotes[s.Local() := blockHash];
      s.(phase := if IsQuorum(VotersFor(votes, blockHash), s.validators) then Finalized else Commit,
         commitVotes := votes)
  }

  function PrepareStep(s: RoundState, senderId: string, blockHash: string): RoundState {
    if !CountsPrepare(s, senderId, blockHash) then s
    else
      var s1 := s.(prepareVotes := s.prepareVotes[Lower(senderId) := blockHash]);
      if IsQuorum(s1.prepareVotes.Keys, s.validators) then EnterCommit(s1, blockHash) else s1
  }

  predicate CountsCommit(s: RoundState, senderId: string, blockHash: string) {
    (s.phase == Commit || s.phase == Prepare) && s.IsKnown(senderId) && s.proposed.Some?
    && blockHash == s.proposed.value.hash && Lower(senderId) !in s.commitVotes
  }

  function CommitStep(s: RoundState, senderId: string, blockHash: string): RoundState {
    if !CountsCommit(s, senderId, blockHash) then s
    else
      var s1 := s.(commitVotes := s.commitVotes[Lower(senderId) := blockHash]);
      if s.phase == Commit && IsQuorum(VotersFor(s1.commitVotes, blockHash), s.validators)
      then s1.(phase := Finalized) else s1
  }

  /** Votes are stored under lower-cased ids. */
  ghost predicate Lowered(votes: map<string, string>) { forall id :: id in votes ==> Lower(id) == id }

  method VoterList(ids: set<string>) returns (voters: seq<string>)
    requires forall id :: id in ids ==> Lower(id) == id
    ensures DistinctLowered(voters) && LoweredIds(voters) == ids
  {
    voters := [];
    var rest := ids;
    while rest != {}
      invariant rest <= ids && (forall id :: id in ids <==> id in rest || id in voters)
      invariant DistinctLowered(voters) && forall id :: id in voters ==> id !in rest
      decreases rest
    {
      var id := PickOne(rest);
      voters, rest := voters + [id], rest - {id};
    }
  }

  // ----- the round object

  class BftRound {
    const height: int
    const validators: seq<Validator>
    const localId: string
    var phase: Phase
    var proposedBlock: Option<Block>
    var prepareVotes: map<string, string>
    var commitVotes: map<string, string>

    function State(): RoundState
      reads this
    {
      RoundState(height, validators, localId, phase, proposedBlock, prepareVotes, commitVotes)
    }

    ghost predicate Valid()
      reads this
    {
      Lowered(prepareVotes) && Lowered(commitVotes)
    }

    constructor (height: int, validators: seq<Validator>, localId: string)
      ensures Valid() && State() == NewRound(height, validators, localId)
    {
      this.height, this.validators, this.localId := height, validators, localId;
      phase, proposedBlock, prepareVotes, commitVotes := Propose, None, map[], map[];
    }

    method HandlePropose(block: Block, senderId: string) returns (outgoing: seq<BftMessage>)
      requires Valid()
      modifies this
      ensures Valid() && State() == ProposeStep(old(State()), block, senderId)
      ensures outgoing == if old(phase) == Propose && phase == Prepare && State().IsValidator()
                          then [BftMessage(PrepareMsg, height, block.hash, localId, "")] else []
    {
      outgoing := [];
      if phase != Propose { return; }
      if block.number != height { return; }
      if !State().IsKnown(senderId) { return; }
      if Lower(block.proposer) != Lower(senderId) { return; }
      LowerIdempotent(localId);
      proposedBlock := Some(block);
      phase := Prepare;
      if State().IsValidator() {
        prepareVotes := prepareVotes[Lower(localId) := block.hash];
        outgoing := [BftMessage(PrepareMsg, height, block.hash, localId, "")];
      }
    }

    method HandlePrepare(senderId: string, blockHash: string) returns (outgoing: seq<BftMessage>)
      requires Valid()
      modifies this
      ensures Valid() && State() == PrepareStep(old(State()), senderId, blockHash)
      ensures outgoing == if old(phase) == Prepare && phase == Commit && State().IsValidator()
                          then [BftMessage(CommitMsg, height, blockHash, localId, "")] else []
    {
      outgoing := [];
      if phase != Prepare { return; }
      if proposedBlock.None? { return; }
      if !State().IsKnown(senderId) { return; }
      if blockHash != proposedBlock.value.hash { return; }
      if Lower(senderId) in prepareVotes { return; }
      LowerIdempotent(senderId);
      LowerIdempotent(localId);
      prepareVotes := prepareVotes[Lower(senderId) := blockHash];
      var quorum := ReachesQuorum(prepareVotes.Keys);
      if quorum {
        phase := Commit;
        if State().IsValidator() {
          commitVotes := commitVotes[Lower(localId) := blockHash];
          quorum := ReachesQuorum(VotersFor(commitVotes, proposedBlock.value.hash));
          if quorum {
            phase := Finalized;
            return;
          }
          outgoing := [BftMessage(CommitMsg, height, blockHash, localId, "")];
        }
      }
    }

    method HandleCommit(senderId: string, blockHash: string) returns (finalized: bool)
      requires Valid()
      modifies this
      ensures Valid() && State() == CommitStep(old(State()), senderId, blockHash)
      ensures finalized <==> old(phase) == Commit && phase == Finalized
    {
      finalized := false;
      if phase != Commit && phase != Prepare { return; }
      if !State().IsKnown(senderId) { return; }
      if proposedBlock.None? { return; }
      if blockHash != proposedBlock.value.hash { return; }
      if Lower(senderId) in commitVotes { return; }
      LowerIdempotent(senderId);
      commitVotes := commitVotes[Lower(senderId) := blockHash];
      if phase == Commit {
        finalized := ReachesQuorum(VotersFor(commitVotes, proposedBlock.value.hash));
        if finalized { phase := Finalized; }
      }
    }

    /** The voters are listed in some order and their stake is summed up along the list. */
    method ReachesQuorum(ids: set<string>) returns (r: bool)
      requires forall id :: id in ids ==> Lower(id) == id
      ensures r <==> IsQuorum(ids, validators)
    {
      var voters := VoterList(ids);
      AccumulatedIsStakeOf(voters, validators);
      return HasQuorum(voters, validators);
    }

    method Fail()
      requires Valid()
      modifies this
      ensures Valid() && State() == old(State()).(phase := Failed)
    {
      phase := Failed;
    }
  }

  // ----- what every step of a round keeps

  ghost predicate SameRound(s: RoundState, r: RoundState) {
    r.height == s.height && r.validators == s.validators && r.localId == s.localId && r.proposed == s.proposed
  }

  /** Every stored vote is by a known validator and for the proposed hash; a round past the prepare phase
      has a prepare quorum with a remote vote in it, and a finalized one a commit quorum besides. */
  ghost predicate RoundInv(s: RoundState) {
    && s.prepareVotes.Keys <= IdSet(s.validators)
    && s.commitVotes.Keys <= IdSet(s.validators)
    && (s.proposed.None? ==> s.phase == Propose || s.phase == Failed)
    && (s.proposed.None? ==> s.prepareVotes == map[] && s.commitVotes == map[])
    && (s.proposed.Some? ==> s.phase != Propose && s.proposed.value.number == s.height)
    && (s.proposed.Some? ==> forall id :: id in s.prepareVotes ==> s.prepareVotes[id] == s.proposed.value.hash)
    && (s.proposed.Some? ==> forall id :: id in s.commitVotes ==> s.commitVotes[id] == s.proposed.value.hash)
    && (s.proposed.Some? && s.IsValidator() ==> s.Local() in s.prepareVotes)
    && (s.phase == Commit || s.phase == Finalized ==> IsQuorum(s.prepareVotes.Keys, s.validators))
    && (s.phase == Commit || s.phase == Finalized ==> !(s.prepareVotes.Keys <= {s.Local()}))
    && (s.phase == Finalized ==> IsQuorum(s.commitVotes.Keys, s.validators))
  }

  lemma ProposeKeepsInv(s: RoundState, block: Block, senderId: string)
    requires RoundInv(s)
    ensures RoundInv(ProposeStep(s, block, senderId))
  {
  }

  lemma EnterCommitKeepsInv(s: RoundState)
    requires RoundInv(s) && s.phase == Prepare
    requires IsQuorum(s.prepareVotes.Keys, s.validators) && !(s.prepareVotes.Keys <= {s.Local()})
    ensures RoundInv(EnterCommit(s, s.proposed.value.hash))
  {
    var hash := s.proposed.value.hash;
    var votes := s.commitVotes[s.Local() := hash];
    assert forall id :: id in votes ==> votes[id] == hash;
    assert VotersFor(votes, hash) == votes.Keys;
  }

  lemma PrepareKeepsInv(s: RoundState, senderId: string, hash: string)
    requires RoundInv(s)
    ensures RoundInv(PrepareStep(s, senderId, hash))
  {
    if CountsPrepare(s, senderId, hash) {
      var s1 := s.(prepareVotes := s.prepareVotes[Lower(senderId) := hash]);
      assert RoundInv(s1);
      assert Lower(senderId) != s.Local() && Lower(senderId) in s1.prepareVotes.Keys;
      if IsQuorum(s1.prepareVotes.Keys, s.validators) {
        EnterCommitKeepsInv(s1);
      }
    }
  }

  lemma CommitKeepsInv(s: RoundState, senderId: string, hash: string)
    requires RoundInv(s)
    ensures RoundInv(CommitStep(s, senderId, hash))
  {
    var c := CommitStep(s, senderId, hash);
    if CountsCommit(s, senderId, hash) {
      assert forall id :: id in c.commitVotes ==> c.commitVotes[id] == hash;
      assert VotersFor(c.commitVotes, hash) == c.commitVotes.Keys;
    }
  }
}
