/**
 * The proposer guard of the consensus engine: one tick of `tryPropose`, cut into the
 * pieces that run between two awaits, interleaved with the chain's own progress.
 */
module Proposer {
  import opened Options

  datatype Config = Config(sequencerMode: bool, bft: bool)

  datatype Block = Block(number: nat, hash: string, txs: seq<string>)

  /** Where the tick in flight is waiting. */
  datatype Wait =
    | Idle
    | ForHeight
    | Guarding(height: nat)
    | Proposing
    | Building(number: nat)
    | Gossiping(block: Block, again: bool)
    | Starting(block: Block, again: bool)
    | InRound

  datatype State = State(
    chainHeight: nat,
    proposeInFlight: bool,
    lastProposedHeight: Option<nat>,
    lastProposedBlock: Option<Block>,
    wait: Wait,
    /** Every block handed to gossip, to the wire or to a BFT round, oldest first. */
    sent: seq<Block>,
    /** Every freshly built proposal, oldest first. */
    proposed: seq<Block>)

  datatype Event =
    | ChainAt(height: nat)
    | Tick(syncing: bool, degraded: bool, roundActive: bool)
    | HeightRead
    | Guard(roundActive: bool)
    | ParentRead
    | Built(block: Block)
    | NoBlock
    | Gossiped(wire: bool)
    | RoundStarted
    | TickDone

  function Start(height: nat): State { State(height, false, None, None, Idle, [], []) }

  function EndTick(s: State): State { s.(proposeInFlight := false, wait := Idle) }

  function Gossip(s: State, b: Block, again: bool): State {
    s.(sent := s.sent + [b], wait := Gossiping(b, again))
  }

  function TickStep(cfg: Config, s: State, syncing: bool, degraded: bool, roundActive: bool): State {
    if s.proposeInFlight then s
    else if !cfg.sequencerMode && (syncing || degraded || (cfg.bft && roundActive)) then s
    else s.(proposeInFlight := true,
            wait := if cfg.bft && s.lastProposedHeight.Some? then ForHeight else Proposing)
  }

  function GuardStep(s: State, height: nat, roundActive: bool): State {
    if s.lastProposedHeight.Some? && height < s.lastProposedHeight.value then
      if roundActive || s.lastProposedBlock.None? then EndTick(s)
      else Gossip(s, s.lastProposedBlock.value, true)
    else
      s.(lastProposedBlock := None, wait := Proposing)
  }

  function BuiltStep(cfg: Config, s: State, b: Block): State {
    var t := if cfg.bft then s.(lastProposedHeight := Some(b.number), lastProposedBlock := Some(b)) else s;
    Gossip(t.(proposed := t.proposed + [b]), b, false)
  }

  /** The repeated proposal is read again from the cache; a fresh one is still at hand. */
  function RoundOn(cfg: Config, s: State, b: Block, again: bool): seq<Block> {
    if !cfg.bft then []
    else if !again then [b]
    else if s.lastProposedBlock.Some? then [s.lastProposedBlock.value]
    else []
  }

  /** One event; an event the tick in flight is not waiting for changes nothing. */
  function Step(cfg: Config, s: State, e: Event): State {
    match (e, s.wait)
    case (ChainAt(h), _) => s.(chainHeight := h)
    case (Tick(syncing, degraded, active), _) => TickStep(cfg, s, syncing, degraded, active)
    case (HeightRead, ForHeight) => s.(wait := Guarding(s.chainHeight))
    case (Guard(active), Guarding(h)) => GuardStep(s, h, active)
    case (ParentRead, Proposing) => s.(wait := Building(s.chainHeight + 1))
    case (Built(b), Building(n)) => if b.number == n then BuiltStep(cfg, s, b) else s
    case (NoBlock, ForHeight) => EndTick(s)
    case (NoBlock, Proposing) => EndTick(s)
    case (NoBlock, Building(_)) => EndTick(s)
    case (Gossiped(wire), Gossiping(b, again)) =>
      s.(sent := s.sent + (if wire then [b] else []), wait := Starting(b, again))
    case (RoundStarted, Starting(b, again)) => s.(sent := s.sent + RoundOn(cfg, s, b, again), wait := InRound)
    case (TickDone, InRound) => EndTick(s)
    case _ => s
  }

  function Run(cfg: Config, height: nat, events: seq<Event>): State {
    if events == [] then Start(height)
    else Step(cfg, Run(cfg, height, events[..|events| - 1]), events[|events| - 1])
  }

  /** The chain heights of a run, the initial one first. */
  function Heights(height: nat, events: seq<Event>): (hs: seq<nat>)
    ensures hs != [] && hs[0] == height
  {
    if events == [] then [height]
    else
      var e := events[|events| - 1];
      Heights(height, events[..|events| - 1]) + (if e.ChainAt? then [e.height] else [])
  }

  // ----- what a tick sends

  /** The state after the events, from any state on. */
  function After(cfg: Config, s: State, events: seq<Event>): State
    decreases |events|
  {
    if events == [] then s else After(cfg, Step(cfg, s, events[0]), events[1..])
  }

  /** A tick starts unless one is in flight, or, outside sequencer mode, the node is not ready or in a round. */
  lemma TickStarts(cfg: Config, s: State, syncing: bool, degraded: bool, roundActive: bool)
    ensures var s' := Step(cfg, s, Tick(syncing, degraded, roundActive));
            if s.proposeInFlight then s' == s
            else if !cfg.sequencerMode && (syncing || degraded || (cfg.bft && roundActive)) then s' == s
            else s' == s.(proposeInFlight := true, wait := s'.wait)
                 && if cfg.bft && s.lastProposedHeight.Some? then s'.wait == ForHeight else s'.wait == Proposing
  {
  }

  /** The block goes to gossip, to the wire if there is one, and to a BFT round if there are any. */
  function Sendings(cfg: Config, b: Block, wire: bool): seq<Block> {
    [b] + (if wire then [b] else []) + (if cfg.bft then [b] else [])
  }

  lemma SendBlock(cfg: Config, s: State, b: Block, again: bool, wire: bool)
    requires s.wait == Gossiping(b, again) && (cfg.bft ==> s.lastProposedBlock == Some(b))
    ensures After(cfg, s, [Gossiped(wire), RoundStarted, TickDone])
            == s.(sent := s.sent + (if wire then [b] else []) + (if cfg.bft then [b] else []),
                  wait := Idle, proposeInFlight := false)
  {
    var s1 := Step(cfg, s, Gossiped(wire));
    var s2 := Step(cfg, s1, RoundStarted);
    var events := [Gossiped(wire), RoundStarted, TickDone];
    assert events[1..] == [RoundStarted, TickDone] && events[1..][1..] == [TickDone] && events[1..][1..][1..] == [];
    assert After(cfg, s2, [TickDone]) == Step(cfg, s2, TickDone);
  }

  /** A fresh proposal is cached if there are BFT rounds, and sent. */
  lemma FreshProposal(cfg: Config, s: State, b: Block, wire: bool)
    requires s.wait == Building(b.number)
    ensures var s' := After(cfg, Step(cfg, s, Built(b)), [Gossiped(wire), RoundStarted, TickDone]);
            s'.sent == s.sent + Sendings(cfg, b, wire) && s'.proposed == s.proposed + [b] && s'.wait == Idle
            && !s'.proposeInFlight
            && (cfg.bft ==> s'.lastProposedHeight == Some(b.number) && s'.lastProposedBlock == Some(b))
  {
    var s1 := Step(cfg, s, Built(b));
    SendBlock(cfg, s1, b, false, wire);
    assert s.sent + [b] + (if wire then [b] else []) + (if cfg.bft then [b] else [])
           == s.sent + Sendings(cfg, b, wire);
  }

  /** Below the height last proposed the cached block is sent again, and nothing is built, unless a round is active. */
  lemma RepeatedProposal(cfg: Config, s: State, height: nat, last: nat, b: Block, wire: bool)
    requires cfg.bft && s.wait == Guarding(height) && s.lastProposedHeight == Some(last) && height < last
    requires s.lastProposedBlock == Some(b)
    ensures var s' := After(cfg, Step(cfg, s, Guard(false)), [Gossiped(wire), RoundStarted, TickDone]);
            s' == s.(sent := s.sent + Sendings(cfg, b, wire), wait := Idle, proposeInFlight := false)
    ensures Step(cfg, s, Guard(true)) == s.(wait := Idle, proposeInFlight := false)
  {
    var s1 := Step(cfg, s, Guard(false));
    SendBlock(cfg, s1, b, true, wire);
    assert s.sent + [b] + (if wire then [b] else []) + (if cfg.bft then [b] else [])
           == s.sent + Sendings(cfg, b, wire);
  }

  /** At or above it the tick goes on to build on the chain as it is then, and forgets the cached block. */
  lemma GuardPassed(cfg: Config, s: State, height: nat, roundActive: bool)
    requires s.wait == Guarding(height) && (s.lastProposedHeight.Some? ==> height >= s.lastProposedHeight.value)
    ensures Step(cfg, Step(cfg, s, Guard(roundActive)), ParentRead)
            == s.(lastProposedBlock := None, wait := Building(s.chainHeight + 1))
  {
  }

  // ----- the class

  class ConsensusEngine {
    const cfg: Config
    var chainHeight: nat
    var proposeInFlight: bool
    var lastProposedHeight: Option<nat>
    var lastProposedBlock: Option<Block>
    var wait: Wait
    ghost var sent: seq<Block>
    ghost var proposed: seq<Block>

    ghost function Now(): State
      reads this
    {
      State(chainHeight, proposeInFlight, lastProposedHeight, lastProposedBlock, wait, sent, proposed)
    }

    constructor (cfg: Config, height: nat)
      ensures this.cfg == cfg && Now() == Start(height)
    {
      this.cfg := cfg;
      chainHeight, proposeInFlight, lastProposedHeight, lastProposedBlock := height, false, None, None;
      wait, sent, proposed := Idle, [], [];
    }

    method TryPropose(syncing: bool, degraded: bool, roundActive: bool)
      modifies this
      ensures Now() == Step(cfg, old(Now()), Tick(syncing, degraded, roundActive))
    {
      if proposeInFlight { return; }
      if !cfg.sequencerMode {
        if syncing { return; }
        if degraded { return; }
        if cfg.bft && roundActive { return; }
      }
      proposeInFlight := true;
      if cfg.bft && lastProposedHeight != None { wait := ForHeight; } else { wait := Proposing; }
    }

    method Broadcast(block: Block, again: bool)
      modifies this`wait, this`sent
      ensures Now() == Gossip(old(Now()), block, again)
    {
      sent := sent + [block];
      wait := Gossiping(block, again);
    }

    method AfterHeight(roundActive: bool)
      requires wait.Guarding?
      modifies this
      ensures Now() == Step(cfg, old(Now()), Guard(roundActive))
    {
      var currentHeight := wait.height;
      if lastProposedHeight.Some? && currentHeight < lastProposedHeight.value {
        if roundActive {
          proposeInFlight, wait := false, Idle;
          return;
        }
        if lastProposedBlock.Some? {
          Broadcast(lastProposedBlock.value, true);
        } else {
          proposeInFlight, wait := false, Idle;
        }
        return;
      }
      lastProposedBlock := None;
      wait := Proposing;
    }

    method AfterBuild(block: Block)
      requires wait.Building? && block.number == wait.number
      modifies this
      ensures Now() == Step(cfg, old(Now()), Built(block))
    {
      proposed := proposed + [block];
      if cfg.bft {
        lastProposedHeight := Some(block.number);
        lastProposedBlock := Some(block);
      }
      Broadcast(block, false);
    }

    method AfterGossip(wire: bool)
      requires wait.Gossiping?
      modifies this
      ensures Now() == Step(cfg, old(Now()), Gossiped(wire))
    {
      if wire { sent := sent + [wait.block]; }
      wait := Starting(wait.block, wait.again);
    }

    method StartRound()
      requires wait.Starting?
      modifies this
      ensures Now() == Step(cfg, old(Now()), RoundStarted)
    {
      if wait.again {
        if cfg.bft && lastProposedBlock.Some? { sent := sent + [lastProposedBlock.value]; }
      } else if cfg.bft {
        sent := sent + [wait.block];
      }
      wait := InRound;
    }
  }

  // ----- what happened to the chain's height

  /** The chain went up from the height at `i` to the one at `j`. */
  predicate Up(hs: seq<nat>, i: int, j: int) { 0 <= i < j < |hs| && hs[i] < hs[j] }

  /** The chain went up from the height at `i` to the one at `j`, and then or later was at the one at `k`. */
  predicate UpThen(hs: seq<nat>, i: int, j: int, k: int) { Up(hs, i, j) && j <= k < |hs| }

  /** The chain was at `x` and later above it. */
  ghost predicate Passed(hs: seq<nat>, x: int) { exists i, j :: Up(hs, i, j) && hs[i] == x }

  /** The chain was at `x`, and then or later at `y`. */
  ghost predicate Followed(hs: seq<nat>, x: int, y: int) {
    exists i, j :: 0 <= i <= j < |hs| && hs[i] == x && hs[j] == y
  }

  /** The chain was at `x`, later above it, and then or later at `y`. */
  ghost predicate Returned(hs: seq<nat>, x: int, y: int) {
    exists i, j, k :: UpThen(hs, i, j, k) && hs[i] == x && hs[k] == y
  }

  /** The chain came back to a height that it had left upward. */
  ghost predicate Revisits(hs: seq<nat>) { exists i, j, k :: UpThen(hs, i, j, k) && hs[k] == hs[i] }

  /** The chain came back to a height that it had left upward, or fell below it. */
  ghost predicate Relapses(hs: seq<nat>) { exists i, j, k :: UpThen(hs, i, j, k) && hs[k] <= hs[i] }

  ghost predicate NeverShrinks(hs: seq<nat>) { forall i, j :: 0 <= i < j < |hs| ==> hs[i] <= hs[j] }

  lemma PassedGrows(hs: seq<nat>, h: nat, x: int)
    requires Passed(hs, x)
    ensures Passed(hs + [h], x)
  {
    var i, j :| Up(hs, i, j) && hs[i] == x;
    assert Up(hs + [h], i, j);
  }

  lemma FollowedGrows(hs: seq<nat>, h: nat, x: int, y: int)
    requires Followed(hs, x, y)
    ensures Followed(hs + [h], x, y) && Followed(hs + [h], x, h)
  {
    var i, j :| 0 <= i <= j < |hs| && hs[i] == x && hs[j] == y;
    var more := hs + [h];
    assert more[i] == x && more[j] == y && more[|hs|] == h;
  }

  lemma ReturnedGrows(hs: seq<nat>, h: nat, x: int, y: int)
    requires Returned(hs, x, y)
    ensures Returned(hs + [h], x, y)
  {
    var i, j, k :| UpThen(hs, i, j, k) && hs[i] == x && hs[k] == y;
    assert UpThen(hs + [h], i, j, k);
  }

  lemma RevisitsGrows(hs: seq<nat>, h: nat)
    ensures Revisits(hs) ==> Revisits(hs + [h])
    ensures Relapses(hs) ==> Relapses(hs + [h])
  {
    if i, j, k :| UpThen(hs, i, j, k) && hs[k] == hs[i] {
      assert UpThen(hs + [h], i, j, k);
    }
    if i, j, k :| UpThen(hs, i, j, k) && hs[k] <= hs[i] {
      assert UpThen(hs + [h], i, j, k);
    }
  }

  lemma ReturnedNow(hs: seq<nat>, x: int)
    requires hs != [] && Passed(hs, x)
    ensures Returned(hs, x, hs[|hs| - 1])
  {
    var i, j :| Up(hs, i, j) && hs[i] == x;
    assert UpThen(hs, i, j, |hs| - 1);
  }

  lemma FollowedUp(hs: seq<nat>, x: int, y: int)
    requires Followed(hs, x, y) && y > x
    ensures Passed(hs, x)
  {
    var i, j :| 0 <= i <= j < |hs| && hs[i] == x && hs[j] == y;
    assert Up(hs, i, j);
  }

  lemma SteadyChain(hs: seq<nat>)
    requires NeverShrinks(hs)
    ensures !Revisits(hs) && !Relapses(hs)
  {
  }

  // ----- what every reachable state keeps

  ghost predicate OnePerHeight(sent: seq<Block>) {
    forall b, c :: b in sent && c in sent && b.number == c.number ==> b == c
  }

  ghost predicate Ascending(proposed: seq<Block>) {
    forall i, j :: 0 <= i < j < |proposed| ==> proposed[i].number < proposed[j].number
  }

  /** A proposal that is no longer cached was overtaken by the chain. */
  ghost predicate Overtaken(hs: seq<nat>, s: State) {
    forall b :: b in s.proposed ==> s.lastProposedBlock == Some(b) || Passed(hs, b.number - 1)
  }

  /** The last proposal is the one remembered, and only proposals are sent. */
  ghost predicate Remembered(hs: seq<nat>, s: State) {
    && hs != [] && s.chainHeight == hs[|hs| - 1]
    && (s.lastProposedHeight == if s.proposed == [] then None else Some(s.proposed[|s.proposed| - 1].number))
    && (forall b :: b in s.sent ==> b in s.proposed)
    && (s.lastProposedBlock.Some? ==>
          s.proposed != [] && s.lastProposedBlock.value == s.proposed[|s.proposed| - 1]
          && Followed(hs, s.lastProposedBlock.value.number - 1, s.chainHeight))
  }

  ghost predicate WaitInv(hs: seq<nat>, s: State) {
    match s.wait
    case ForHeight => s.lastProposedHeight.Some?
    case Guarding(g) =>
      s.lastProposedHeight.Some?
      && (s.lastProposedBlock.Some? ==> Followed(hs, s.lastProposedBlock.value.number - 1, g))
    case Proposing => s.lastProposedBlock == None
    case Building(n) =>
      s.lastProposedBlock == None && Followed(hs, n - 1, s.chainHeight)
      && forall b :: b in s.proposed ==> Returned(hs, b.number - 1, n - 1)
    case Gossiping(b, _) => s.lastProposedBlock == Some(b)
    case Starting(b, _) => s.lastProposedBlock == Some(b)
    case _ => true
  }

  ghost predicate Inv(hs: seq<nat>, s: State) {
    && (s.proposeInFlight <==> s.wait != Idle)
    && Remembered(hs, s) && Overtaken(hs, s) && WaitInv(hs, s)
    && (Revisits(hs) || OnePerHeight(s.proposed))
    && (Relapses(hs) || Ascending(s.proposed))
  }

  lemma MoveKeepsInv(hs: seq<nat>, s: State, h: nat)
    requires Inv(hs, s)
    ensures Inv(hs + [h], s.(chainHeight := h))
  {
    var t := s.(chainHeight := h);
    RevisitsGrows(hs, h);
    forall b | b in s.proposed && s.lastProposedBlock != Some(b) ensures Passed(hs + [h], b.number - 1) {
      PassedGrows(hs, h, b.number - 1);
    }
    if s.lastProposedBlock.Some? {
      var x := s.lastProposedBlock.value.number - 1;
      FollowedGrows(hs, h, x, s.chainHeight);
    }
    MoveKeepsWait(hs, s, h);
  }

  lemma MoveKeepsWait(hs: seq<nat>, s: State, h: nat)
    requires hs != [] && WaitInv(hs, s)
    ensures WaitInv(hs + [h], s.(chainHeight := h))
  {
    if s.wait.Guarding? && s.lastProposedBlock.Some? {
      FollowedGrows(hs, h, s.lastProposedBlock.value.number - 1, s.wait.height);
    }
    if s.wait.Building? {
      var x := s.wait.number - 1;
      FollowedGrows(hs, h, x, s.chainHeight);
      forall b | b in s.proposed ensures Returned(hs + [h], b.number - 1, x) {
        ReturnedGrows(hs, h, b.number - 1, x);
      }
    }
  }

  /** A guard that passes has seen the chain above the parent of the last proposal. */
  lemma GuardKeepsInv(hs: seq<nat>, s: State, roundActive: bool)
    requires Inv(hs, s) && s.wait.Guarding?
    ensures Inv(hs, GuardStep(s, s.wait.height, roundActive))
  {
    if s.lastProposedBlock.Some? && s.wait.height >= s.lastProposedHeight.value {
      FollowedUp(hs, s.lastProposedBlock.value.number - 1, s.wait.height);
    }
  }

  lemma ParentReadKeepsInv(hs: seq<nat>, s: State)
    requires Inv(hs, s) && s.wait.Proposing?
    ensures Inv(hs, s.(wait := Building(s.chainHeight + 1)))
  {
    assert hs[|hs| - 1] == s.chainHeight;
    assert Followed(hs, s.chainHeight, s.chainHeight);
    forall b | b in s.proposed ensures Returned(hs, b.number - 1, s.chainHeight) {
      ReturnedNow(hs, b.number - 1);
    }
  }

  /** A proposal that the chain passed before it came to the parent of number `n`. */
  lemma EarlierNumber(hs: seq<nat>, m: int, n: int)
    requires Returned(hs, m - 1, n - 1)
    ensures Passed(hs, m - 1) && (m == n ==> Revisits(hs)) && (m >= n ==> Relapses(hs))
  {
    var i, j, k :| UpThen(hs, i, j, k) && hs[i] == m - 1 && hs[k] == n - 1;
    assert Up(hs, i, j);
  }

  lemma AppendedNumber(proposed: seq<Block>, b: Block)
    ensures OnePerHeight(proposed) && (forall c :: c in proposed ==> c.number != b.number) ==>
            OnePerHeight(proposed + [b])
    ensures Ascending(proposed) && (forall c :: c in proposed ==> c.number < b.number) ==> Ascending(proposed + [b])
  {
    if Ascending(proposed) && forall c :: c in proposed ==> c.number < b.number {
      forall i | 0 <= i < |proposed| ensures proposed[i].number < b.number {
        assert proposed[i] in proposed;
      }
    }
  }

  lemma BuiltRemembered(cfg: Config, hs: seq<nat>, s: State, b: Block)
    requires cfg.bft && Remembered(hs, s) && WaitInv(hs, s) && s.wait == Building(b.number)
    ensures Remembered(hs, BuiltStep(cfg, s, b)) && WaitInv(hs, BuiltStep(cfg, s, b))
  {
  }

  lemma BuiltKeepsInv(cfg: Config, hs: seq<nat>, s: State, b: Block)
    requires cfg.bft && Inv(hs, s) && s.wait == Building(b.number)
    ensures Inv(hs, BuiltStep(cfg, s, b))
  {
    forall c | c in s.proposed
      ensures Passed(hs, c.number - 1) && (c.number == b.number ==> Revisits(hs))
              && (c.number >= b.number ==> Relapses(hs))
    {
      EarlierNumber(hs, c.number, b.number);
    }
    BuiltRemembered(cfg, hs, s, b);
    AppendedNumber(s.proposed, b);
  }

  lemma SendKeepsInv(cfg: Config, hs: seq<nat>, s: State, e: Event)
    requires cfg.bft && Inv(hs, s) && (e.Gossiped? || e.RoundStarted?)
    ensures Inv(hs, Step(cfg, s, e))
  {
    if s.wait.Gossiping? || s.wait.Starting? {
      assert s.wait.block in s.proposed;
    }
  }

  lemma TickKeepsInv(cfg: Config, hs: seq<nat>, s: State, e: Event)
    requires cfg.bft && Inv(hs, s) && e.Tick?
    ensures Inv(hs, Step(cfg, s, e))
  {
  }

  lemma StepKeepsInv(cfg: Config, hs: seq<nat>, s: State, e: Event)
    requires cfg.bft && Inv(hs, s)
    ensures Inv(hs + (if e.ChainAt? then [e.height] else []), Step(cfg, s, e))
  {
    assert hs + [] == hs;
    match (e, s.wait)
    case (ChainAt(h), _) => MoveKeepsInv(hs, s, h);
    case (Guard(active), Guarding(_)) => GuardKeepsInv(hs, s, active);
    case (ParentRead, Proposing) => ParentReadKeepsInv(hs, s);
    case (Built(b), Building(n)) => if b.number == n { BuiltKeepsInv(cfg, hs, s, b); }
    case (Gossiped(_), _) => SendKeepsInv(cfg, hs, s, e);
    case (RoundStarted, _) => SendKeepsInv(cfg, hs, s, e);
    case (Tick(_, _, _), _) => TickKeepsInv(cfg, hs, s, e);
    case _ =>
  }

  lemma {:induction false} RunKeepsInv(cfg: Config, height: nat, events: seq<Event>)
    requires cfg.bft
    ensures Inv(Heights(height, events), Run(cfg, height, events))
  {
    if events != [] {
      var before := events[..|events| - 1];
      RunKeepsInv(cfg, height, before);
      StepKeepsInv(cfg, Heights(height, before), Run(cfg, height, before), events[|events| - 1]);
    }
  }

  /** In BFT mode every block sent for a height is the same one, and fresh proposals climb. */
  lemma OneProposalPerHeight(cfg: Config, height: nat, events: seq<Event>)
    requires cfg.bft && NeverShrinks(Heights(height, events))
    ensures OnePerHeight(Run(cfg, height, events).sent)
    ensures Ascending(Run(cfg, height, events).proposed)
  {
    RunKeepsInv(cfg, height, events);
    SteadyChain(Heights(height, events));
  }

  // ----- runs that send two blocks for one height

  ghost predicate Reaches(cfg: Config, hs: seq<nat>, events: seq<Event>, s: State) {
    hs != [] && Heights(hs[0], events) == hs && Run(cfg, hs[0], events) == s
  }

  /** A run and one more event. */
  lemma Then(cfg: Config, hs: seq<nat>, events: seq<Event>, s: State, e: Event) returns (more: seq<Event>)
    requires Reaches(cfg, hs, events, s)
    ensures Reaches(cfg, hs + (if e.ChainAt? then [e.height] else []), more, Step(cfg, s, e))
  {
    more := events + [e];
    assert more[..|events|] == events;
    assert hs + [] == hs;
  }

  /** The chain moves on while the tick waits. */
  lemma {:induction false} Moves(cfg: Config, hs: seq<nat>, n: nat, m: nat, events: seq<Event>, s: State)
    returns (more: seq<Event>)
    requires 0 < n <= m <= |hs| && Reaches(cfg, hs[..n], events, s) && s.chainHeight == hs[n - 1]
    ensures Reaches(cfg, hs[..m], more, s.(chainHeight := hs[m - 1]))
    decreases m - n
  {
    if n == m {
      return events;
    }
    var next := Then(cfg, hs[..n], events, s, ChainAt(hs[n]));
    assert hs[..n] + [hs[n]] == hs[..n + 1];
    more := Moves(cfg, hs, n + 1, m, next, s.(chainHeight := hs[n]));
  }

  /** The first proposal is made on the parent at hand. */
  lemma FirstProposal(cfg: Config, hs: seq<nat>, events: seq<Event>, h: nat, b: Block) returns (more: seq<Event>)
    requires cfg.bft && Reaches(cfg, hs, events, Start(h)) && b.number == h + 1
    ensures Reaches(cfg, hs, more, AfterFirst(h, b))
  {
    assert hs + [] == hs;
    more := StartProposal(cfg, hs, events, h);
    more := Then(cfg, hs, more, Start(h).(proposeInFlight := true, wait := Building(h + 1)), Built(b));
    more := SendProposal(cfg, hs, more, State(h, true, Some(b.number), Some(b), Gossiping(b, false), [b], [b]));
    assert [b] + [b] == [b, b];
  }

  function AfterFirst(h: nat, b: Block): State { State(h, false, Some(b.number), Some(b), Idle, [b, b], [b]) }

  lemma SendProposal(cfg: Config, hs: seq<nat>, events: seq<Event>, s: State) returns (more: seq<Event>)
    requires cfg.bft && Reaches(cfg, hs, events, s) && s.wait.Gossiping? && !s.wait.again
    ensures Reaches(cfg, hs, more, s.(proposeInFlight := false, wait := Idle, sent := s.sent + [s.wait.block]))
  {
    var b := s.wait.block;
    assert hs + [] == hs && s.sent + [] == s.sent;
    more := Then(cfg, hs, events, s, Gossiped(false));
    more := Then(cfg, hs, more, s.(wait := Starting(b, false)), RoundStarted);
    more := Then(cfg, hs, more, s.(wait := InRound, sent := s.sent + [b]), TickDone);
  }

  lemma StartProposal(cfg: Config, hs: seq<nat>, events: seq<Event>, h: nat) returns (more: seq<Event>)
    requires cfg.bft && Reaches(cfg, hs, events, Start(h))
    ensures Reaches(cfg, hs, more, Start(h).(proposeInFlight := true, wait := Building(h + 1)))
  {
    assert hs + [] == hs;
    more := Then(cfg, hs, events, Start(h), Tick(false, false, false));
    more := Then(cfg, hs, more, Start(h).(proposeInFlight := true, wait := Proposing), ParentRead);
  }

  /** A tick that finds the chain at the proposed height clears the cache. */
  lemma PassGuard(cfg: Config, hs: seq<nat>, events: seq<Event>, s: State) returns (more: seq<Event>)
    requires cfg.bft && Reaches(cfg, hs, events, s) && s.wait == Idle && !s.proposeInFlight
    requires s.lastProposedHeight.Some? && s.chainHeight >= s.lastProposedHeight.value
    ensures Reaches(cfg, hs, more, s.(proposeInFlight := true, lastProposedBlock := None, wait := Proposing))
  {
    assert hs + [] == hs;
    more := Then(cfg, hs, events, s, Tick(false, false, false));
    more := Then(cfg, hs, more, s.(proposeInFlight := true, wait := ForHeight), HeightRead);
    more := Then(cfg, hs, more, s.(proposeInFlight := true, wait := Guarding(s.chainHeight)), Guard(false));
  }

  function AfterGuard(h: nat, b: Block): State { State(h, true, Some(b.number), None, Proposing, [b, b], [b]) }

  /** Proposed at the height at `i`; then the chain moves on up to `j`. */
  lemma Proposed(cfg: Config, hs: seq<nat>, i: nat, j: nat, b: Block) returns (events: seq<Event>)
    requires cfg.bft && i < j < |hs| && b.number == hs[i] + 1
    ensures Reaches(cfg, hs[..j + 1], events, AfterFirst(hs[j], b))
  {
    assert hs[..1] == [hs[0]] == Heights(hs[0], []);
    events := Moves(cfg, hs, 1, i + 1, [], Start(hs[0]));
    events := FirstProposal(cfg, hs[..i + 1], events, hs[i], b);
    events := Moves(cfg, hs, i + 1, j + 1, events, AfterFirst(hs[i], b));
  }

  /** Cleared at the height at `j`, which is above the one at `i`; then the chain moves on up to `k`. */
  lemma Cleared(cfg: Config, hs: seq<nat>, i: nat, j: nat, k: nat, b: Block) returns (events: seq<Event>)
    requires cfg.bft && UpThen(hs, i, j, k) && b.number == hs[i] + 1
    ensures Reaches(cfg, hs[..k + 1], events, AfterGuard(hs[k], b))
  {
    events := Proposed(cfg, hs, i, j, b);
    events := PassGuard(cfg, hs[..j + 1], events, AfterFirst(hs[j], b));
    events := Moves(cfg, hs, j + 1, k + 1, events, AfterGuard(hs[j], b));
  }

  lemma SecondProposal(cfg: Config, hs: seq<nat>, events: seq<Event>, h: nat, b: Block, c: Block)
    returns (more: seq<Event>)
    requires cfg.bft && Reaches(cfg, hs, events, AfterGuard(h, b)) && c.number == h + 1
    ensures Reaches(cfg, hs, more, AfterSecond(h, b, c))
  {
    assert hs + [] == hs;
    more := Then(cfg, hs, events, AfterGuard(h, b), ParentRead);
    more := Then(cfg, hs, more, AfterGuard(h, b).(wait := Building(h + 1)), Built(c));
  }

  function AfterSecond(h: nat, b: Block, c: Block): State {
    State(h, true, Some(c.number), Some(c), Gossiping(c, false), [b, b] + [c], [b] + [c])
  }

  /** And then a second proposal is made at the height at `k`. */
  lemma Reproposed(cfg: Config, hs: seq<nat>, i: nat, j: nat, k: nat, b: Block, c: Block) returns (events: seq<Event>)
    requires cfg.bft && UpThen(hs, i, j, k) && b.number == hs[i] + 1 && c.number == hs[k] + 1
    ensures hs != [] && Heights(hs[0], events) == hs
    ensures var s := Run(cfg, hs[0], events); s.sent == [b, b] + [c] && s.proposed == [b] + [c]
  {
    events := Cleared(cfg, hs, i, j, k, b);
    events := SecondProposal(cfg, hs[..k + 1], events, hs[k], b, c);
    events := Moves(cfg, hs, k + 1, |hs|, events, AfterSecond(hs[k], b, c));
    assert hs[..|hs|] == hs;
  }

  // ----- exactly which chains allow it

  /** Some run with these chain heights sends two different blocks for one height. */
  ghost predicate CanSendTwo(cfg: Config, hs: seq<nat>)
    requires hs != []
  {
    exists events :: Heights(hs[0], events) == hs && !OnePerHeight(Run(cfg, hs[0], events).sent)
  }

  /** Some run with these chain heights makes a proposal that is not above all earlier ones. */
  ghost predicate CanFallBack(cfg: Config, hs: seq<nat>)
    requires hs != []
  {
    exists events :: Heights(hs[0], events) == hs && !Ascending(Run(cfg, hs[0], events).proposed)
  }

  /** Some run with these chain heights ends below the proposed height with nothing cached to send again. */
  ghost predicate CanForget(cfg: Config, hs: seq<nat>)
    requires hs != []
  {
    exists events :: Heights(hs[0], events) == hs && Forgetful(Run(cfg, hs[0], events))
  }

  ghost predicate Forgetful(s: State) {
    s.lastProposedHeight.Some? && s.chainHeight < s.lastProposedHeight.value && s.lastProposedBlock.None?
  }

  /** Two blocks can go out for one height if and only if the chain comes back to a height that it had left upward. */
  lemma TwoBlocksExactly(cfg: Config, hs: seq<nat>)
    requires cfg.bft && hs != []
    ensures CanSendTwo(cfg, hs) <==> Revisits(hs)
  {
    if CanSendTwo(cfg, hs) {
      var events :| Heights(hs[0], events) == hs && !OnePerHeight(Run(cfg, hs[0], events).sent);
      RunKeepsInv(cfg, hs[0], events);
    }
    if Revisits(hs) {
      var i, j, k :| UpThen(hs, i, j, k) && hs[k] == hs[i];
      var b, c := Block(hs[i] + 1, "a", []), Block(hs[i] + 1, "b", []);
      var events := Reproposed(cfg, hs, i, j, k, b, c);
      var sent := Run(cfg, hs[0], events).sent;
      assert sent[0] == b && sent[2] == c && b.hash != c.hash;
    }
  }

  /**
   * Proposal heights can fail to climb if and only if the chain comes back
   * to, or below, a height that it had left upward.
   */
  lemma FallBackExactly(cfg: Config, hs: seq<nat>)
    requires cfg.bft && hs != []
    ensures CanFallBack(cfg, hs) <==> Relapses(hs)
  {
    if CanFallBack(cfg, hs) {
      var events :| Heights(hs[0], events) == hs && !Ascending(Run(cfg, hs[0], events).proposed);
      RunKeepsInv(cfg, hs[0], events);
    }
    if Relapses(hs) {
      var i, j, k :| UpThen(hs, i, j, k) && hs[k] <= hs[i];
      var events := Reproposed(cfg, hs, i, j, k, Block(hs[i] + 1, "a", []), Block(hs[k] + 1, "b", []));
      var proposed := Run(cfg, hs[0], events).proposed;
      assert proposed[0].number >= proposed[1].number;
    }
  }

  lemma ForgetfulPassed(hs: seq<nat>, s: State)
    requires Inv(hs, s) && Forgetful(s)
    ensures exists i, j :: Up(hs, i, j) && hs[|hs| - 1] <= hs[i]
  {
    var last := s.proposed[|s.proposed| - 1];
    assert last in s.proposed && Passed(hs, last.number - 1);
  }

  /**
   * The proposal can be missing when it is needed if and only if the chain ends
   * at, or below, a height that it had left upward.
   */
  lemma ForgetExactly(cfg: Config, hs: seq<nat>)
    requires cfg.bft && hs != []
    ensures CanForget(cfg, hs) <==> exists i, j :: Up(hs, i, j) && hs[|hs| - 1] <= hs[i]
  {
    if CanForget(cfg, hs) {
      var events :| Heights(hs[0], events) == hs && Forgetful(Run(cfg, hs[0], events));
      RunKeepsInv(cfg, hs[0], events);
      ForgetfulPassed(hs, Run(cfg, hs[0], events));
    }
    if i, j :| Up(hs, i, j) && hs[|hs| - 1] <= hs[i] {
      ForgetWitness(cfg, hs, i, j);
    }
  }

  lemma ForgetWitness(cfg: Config, hs: seq<nat>, i: nat, j: nat)
    requires cfg.bft && Up(hs, i, j) && hs[|hs| - 1] <= hs[i]
    ensures CanForget(cfg, hs)
  {
    assert UpThen(hs, i, j, |hs| - 1);
    var events := Cleared(cfg, hs, i, j, |hs| - 1, Block(hs[i] + 1, "a", []));
    assert hs[..|hs|] == hs;
    assert Forgetful(Run(cfg, hs[0], events));
  }

  /** On a chain that never shrinks, a timed-out proposal is always still at hand to be sent again. */
  lemma CachedWhenNeeded(cfg: Config, height: nat, events: seq<Event>)
    requires cfg.bft && NeverShrinks(Heights(height, events))
    ensures !Forgetful(Run(cfg, height, events))
  {
    ForgetExactly(cfg, Heights(height, events));
  }

  /** The shortest such chain: seen above its first height by the guard, and back there for the build. */
  lemma ShrinkingChainRepeats(cfg: Config, h: nat)
    requires cfg.bft
    ensures CanSendTwo(cfg, [h, h + 1, h])
  {
    assert UpThen([h, h + 1, h], 0, 1, 2);
    TwoBlocksExactly(cfg, [h, h + 1, h]);
  }
}
