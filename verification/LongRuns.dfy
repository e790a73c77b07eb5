/** Two hashes at one height in a run of any length: the record of the first one may have been pruned. */
module LongRuns {
  import opened Options
  import Sets
  import opened Text
  import opened Quorum
  import opened Round
  import opened Detector
  import opened Coordinator
  import opened Safety
  import opened SingleNode
  import opened ConflictingRuns

  /** The run finalizes two different hashes at one height, with `n` higher heights among its blocks. */
  ghost predicate ConflictBelow(cfg: Config, vs: seq<Validator>, events: seq<Event>, f1: Final, f2: Final, n: nat) {
    TwoHashes(cfg, vs, events, f1, f2) && |BlockHeightsAbove(events, f1.block.number)| == n
  }

  /** And neither hash is empty. */
  ghost predicate ProperConflictBelow(cfg: Config, vs: seq<Validator>, events: seq<Event>, f1: Final, f2: Final,
                                      n: nat)
  {
    ConflictBelow(cfg, vs, events, f1, f2, n) && f1.block.hash != "" && f2.block.hash != ""
  }

  ghost function Heights(lo: int, hi: int): (r: set<int>)
    ensures forall h :: h in r <==> lo <= h <= hi
    ensures lo <= hi + 1 ==> |r| == hi + 1 - lo
    decreases hi - lo
  {
    if hi < lo then {} else Heights(lo, hi - 1) + {hi}
  }

  lemma HeightsAboveOne(events: seq<Event>, n: nat)
    requires BlockHeights(events) == Heights(1, n + 1)
    ensures |BlockHeightsAbove(events, 1)| == n
  {
    assert BlockHeightsAbove(events, 1) == Heights(2, n + 1);
  }

  lemma HeightsOfNext(events: seq<Event>, block: Block)
    ensures BlockHeights(events + [StartRound(block)]) == BlockHeights(events) + {block.number}
  {
    var next := events + [StartRound(block)];
    assert forall x :: x in next <==> x in events || x == StartRound(block);
  }

  // ----- the record is bounded

  lemma RecordBounded(t: VoteTable, max: nat, v: Cast)
    requires |t| <= max
    ensures |Record(t, max, v)| <= max
  {
    if Conflict(t, v) == "" {
      var p := Put(t, v.height, v.kind, Lower(v.voter), v.hash);
      assert Prune(p, max).Keys == Highest(p.Keys, max);
    }
  }

  lemma {:induction false} RunTableBounded(cfg: Config, vs: seq<Validator>, events: seq<Event>)
    ensures |Run(cfg, vs, events).state.votes| <= MAX_TRACKED_HEIGHTS
  {
    if events != [] {
      var init, e := events[..|events| - 1], events[|events| - 1];
      RunTableBounded(cfg, vs, init);
      var s := Run(cfg, vs, init).state;
      if e.Deliver? {
        DeliverRecords(cfg, s, e.msg);
        if Recording(cfg, s, e.msg) {
          RecordBounded(s.votes, MAX_TRACKED_HEIGHTS, CastOf(e.msg));
        }
      } else {
        OtherStepsKeepVotes(cfg, s, e);
      }
    }
  }

  // ----- finalizing one height after the other

  ghost predicate FinalizedAt(cfg: Config, vs: seq<Validator>, events: seq<Event>, h: int) {
    exists f :: f in Run(cfg, vs, events).finals && f.block.number == h && f.block.hash == "x"
  }

  /** The votes delivered are for `x` at the heights 1 to `n`. */
  ghost predicate VotesUpTo(events: seq<Event>, n: nat) {
    forall e :: e in events && e.Deliver? ==> 1 <= e.msg.height <= n && e.msg.blockHash == "x"
  }

  /** The run finalized `x` at the heights 1 to `n` and saw no other. */
  ghost predicate Climbed(cfg: Config, vs: seq<Validator>, events: seq<Event>, n: nat) {
    Run(cfg, vs, events).state.active.None? && BlockHeights(events) == Heights(1, n) && VotesUpTo(events, n)
    && forall h :: 1 <= h <= n ==> FinalizedAt(cfg, vs, events, h)
  }

  lemma NothingAbove(cfg: Config, vs: seq<Validator>, events: seq<Event>, n: nat, a: set<string>)
    requires BlockHeights(events) == Heights(1, n)
    ensures TableOk(Run(cfg, vs, events).state.votes, n + 1, "x", a, {})
  {
    assert BlockHeightsAbove(events, n) == {};
    RunKeepsRecord(cfg, vs, events, n, {});
    assert Within(n + 1, n, {}) ==> false;
  }

  lemma StaysFinalized(cfg: Config, vs: seq<Validator>, events: seq<Event>, next: seq<Event>, h: int)
    requires |events| <= |next| && next[..|events|] == events && FinalizedAt(cfg, vs, events, h)
    ensures FinalizedAt(cfg, vs, next, h)
  {
    FinalsGrow(cfg, vs, next, |events|);
    var f :| f in Run(cfg, vs, events).finals && f.block.number == h && f.block.hash == "x";
  }

  lemma ClimbedHigher(cfg: Config, vs: seq<Validator>, events: seq<Event>, next: seq<Event>, n: nat)
    requires Climbed(cfg, vs, events, n) && |events| <= |next| && next[..|events|] == events
    requires Run(cfg, vs, next).state.active.None? && BlockHeights(next) == BlockHeights(events) + {n + 1}
    requires FinalizedAt(cfg, vs, next, n + 1) && VotesUpTo(next, n + 1)
    ensures Climbed(cfg, vs, next, n + 1)
  {
    forall h | 1 <= h <= n + 1 ensures FinalizedAt(cfg, vs, next, h) {
      if h <= n {
        StaysFinalized(cfg, vs, events, next, h);
      }
    }
  }

  lemma ClimbOne(cfg: Config, vs: seq<Validator>, events: seq<Event>, a: set<string>, n: nat) returns (next: seq<Event>)
    requires CanSign(cfg, vs) && Group(vs, Lower(cfg.localId), a) && Climbed(cfg, vs, events, n)
    ensures Climbed(cfg, vs, next, n + 1)
  {
    var v :| v in vs;
    NothingAbove(cfg, vs, events, n, a);
    next := FinalizeWith(cfg, vs, events, Block(n + 1, "x", v.id), a, {});
    assert FinalizedAt(cfg, vs, next, n + 1);
    VotesOf(events, next, Block(n + 1, "x", v.id), a);
    ClimbedHigher(cfg, vs, events, next, n);
  }

  lemma {:induction false} Climb(cfg: Config, vs: seq<Validator>, a: set<string>, n: nat) returns (events: seq<Event>)
    requires CanSign(cfg, vs) && Group(vs, Lower(cfg.localId), a)
    ensures Climbed(cfg, vs, events, n)
  {
    if n == 0 {
      events := [];
    } else {
      var lower := Climb(cfg, vs, a, n - 1);
      events := ClimbOne(cfg, vs, lower, a, n - 1);
    }
  }

  lemma RemotePreparer(cfg: Config, vs: seq<Validator>, events: seq<Event>, f: Final) returns (id: string)
    requires f in Run(cfg, vs, events).finals
    ensures id in f.preparers && id != Lower(cfg.localId)
  {
    RunIsBacked(cfg, vs, events);
    id := Sets.AnyOf(f.preparers - {Lower(cfg.localId)});
  }

  /** The highest heights that fit are on record. */
  lemma HighOnRecord(cfg: Config, vs: seq<Validator>, events: seq<Event>, n: nat, h: int)
    requires Climbed(cfg, vs, events, n) && 1 <= h <= n < h + MAX_TRACKED_HEIGHTS
    ensures h in Run(cfg, vs, events).state.votes
  {
    assert FinalizedAt(cfg, vs, events, h);
    var f :| f in Run(cfg, vs, events).finals && f.block.number == h && f.block.hash == "x";
    assert BlockHeightsAbove(events, h) == Heights(h + 1, n);
    RunKeepsRecord(cfg, vs, events, h, Heights(h + 1, n));
    var id := RemotePreparer(cfg, vs, events, f);
    assert Recorded(Run(cfg, vs, events).state.votes, h, PrepareVote, id) == "x";
  }

  /** So the lowest one is no longer, once there are more than fit. */
  lemma LowestForgotten(cfg: Config, vs: seq<Validator>, events: seq<Event>, n: nat)
    requires Climbed(cfg, vs, events, n) && n > MAX_TRACKED_HEIGHTS
    ensures 1 !in Run(cfg, vs, events).state.votes
  {
    var t, high := Run(cfg, vs, events).state.votes, Heights(n + 1 - MAX_TRACKED_HEIGHTS, n);
    forall h | h in high ensures h in t.Keys {
      HighOnRecord(cfg, vs, events, n, h);
    }
    RunTableBounded(cfg, vs, events);
    Sets.SubsetSize(high, t.Keys);
    Sets.SameSizeSubset(high, t.Keys);
  }

  /** The run finalized `x` at the heights 1 to `n`, and then `y` at height 1. */
  ghost predicate FellBack(cfg: Config, vs: seq<Validator>, events: seq<Event>, n: nat) {
    BlockHeights(events) == Heights(1, n) && (forall h :: 1 <= h <= n ==> FinalizedAt(cfg, vs, events, h))
    && (exists f :: f in Run(cfg, vs, events).finals && f.block.number == 1 && f.block.hash == "y")
    && forall e :: e in events && e.Deliver? ==>
         1 <= e.msg.height <= n && (e.msg.blockHash == "x" || (e.msg.height == 1 && e.msg.blockHash == "y"))
  }

  lemma FallBack(cfg: Config, vs: seq<Validator>, a: set<string>, n: nat) returns (events: seq<Event>)
    requires CanSign(cfg, vs) && Group(vs, Lower(cfg.localId), a) && n > MAX_TRACKED_HEIGHTS
    ensures FellBack(cfg, vs, events, n)
  {
    var v :| v in vs;
    var block := Block(1, "y", v.id);
    var climbed := Climb(cfg, vs, a, n);
    LowestForgotten(cfg, vs, climbed, n);
    events := FinalizeWith(cfg, vs, climbed, block, a, {});
    VotesOf(climbed, events, block, a);
    forall h | 1 <= h <= n ensures FinalizedAt(cfg, vs, events, h) {
      StaysFinalized(cfg, vs, climbed, events, h);
    }
    assert Heights(1, n) + {1} == Heights(1, n);
  }

  lemma ForgottenConflict(cfg: Config, vs: seq<Validator>, a: set<string>, n: nat)
    returns (events: seq<Event>, f1: Final, f2: Final)
    requires CanSign(cfg, vs) && Group(vs, Lower(cfg.localId), a) && n >= MAX_TRACKED_HEIGHTS
    ensures ProperConflictBelow(cfg, vs, events, f1, f2, n)
  {
    events := FallBack(cfg, vs, a, n + 1);
    assert FinalizedAt(cfg, vs, events, 1);
    f1 :| f1 in Run(cfg, vs, events).finals && f1.block.number == 1 && f1.block.hash == "x";
    f2 :| f2 in Run(cfg, vs, events).finals && f2.block.number == 1 && f2.block.hash == "y";
    HeightsAboveOne(events, n);
  }

  // ----- conflicts that stay

  /** A conflict at height 1 is still one when higher rounds start. */
  lemma {:induction false} RaiseConflict(cfg: Config, vs: seq<Validator>, events: seq<Event>, f1: Final, f2: Final,
                                         n: nat)
    returns (next: seq<Event>)
    requires TwoHashes(cfg, vs, events, f1, f2) && f1.block.number == 1 && BlockHeights(events) == {1}
    ensures ConflictBelow(cfg, vs, next, f1, f2, n) && BlockHeights(next) == Heights(1, n + 1)
  {
    if n == 0 {
      next := events;
      assert Heights(1, n + 1) == {1};
    } else {
      var lower := RaiseConflict(cfg, vs, events, f1, f2, n - 1);
      next := lower + [StartRound(Block(n + 1, "x", ""))];
      assert next[..|lower|] == lower;
      FinalsGrow(cfg, vs, next, |lower|);
      HeightsOfNext(lower, Block(n + 1, "x", ""));
      assert Heights(1, n + 1) == Heights(1, n) + {n + 1};
    }
    HeightsAboveOne(next, n);
  }

  // ----- the exact conditions

  /**
   * With `n` higher heights, two non-empty hashes can be finalized at one height exactly if the validator set
   * splits, as long as `n` is in the detector's window, and exactly if a group makes a quorum with the local node
   * beyond it.
   */
  lemma ConflictBelowExactly(cfg: Config, vs: seq<Validator>, n: nat)
    requires CanSign(cfg, vs)
    ensures (exists events, f1, f2 :: ProperConflictBelow(cfg, vs, events, f1, f2, n))
            <==> if n < MAX_TRACKED_HEIGHTS then exists a, b :: SplitBy(vs, Lower(cfg.localId), a, b)
                 else exists a :: Group(vs, Lower(cfg.localId), a)
  {
    if events, f1, f2 :| ProperConflictBelow(cfg, vs, events, f1, f2, n) {
      if n < MAX_TRACKED_HEIGHTS {
        var a, b := ConflictNeedsSplit(cfg, vs, events, f1, f2);
      } else {
        var a := FinalNeedsGroup(cfg, vs, events, f1);
      }
    }
    if n < MAX_TRACKED_HEIGHTS {
      if a, b :| SplitBy(vs, Lower(cfg.localId), a, b) {
        var low, f1, f2 := SplitMakesConflict(cfg, vs, a, b);
        var events := RaiseConflict(cfg, vs, low, f1, f2, n);
        assert ProperConflictBelow(cfg, vs, events, f1, f2, n);
      }
    } else if a :| Group(vs, Lower(cfg.localId), a) {
      var events, f1, f2 := ForgottenConflict(cfg, vs, a, n);
    }
  }

  /** If one of the hashes may be empty, the window does not matter. */
  lemma AnyConflictBelowExactly(cfg: Config, vs: seq<Validator>, n: nat)
    requires CanSign(cfg, vs)
    ensures (exists events, f1, f2 :: ConflictBelow(cfg, vs, events, f1, f2, n))
            <==> (exists a :: Group(vs, Lower(cfg.localId), a))
  {
    if events, f1, f2 :| ConflictBelow(cfg, vs, events, f1, f2, n) {
      var a := FinalNeedsGroup(cfg, vs, events, f1);
    }
    if a :| Group(vs, Lower(cfg.localId), a) {
      var low, f1, f2 := GroupMakesConflict(cfg, vs, a);
      var events := RaiseConflict(cfg, vs, low, f1, f2, n);
    }
  }
}
