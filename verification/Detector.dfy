/** The record of votes by height and phase that exposes validators voting for two blocks. */
module Detector {
  import opened Options
  import opened Sets
  import opened Text

  datatype VoteKind = PrepareVote | CommitVote

  /** height, then phase, then lower-cased validator id, to block hash */
  type VoteTable = map<int, map<VoteKind, map<string, string>>>

  /** The recorded hash; an absent entry and an empty hash are both falsy in the source and both read as "". */
  function Recorded(t: VoteTable, height: int, kind: VoteKind, id: string): string {
    if height in t && kind in t[height] && id in t[height][kind] then t[height][kind][id] else ""
  }

  function Put(t: VoteTable, height: int, kind: VoteKind, id: string, hash: string): VoteTable {
    var phases := if height in t then t[height] else map[];
    var ids := if kind in phases then phases[kind] else map[];
    t[height := phases[kind := ids[id := hash]]]
  }

  // ----- keeping the highest heights

  ghost predicate IsLeast(m: int, s: set<int>) { m in s && forall x :: x in s ==> m <= x }

  lemma {:induction false} LeastExists(s: set<int>)
    requires s != {}
    ensures exists m :: IsLeast(m, s)
    decreases |s|
  {
    var x := AnyOf(s);
    if s == {x} {
      assert IsLeast(x, s);
    } else {
      assert s - {x} != {} by { assert s == (s - {x}) + {x}; }
      LeastExists(s - {x});
      var m :| IsLeast(m, s - {x});
      assert IsLeast(if m < x then m else x, s);
    }
  }

  ghost function Least(s: set<int>): (m: int)
    requires s != {}
    ensures IsLeast(m, s)
  {
    LeastExists(s);
    var m :| IsLeast(m, s);
    m
  }

  /** What is left of `s` after dropping the smallest members until at most `n` remain. */
  ghost function Highest(s: set<int>, n: nat): (r: set<int>)
    ensures r <= s && |r| <= n
    ensures |s| <= n ==> r == s
    ensures forall x, y :: x in s && x !in r && y in r ==> x < y
    decreases |s|
  {
    if |s| <= n then s
    else
      var m := Least(s);
      assert m !in Highest(s - {m}, n);
      Highest(s - {m}, n)
  }

  /** A height is kept when fewer than `n` others are above it. */
  lemma {:induction false} HighestKeeps(s: set<int>, n: nat, h: int, above: set<int>)
    requires h in s && |above| < n
    requires forall x :: x in s && x > h ==> x in above
    ensures h in Highest(s, n)
    decreases |s|
  {
    if |s| > n {
      if Least(s) == h {
        assert forall x :: x in s - {h} ==> x > h;
        assert s - {h} <= above;
        SubsetSize(s - {h}, above);
        assert false;
      } else {
        HighestKeeps(s - {Least(s)}, n, h, above);
      }
    }
  }

  ghost function Prune(t: VoteTable, max: nat): VoteTable {
    map h | h in Highest(t.Keys, max) :: t[h]
  }

  lemma PruneLeast(t: VoteTable, max: nat, m: int)
    requires |t| > max && IsLeast(m, t.Keys)
    ensures Prune(t - {m}, max) == Prune(t, max)
  {
    assert Least(t.Keys) == m;
    assert (t - {m}).Keys == t.Keys - {m};
    assert Highest(t.Keys, max) == Highest(t.Keys - {m}, max);
  }

  /** `heights` lists the heights of the table in ascending order. */
  ghost predicate Lists(heights: seq<int>, t: VoteTable) {
    (forall x :: x in t.Keys <==> x in heights) && forall i, j :: 0 <= i < j < |heights| ==> heights[i] < heights[j]
  }

  lemma FirstIsLeast(heights: seq<int>, t: VoteTable)
    requires Lists(heights, t) && heights != []
    ensures IsLeast(heights[0], t.Keys)
  {
    assert heights[0] in heights;
  }

  lemma RestListed(heights: seq<int>, t: VoteTable)
    requires Lists(heights, t) && heights != []
    ensures Lists(heights[1..], t - {heights[0]})
  {
    assert heights == [heights[0]] + heights[1..];
  }

  lemma NextSuffix(heights: seq<int>, i: nat)
    requires i < |heights|
    ensures heights[i..][0] == heights[i] && heights[i..][1..] == heights[i + 1..]
  {
  }

  lemma DropFirst(heights: seq<int>, t: VoteTable, max: nat)
    requires Lists(heights, t) && heights != [] && |t| > max
    ensures Lists(heights[1..], t - {heights[0]})
    ensures |t - {heights[0]}| == |t| - 1
    ensures Prune(t - {heights[0]}, max) == Prune(t, max)
  {
    var m := heights[0];
    FirstIsLeast(heights, t);
    RestListed(heights, t);
    assert (t - {m}).Keys == t.Keys - {m};
    PruneLeast(t, max, m);
  }

  // ----- recording a vote

  datatype Cast = Cast(voter: string, height: int, kind: VoteKind, hash: string)

  /** The earlier hash that the vote contradicts, or "". */
  function Conflict(t: VoteTable, v: Cast): string {
    var existing := Recorded(t, v.height, v.kind, Lower(v.voter));
    if existing != "" && existing != v.hash then existing else ""
  }

  ghost function Record(t: VoteTable, max: nat, v: Cast): VoteTable {
    if Conflict(t, v) != "" then t
    else Prune(Put(t, v.height, v.kind, Lower(v.voter), v.hash), max)
  }

  ghost function Table(history: seq<Cast>, max: nat): VoteTable {
    if history == [] then map[] else Record(Table(history[..|history| - 1], max), max, history[|history| - 1])
  }

  datatype Evidence = Evidence(validatorId: string, height: int, kind: VoteKind, hash1: string, hash2: string)

  function Counter(counts: map<string, nat>, id: string): nat {
    if id in counts then counts[id] else 0
  }

  function CountFor(evidence: seq<Evidence>, id: string): nat {
    if evidence == [] then 0
    else CountFor(evidence[..|evidence| - 1], id) + (if evidence[|evidence| - 1].validatorId == id then 1 else 0)
  }

  function KeepFrom(evidence: seq<Evidence>, height: int): seq<Evidence> {
    if evidence == [] then []
    else
      var last := evidence[|evidence| - 1];
      KeepFrom(evidence[..|evidence| - 1], height) + (if last.height >= height then [last] else [])
  }

  function RemoveAt(evidence: seq<Evidence>, k: nat): seq<Evidence>
    requires k < |evidence|
  {
    evidence[..k] + evidence[k + 1..]
  }

  lemma {:induction false} CountConcat(a: seq<Evidence>, b: seq<Evidence>, id: string)
    ensures CountFor(a + b, id) == CountFor(a, id) + CountFor(b, id)
  {
    if b == [] {
      assert a + b == a;
    } else {
      assert (a + b)[..|a + b| - 1] == a + b[..|b| - 1];
      CountConcat(a, b[..|b| - 1], id);
    }
  }

  lemma CountOne(e: Evidence, id: string)
    ensures CountFor([e], id) == if e.validatorId == id then 1 else 0
  {
    assert CountFor([e][..0], id) == 0;
  }

  lemma CountRemoved(evidence: seq<Evidence>, k: nat, id: string)
    requires k < |evidence|
    ensures CountFor(evidence, id)
            == CountFor(RemoveAt(evidence, k), id) + (if evidence[k].validatorId == id then 1 else 0)
  {
    assert evidence == evidence[..k] + ([evidence[k]] + evidence[k + 1..]);
    CountConcat(evidence[..k], [evidence[k]] + evidence[k + 1..], id);
    CountConcat([evidence[k]], evidence[k + 1..], id);
    CountConcat(evidence[..k], evidence[k + 1..], id);
    CountOne(evidence[k], id);
  }

  /** The in-place filter has read `i` entries of `before` and written `w` of them back to the front. */
  ghost predicate Compacted(before: seq<Evidence>, now: seq<Evidence>, i: nat, w: nat, height: int) {
    w <= i <= |before| == |now| && now[..w] == KeepFrom(before[..i], height) && now[i..] == before[i..]
  }

  lemma CompactStep(before: seq<Evidence>, now: seq<Evidence>, i: nat, w: nat, height: int)
    requires Compacted(before, now, i, w, height) && i < |before|
    ensures now[i] == before[i]
    ensures if now[i].height >= height
            then Compacted(before, now[w := now[i]], i + 1, w + 1, height)
                 && now[w := now[i]][..w + 1] == now[..w] + [now[i]]
            else Compacted(before, now, i + 1, w, height)
  {
    assert now[i] == now[i..][0] == before[i..][0];
    assert before[..i + 1][..i] == before[..i];
    var next := now[w := now[i]];
    assert next[..w + 1] == now[..w] + [now[i]];
    assert now[i + 1..] == now[i..][1..] && before[i + 1..] == before[i..][1..];
    assert next[i + 1..] == now[i + 1..];
  }

  /** The counters cover two stretches of evidence. */
  ghost predicate Covers(a: seq<Evidence>, b: seq<Evidence>, counts: map<string, nat>) {
    forall id :: CountFor(a, id) + CountFor(b, id) <= Counter(counts, id)
  }

  function Decremented(counts: map<string, nat>, id: string): map<string, nat> {
    var cnt := if id in counts then counts[id] else 1;
    if cnt <= 1 then counts - {id} else counts[id := cnt - 1]
  }

  lemma CoversKept(a: seq<Evidence>, e: Evidence, b: seq<Evidence>, counts: map<string, nat>)
    requires Covers(a, [e] + b, counts)
    ensures Covers(a + [e], b, counts)
  {
    forall id ensures CountFor(a + [e], id) + CountFor(b, id) <= Counter(counts, id) {
      CountConcat(a, [e], id);
      CountConcat([e], b, id);
      assert CountFor(a, id) + CountFor([e] + b, id) <= Counter(counts, id);
    }
  }

  /** The counters went down by what is no longer among `rest` plus `kept` of what was `before`. */
  ghost predicate CountersLowered(before: seq<Evidence>, kept: seq<Evidence>, rest: seq<Evidence>, c0: map<string, nat>,
                                  c: map<string, nat>)
  {
    forall id :: Counter(c0, id) - Counter(c, id) == CountFor(before, id) - CountFor(kept, id) - CountFor(rest, id)
  }

  lemma CountersKept(before: seq<Evidence>, a: seq<Evidence>, e: Evidence, b: seq<Evidence>, c0: map<string, nat>,
                     c: map<string, nat>)
    requires CountersLowered(before, a, [e] + b, c0, c)
    ensures CountersLowered(before, a + [e], b, c0, c)
  {
    forall id ensures CountFor(a + [e], id) + CountFor(b, id) == CountFor(a, id) + CountFor([e] + b, id) {
      CountConcat(a, [e], id);
      CountConcat([e], b, id);
    }
  }

  lemma CountersDropped(before: seq<Evidence>, a: seq<Evidence>, e: Evidence, b: seq<Evidence>, c0: map<string, nat>,
                        c: map<string, nat>)
    requires CountersLowered(before, a, [e] + b, c0, c) && Covers(a, [e] + b, c)
    ensures CountersLowered(before, a, b, c0, Decremented(c, e.validatorId))
  {
    forall id
      ensures Counter(c0, id) - Counter(Decremented(c, e.validatorId), id)
              == CountFor(before, id) - CountFor(a, id) - CountFor(b, id)
    {
      CountConcat([e], b, id);
      CountOne(e, id);
      assert CountFor(a, id) + CountFor([e] + b, id) <= Counter(c, id);
      assert Counter(c0, id) - Counter(c, id) == CountFor(before, id) - CountFor(a, id) - CountFor([e] + b, id);
    }
  }

  lemma CoversDropped(a: seq<Evidence>, e: Evidence, b: seq<Evidence>, counts: map<string, nat>)
    requires Covers(a, [e] + b, counts)
    ensures Covers(a, b, Decremented(counts, e.validatorId))
  {
    forall id ensures CountFor(a, id) + CountFor(b, id) <= Counter(Decremented(counts, e.validatorId), id) {
      CountConcat([e], b, id);
      CountOne(e, id);
      assert CountFor(a, id) + CountFor([e] + b, id) <= Counter(counts, id);
    }
  }

  /** The validator has a counter that reached the cap, or the cap is zero. */
  ghost predicate AtCap(counts: map<string, nat>, id: string, cap: nat) {
    cap == 0 || (id in counts && counts[id] >= cap)
  }

  /** No validator has a higher counter than `v`. */
  ghost predicate Busiest(counts: map<string, nat>, v: string) {
    forall w :: w in counts ==> counts[w] <= Counter(counts, v)
  }

  /** The counter of a validator is at least the number of its stored entries and at most the cap. */
  ghost predicate CountersBound(evidence: seq<Evidence>, counts: map<string, nat>, cap: nat) {
    (forall id :: CountFor(evidence, id) <= Counter(counts, id)) && (forall id :: id in counts ==> counts[id] <= cap)
  }

  /**
   * `e1` is `e0` with `ev` at the end and at most one entry less: the oldest
   * entry of a busiest validator, and only if full.
   */
  ghost predicate Stores(e0: seq<Evidence>, c0: map<string, nat>, e1: seq<Evidence>, ev: Evidence, max: nat) {
    e1 == e0 + [ev]
    || (|e0| >= max && exists k :: 0 <= k < |e0| && e1 == RemoveAt(e0, k) + [ev] && Busiest(c0, e0[k].validatorId)
                                   && forall j :: 0 <= j < k ==> e0[j].validatorId != e0[k].validatorId)
  }

  method Ascending(s: set<int>) returns (r: seq<int>)
    ensures |r| == |s| && forall x :: x in s <==> x in r
    ensures forall i, j :: 0 <= i < j < |r| ==> r[i] < r[j]
  {
    r := [];
    var rest := s;
    while rest != {}
      invariant rest <= s && |r| + |rest| == |s|
      invariant forall x :: x in s <==> x in rest || x in r
      invariant forall i, x :: 0 <= i < |r| && x in rest ==> r[i] < x
      invariant forall i, j :: 0 <= i < j < |r| ==> r[i] < r[j]
      decreases rest
    {
      var m := PickOne(rest);
      var seen := {m};
      while seen != rest
        invariant m in seen && seen <= rest
        invariant forall x :: x in seen ==> m <= x
        decreases rest - seen
      {
        var x := PickOne(rest - seen);
        if x < m { m := x; }
        seen := seen + {x};
      }
      r := r + [m];
      rest := rest - {m};
    }
  }

  class EquivocationDetector {
    var votes: VoteTable
    var evidence: seq<Evidence>
    var evidenceCountByValidator: map<string, nat>
    const maxTrackedHeights: nat
    const maxEvidence: nat
    const maxEvidencePerValidator: nat

    ghost predicate Valid()
      reads this
    {
      CountersBound(evidence, evidenceCountByValidator, maxEvidencePerValidator)
    }

    constructor (maxTrackedHeights: nat, maxEvidence: nat, maxEvidencePerValidator: nat)
      ensures Valid() && votes == map[] && evidence == [] && evidenceCountByValidator == map[]
      ensures this.maxTrackedHeights == maxTrackedHeights && this.maxEvidence == maxEvidence
      ensures this.maxEvidencePerValidator == maxEvidencePerValidator
    {
      this.maxTrackedHeights := maxTrackedHeights;
      this.maxEvidence := maxEvidence;
      this.maxEvidencePerValidator := maxEvidencePerValidator;
      votes, evidence, evidenceCountByValidator := map[], [], map[];
    }

    method RecordVote(validatorId: string, height: int, kind: VoteKind, blockHash: string)
      returns (found: Option<Evidence>)
      requires Valid()
      modifies this
      ensures Valid()
      ensures var v := Cast(validatorId, height, kind, blockHash);
              && votes == Record(old(votes), maxTrackedHeights, v)
              && (found.Some? <==> Conflict(old(votes), v) != "")
              && (found.Some? ==>
                    found.value == Evidence(Lower(validatorId), height, kind, Conflict(old(votes), v), blockHash))
      ensures found.None? || AtCap(old(evidenceCountByValidator), Lower(validatorId), maxEvidencePerValidator)
              ==> evidence == old(evidence) && evidenceCountByValidator == old(evidenceCountByValidator)
      ensures found.Some? && !AtCap(old(evidenceCountByValidator), Lower(validatorId), maxEvidencePerValidator)
              ==> Stores(old(evidence), old(evidenceCountByValidator), evidence, found.value, maxEvidence)
    {
      var id := Lower(validatorId);
      var existing := Recorded(votes, height, kind, id);
      if existing != "" && existing != blockHash {
        var ev := Evidence(id, height, kind, existing, blockHash);
        StoreEvidence(ev);
        return Some(ev);
      }
      votes := Put(votes, height, kind, id, blockHash);
      PruneOldHeights();
      return None;
    }

    method StoreEvidence(ev: Evidence)
      requires Valid()
      modifies this`evidence, this`evidenceCountByValidator
      ensures Valid()
      ensures if AtCap(old(evidenceCountByValidator), ev.validatorId, maxEvidencePerValidator)
              then evidence == old(evidence) && evidenceCountByValidator == old(evidenceCountByValidator)
              else Stores(old(evidence), old(evidenceCountByValidator), evidence, ev, maxEvidence)
                   && ev.validatorId in evidenceCountByValidator
                   && evidenceCountByValidator[ev.validatorId]
                      == if ev.validatorId in old(evidenceCountByValidator)
                         then old(evidenceCountByValidator)[ev.validatorId] + 1 else 1
    {
      var id := ev.validatorId;
      var validatorCount := Counter(evidenceCountByValidator, id);
      if validatorCount >= maxEvidencePerValidator { return; }
      ghost var e0, c0 := evidence, evidenceCountByValidator;
      if |evidence| >= maxEvidence {
        EvictOldestOfBusiest(id, validatorCount);
      }
      ghost var e1, c1 := evidence, evidenceCountByValidator;
      evidence := evidence + [ev];
      evidenceCountByValidator := evidenceCountByValidator[id := validatorCount + 1];
      forall x ensures CountFor(evidence, x) <= Counter(evidenceCountByValidator, x) {
        CountConcat(e1, [ev], x);
        CountOne(ev, x);
        assert CountFor(e1, x) <= Counter(c1, x);
      }
    }

    /** Drops one stored entry, or none when the busiest validator has nothing stored. */
    method EvictOldestOfBusiest(id: string, validatorCount: nat)
      requires Valid() && validatorCount == Counter(evidenceCountByValidator, id) && |evidence| >= maxEvidence
      modifies this`evidence, this`evidenceCountByValidator
      ensures Valid()
      ensures forall x :: Counter(evidenceCountByValidator, x) <= old(Counter(evidenceCountByValidator, x))
      ensures forall e :: Stores(old(evidence), old(evidenceCountByValidator), evidence + [e], e, maxEvidence)
    {
      var maxValidator, maxCount := id, validatorCount;
      var rest := evidenceCountByValidator.Keys;
      while rest != {}
        invariant rest <= evidenceCountByValidator.Keys
        invariant maxCount == Counter(evidenceCountByValidator, maxValidator)
        invariant forall w :: w in evidenceCountByValidator && w !in rest ==> evidenceCountByValidator[w] <= maxCount
        decreases rest
      {
        var vid :| vid in rest;
        if evidenceCountByValidator[vid] > maxCount {
          maxValidator, maxCount := vid, evidenceCountByValidator[vid];
        }
        rest := rest - {vid};
      }
      assert Busiest(evidenceCountByValidator, maxValidator);
      var k := 0;
      while k < |evidence| && evidence[k].validatorId != maxValidator
        invariant 0 <= k <= |evidence|
        invariant forall j :: 0 <= j < k ==> evidence[j].validatorId != maxValidator
      {
        k := k + 1;
      }
      if k < |evidence| {
        ghost var e0, c0 := evidence, evidenceCountByValidator;
        CountRemoved(evidence, k, maxValidator);
        assert CountFor(e0, maxValidator) <= Counter(c0, maxValidator);
        evidence := RemoveAt(evidence, k);
        var count := Counter(evidenceCountByValidator, maxValidator);
        evidenceCountByValidator := evidenceCountByValidator[maxValidator := count - 1];
        forall x ensures CountFor(evidence, x) <= Counter(evidenceCountByValidator, x) {
          CountRemoved(e0, k, x);
          assert CountFor(e0, x) <= Counter(c0, x);
        }
      }
    }

    method PruneOldHeights()
      modifies this`votes
      ensures votes == Prune(old(votes), maxTrackedHeights)
    {
      if |votes| <= maxTrackedHeights {
        return;
      }
      ghost var before := votes;
      var heights := Ascending(votes.Keys);
      var toRemove := |heights| - maxTrackedHeights;
      assert heights[0..] == heights;
      for i := 0 to toRemove
        invariant Lists(heights[i..], votes) && |votes| == |heights| - i
        invariant Prune(votes, maxTrackedHeights) == Prune(before, maxTrackedHeights)
      {
        DropFirst(heights[i..], votes, maxTrackedHeights);
        NextSuffix(heights, i);
        votes := votes - {heights[i]};
      }
    }

    /** Keeps exactly the evidence at `height` or above, in order. */
    method ClearEvidenceBefore(height: int) returns (removed: nat)
      requires Valid()
      modifies this`evidence, this`evidenceCountByValidator
      ensures Valid()
      ensures evidence == KeepFrom(old(evidence), height)
      ensures removed == |old(evidence)| - |evidence|
      ensures CountersLowered(old(evidence), evidence, [], old(evidenceCountByValidator), evidenceCountByValidator)
    {
      ghost var before := evidence;
      var writeIdx, length := 0, |evidence|;
      assert before[0..] == before;
      assert forall id :: CountFor(before[..0], id) == 0;
      for i := 0 to length
        invariant |evidence| == length == |before| && Compacted(before, evidence, i, writeIdx, height)
        invariant Covers(evidence[..writeIdx], before[i..], evidenceCountByValidator)
        invariant CountersLowered(before, evidence[..writeIdx], before[i..], old(evidenceCountByValidator),
                                  evidenceCountByValidator)
        invariant forall id :: id in evidenceCountByValidator ==>
                  evidenceCountByValidator[id] <= maxEvidencePerValidator
      {
        var e := evidence[i];
        CompactStep(before, evidence, i, writeIdx, height);
        assert before[i..] == [e] + before[i + 1..];
        if e.height >= height {
          CoversKept(evidence[..writeIdx], e, before[i + 1..], evidenceCountByValidator);
          CountersKept(before, evidence[..writeIdx], e, before[i + 1..], old(evidenceCountByValidator),
                       evidenceCountByValidator);
          evidence := evidence[writeIdx := e];
          writeIdx := writeIdx + 1;
        } else {
          CoversDropped(evidence[..writeIdx], e, before[i + 1..], evidenceCountByValidator);
          CountersDropped(before, evidence[..writeIdx], e, before[i + 1..], old(evidenceCountByValidator),
                          evidenceCountByValidator);
          evidenceCountByValidator := Decremented(evidenceCountByValidator, e.validatorId);
        }
      }
      assert before[..length] == before && before[length..] == [];
      removed := |evidence| - writeIdx;
      evidence := evidence[..writeIdx];
    }
  }

  // ----- the table against the full history of votes

  ghost function HeightsAbove(history: seq<Cast>, h: int): set<int> {
    set v | v in history && v.height > h :: v.height
  }

  lemma RecordedAfterPrune(t: VoteTable, max: nat, h: int, kind: VoteKind, id: string)
    ensures Recorded(Prune(t, max), h, kind, id) == if h in Prune(t, max) then Recorded(t, h, kind, id) else ""
  {
  }

  lemma RecordedAfterPut(t: VoteTable, h: int, kind: VoteKind, id: string, hash: string, h': int, kind': VoteKind,
                         id': string)
    ensures Recorded(Put(t, h, kind, id, hash), h', kind', id')
            == if h == h' && kind == kind' && id == id' then hash else Recorded(t, h', kind', id')
  {
  }

  /** Bounded: never more than `max` heights are kept, and all of them come from recorded votes. */
  lemma {:induction false} TableBounded(history: seq<Cast>, max: nat)
    ensures |Table(history, max)| <= max
    ensures forall h :: h in Table(history, max) ==> exists v :: v in history && v.height == h
  {
    if history != [] {
      var init, v := history[..|history| - 1], history[|history| - 1];
      TableBounded(init, max);
      var t := Table(init, max);
      assert v in history && forall w :: w in init ==> w in history;
      if Conflict(t, v) == "" {
        var p := Put(t, v.height, v.kind, Lower(v.voter), v.hash);
        assert p.Keys == t.Keys + {v.height};
        assert Prune(p, max).Keys == Highest(p.Keys, max);
      }
    }
  }

  /** Sound: whatever is recorded was cast, so a conflict names two votes of one validator at one height and phase. */
  lemma {:induction false} RecordedWasCast(history: seq<Cast>, max: nat, h: int, kind: VoteKind, id: string)
    requires Recorded(Table(history, max), h, kind, id) != ""
    ensures exists v :: v in history && Lower(v.voter) == id && v.height == h && v.kind == kind
                        && v.hash == Recorded(Table(history, max), h, kind, id)
  {
    var init, last := history[..|history| - 1], history[|history| - 1];
    var t := Table(init, max);
    assert last in history && forall w :: w in init ==> w in history;
    if Conflict(t, last) == "" {
      var p := Put(t, last.height, last.kind, Lower(last.voter), last.hash);
      RecordedAfterPrune(p, max, h, kind, id);
      RecordedAfterPut(t, last.height, last.kind, Lower(last.voter), last.hash, h, kind, id);
      if !(last.height == h && last.kind == kind && Lower(last.voter) == id) {
        RecordedWasCast(init, max, h, kind, id);
      }
    } else {
      RecordedWasCast(init, max, h, kind, id);
    }
  }

  lemma EvidenceSound(history: seq<Cast>, max: nat, v: Cast)
    requires Conflict(Table(history, max), v) != ""
    ensures exists w :: w in history && Lower(w.voter) == Lower(v.voter) && w.height == v.height && w.kind == v.kind
                        && w.hash == Conflict(Table(history, max), v) && w.hash != v.hash
  {
    RecordedWasCast(history, max, v.height, v.kind, Lower(v.voter));
  }

  /** The call for vote number `n` of the history returns evidence. */
  ghost predicate Flagged(history: seq<Cast>, max: nat, n: nat)
    requires n < |history|
  {
    Conflict(Table(history[..n], max), history[n]) != ""
  }

  lemma TableStep(history: seq<Cast>, max: nat, n: nat)
    requires n < |history|
    ensures Table(history[..n + 1], max) == Record(Table(history[..n], max), max, history[n])
  {
    assert history[..n + 1][..n] == history[..n];
  }

  ghost predicate RetainedAt(history: seq<Cast>, max: nat, h: int, n: nat)
    requires n <= |history|
  {
    h in Table(history[..n], max)
  }

  ghost function RecordedAt(history: seq<Cast>, max: nat, h: int, kind: VoteKind, id: string, n: nat): string
    requires n <= |history|
  {
    Recorded(Table(history[..n], max), h, kind, id)
  }

  lemma StaysOneStep(history: seq<Cast>, max: nat, h: int, kind: VoteKind, id: string, n: nat)
    requires n < |history| && RecordedAt(history, max, h, kind, id, n) != "" && RetainedAt(history, max, h, n + 1)
    ensures RecordedAt(history, max, h, kind, id, n + 1) == RecordedAt(history, max, h, kind, id, n)
  {
    TableStep(history, max, n);
    RecordKeeps(Table(history[..n], max), max, history[n], h, kind, id);
  }

  /** A recorded hash stays as long as its height is retained. */
  lemma {:induction false} RecordedStays(history: seq<Cast>, max: nat, h: int, kind: VoteKind, id: string, i: nat,
                                         j: nat)
    requires i <= j <= |history|
    requires RecordedAt(history, max, h, kind, id, i) != ""
    requires forall n :: i <= n <= j ==> RetainedAt(history, max, h, n)
    ensures RecordedAt(history, max, h, kind, id, j) == RecordedAt(history, max, h, kind, id, i)
  {
    if i < j {
      RecordedStays(history, max, h, kind, id, i, j - 1);
      StaysOneStep(history, max, h, kind, id, j - 1);
    }
  }

  lemma RecordKeeps(t: VoteTable, max: nat, v: Cast, h: int, kind: VoteKind, id: string)
    requires Recorded(t, h, kind, id) != "" && h in Record(t, max, v)
    ensures Recorded(Record(t, max, v), h, kind, id) == Recorded(t, h, kind, id)
  {
    if Conflict(t, v) == "" {
      RecordedAfterPrune(Put(t, v.height, v.kind, Lower(v.voter), v.hash), max, h, kind, id);
      RecordedAfterPut(t, v.height, v.kind, Lower(v.voter), v.hash, h, kind, id);
    }
  }

  /** A vote that is not flagged is what the table holds afterwards, if its height is retained. */
  lemma UnflaggedIsRecorded(t: VoteTable, max: nat, v: Cast)
    requires Conflict(t, v) == "" && v.height in Record(t, max, v)
    ensures Recorded(Record(t, max, v), v.height, v.kind, Lower(v.voter)) == v.hash
  {
    var p := Put(t, v.height, v.kind, Lower(v.voter), v.hash);
    RecordedAfterPrune(p, max, v.height, v.kind, Lower(v.voter));
    RecordedAfterPut(t, v.height, v.kind, Lower(v.voter), v.hash, v.height, v.kind, Lower(v.voter));
  }

  ghost predicate SameSlot(v: Cast, w: Cast) {
    Lower(v.voter) == Lower(w.voter) && v.height == w.height && v.kind == w.kind
  }

  /**
   * Complete: of two different votes in one slot, with the height retained in
   * between, one of the two calls returns evidence.
   */
  lemma TwoHashesFlagged(history: seq<Cast>, max: nat, i: nat, j: nat)
    requires i < j < |history| && SameSlot(history[i], history[j])
    requires history[i].hash != history[j].hash && history[i].hash != ""
    requires forall n :: i < n <= j ==> RetainedAt(history, max, history[i].height, n)
    ensures Flagged(history, max, i) || Flagged(history, max, j)
  {
    if !Flagged(history, max, i) {
      var v := history[i];
      TableStep(history, max, i);
      assert RetainedAt(history, max, v.height, i + 1);
      UnflaggedIsRecorded(Table(history[..i], max), max, v);
      RecordedStays(history, max, v.height, v.kind, Lower(v.voter), i + 1, j);
    }
  }

  /** A height with fewer than `max` higher ones in the history is retained from its first vote on. */
  lemma {:induction false} WindowRetains(history: seq<Cast>, max: nat, h: int, i: nat, n: nat)
    requires i < n <= |history| && history[i].height == h
    requires |HeightsAbove(history, h)| < max
    ensures h in Table(history[..n], max)
    decreases n
  {
    var t, v := Table(history[..n - 1], max), history[n - 1];
    TableStep(history, max, n - 1);
    if i < n - 1 {
      WindowRetains(history, max, h, i, n - 1);
    }
    if Conflict(t, v) == "" {
      TableInHistory(history, max, h, n - 1);
      assert v in history;
      RecordRetains(t, max, v, h, HeightsAbove(history, h));
    }
  }

  lemma TableInHistory(history: seq<Cast>, max: nat, h: int, n: nat)
    requires n <= |history|
    ensures forall x :: x in Table(history[..n], max) && x > h ==> x in HeightsAbove(history, h)
  {
    TableBounded(history[..n], max);
    forall x | x in Table(history[..n], max) && x > h ensures x in HeightsAbove(history, h) {
      var w :| w in history[..n] && w.height == x;
      assert w in history;
    }
  }

  lemma RecordRetains(t: VoteTable, max: nat, v: Cast, h: int, above: set<int>)
    requires h in t || v.height == h
    requires Conflict(t, v) == "" && |above| < max
    requires (forall x :: x in t && x > h ==> x in above) && (v.height > h ==> v.height in above)
    ensures h in Record(t, max, v)
  {
    var p := Put(t, v.height, v.kind, Lower(v.voter), v.hash);
    assert p.Keys == t.Keys + {v.height};
    HighestKeeps(p.Keys, max, h, above);
  }

  // ----- exactly when a vote is flagged

  /** The first non-empty hash cast in the slot of `v`, or "". */
  ghost function FirstHash(history: seq<Cast>, v: Cast): string {
    if history == [] then ""
    else
      var first, last := FirstHash(history[..|history| - 1], v), history[|history| - 1];
      if first != "" then first else if SameSlot(last, v) then last.hash else ""
  }

  lemma {:induction false} FirstHashWasCast(history: seq<Cast>, v: Cast) returns (i: nat)
    requires FirstHash(history, v) != ""
    ensures i < |history| && SameSlot(history[i], v) && history[i].hash == FirstHash(history, v)
  {
    var init := history[..|history| - 1];
    if FirstHash(init, v) != "" {
      i := FirstHashWasCast(init, v);
    } else {
      i := |history| - 1;
    }
  }

  lemma {:induction false} FirstHashOfSlot(history: seq<Cast>, v: Cast, w: Cast)
    requires SameSlot(v, w)
    ensures FirstHash(history, v) == FirstHash(history, w)
  {
    if history != [] {
      FirstHashOfSlot(history[..|history| - 1], v, w);
    }
  }

  /** Once the height has a vote it is retained, up to vote number `n`. */
  ghost predicate Kept(history: seq<Cast>, max: nat, h: int, n: nat)
    requires n <= |history|
  {
    forall i, k :: 0 <= i < k <= n && history[i].height == h ==> RetainedAt(history, max, h, k)
  }

  lemma FirstOfNext(history: seq<Cast>, v: Cast, n: nat)
    requires n < |history|
    ensures FirstHash(history[..n + 1], v)
            == if FirstHash(history[..n], v) != "" then FirstHash(history[..n], v)
               else if SameSlot(history[n], v) then history[n].hash else ""
  {
    assert history[..n + 1][..n] == history[..n];
  }

  lemma RecordedNext(t: VoteTable, max: nat, w: Cast, v: Cast)
    requires v.height in Record(t, max, w)
    ensures var before := Recorded(t, v.height, v.kind, Lower(v.voter));
            Recorded(Record(t, max, w), v.height, v.kind, Lower(v.voter))
            == if before != "" then before else if SameSlot(w, v) then w.hash else ""
  {
    if Conflict(t, w) == "" {
      var p := Put(t, w.height, w.kind, Lower(w.voter), w.hash);
      RecordedAfterPrune(p, max, v.height, v.kind, Lower(v.voter));
      RecordedAfterPut(t, w.height, w.kind, Lower(w.voter), w.hash, v.height, v.kind, Lower(v.voter));
    }
  }

  lemma FirstStep(history: seq<Cast>, max: nat, v: Cast, n: nat)
    requires n < |history| && RetainedAt(history, max, v.height, n + 1)
    requires RecordedAt(history, max, v.height, v.kind, Lower(v.voter), n) == FirstHash(history[..n], v)
    ensures RecordedAt(history, max, v.height, v.kind, Lower(v.voter), n + 1) == FirstHash(history[..n + 1], v)
  {
    FirstOfNext(history, v, n);
    TableStep(history, max, n);
    RecordedNext(Table(history[..n], max), max, history[n], v);
  }

  lemma NothingCast(history: seq<Cast>, max: nat, v: Cast, n: nat)
    requires n <= |history| && Kept(history, max, v.height, n) && !RetainedAt(history, max, v.height, n)
    ensures FirstHash(history[..n], v) == ""
  {
    if FirstHash(history[..n], v) != "" {
      var i := FirstHashWasCast(history[..n], v);
    }
  }

  /** While a height is kept, the table holds the first non-empty hash of each of its slots. */
  lemma {:induction false} RecordedIsFirst(history: seq<Cast>, max: nat, v: Cast, n: nat)
    requires n <= |history| && Kept(history, max, v.height, n)
    ensures RecordedAt(history, max, v.height, v.kind, Lower(v.voter), n) == FirstHash(history[..n], v)
  {
    if !RetainedAt(history, max, v.height, n) {
      NothingCast(history, max, v, n);
    } else if n > 0 {
      RecordedIsFirst(history, max, v, n - 1);
      FirstStep(history, max, v, n - 1);
    }
  }

  /** A vote is flagged if and only if its slot has a first non-empty hash, and that is another one. */
  lemma FlaggedExactly(history: seq<Cast>, max: nat, n: nat)
    requires n < |history| && Kept(history, max, history[n].height, n)
    ensures Flagged(history, max, n) <==> FirstHash(history[..n], history[n]) !in {"", history[n].hash}
  {
    RecordedIsFirst(history, max, history[n], n);
  }

  lemma WindowKeeps(history: seq<Cast>, max: nat, h: int)
    requires |HeightsAbove(history, h)| < max
    ensures Kept(history, max, h, |history|)
  {
    forall i, k | 0 <= i < k <= |history| && history[i].height == h ensures RetainedAt(history, max, h, k) {
      WindowRetains(history, max, h, i, k);
    }
  }

  /** In terms of the history alone: this holds for every vote with fewer than `max` higher heights in the history. */
  lemma FlaggedExactlyInWindow(history: seq<Cast>, max: nat, n: nat)
    requires n < |history| && |HeightsAbove(history, history[n].height)| < max
    ensures Flagged(history, max, n) <==> FirstHash(history[..n], history[n]) !in {"", history[n].hash}
  {
    WindowKeeps(history, max, history[n].height);
    FlaggedExactly(history, max, n);
  }

  /**
   * Of two different votes in one slot one is flagged, if and only if the first is
   * not empty or a non-empty one stands against either.
   */
  lemma TwoHashesFlaggedInWindow(history: seq<Cast>, max: nat, i: nat, j: nat)
    requires i < j < |history| && SameSlot(history[i], history[j]) && history[i].hash != history[j].hash
    requires |HeightsAbove(history, history[i].height)| < max
    ensures Flagged(history, max, i) || Flagged(history, max, j)
            <==> history[i].hash != "" || FirstHash(history[..i], history[i]) != ""
                 || FirstHash(history[..j], history[j]) !in {"", history[j].hash}
  {
    FlaggedExactlyInWindow(history, max, i);
    FlaggedExactlyInWindow(history, max, j);
    FirstHashOfSlot(history[..i], history[i], history[j]);
    if history[i].hash != "" {
      FirstHashPersists(history, history[j], i, j);
    }
  }

  /** The first hash of a slot does not change, and is the vote's own if there was none before. */
  lemma {:induction false} FirstHashPersists(history: seq<Cast>, v: Cast, i: nat, j: nat)
    requires i < j <= |history| && SameSlot(history[i], v) && history[i].hash != ""
    ensures FirstHash(history[..j], v)
            == if FirstHash(history[..i], v) != "" then FirstHash(history[..i], v) else history[i].hash
  {
    FirstOfNext(history, v, j - 1);
    if i < j - 1 {
      FirstHashPersists(history, v, i, j - 1);
    }
  }

  /** Some vote in the slot of `v` follows an earlier non-empty one with another hash. */
  ghost predicate VotedTwice(history: seq<Cast>, v: Cast) {
    exists i, j :: 0 <= i < j < |history| && SameSlot(history[i], v) && SameSlot(history[j], v)
                   && history[i].hash != "" && history[i].hash != history[j].hash
  }

  ghost predicate SlotFlagged(history: seq<Cast>, max: nat, v: Cast) {
    exists n :: 0 <= n < |history| && SameSlot(history[n], v) && Flagged(history, max, n)
  }

  /** Sound and complete: a slot is flagged if and only if an earlier non-empty hash meets a different one. */
  lemma SlotFlaggedExactly(history: seq<Cast>, max: nat, v: Cast)
    requires |HeightsAbove(history, v.height)| < max
    ensures SlotFlagged(history, max, v) <==> VotedTwice(history, v)
  {
    if SlotFlagged(history, max, v) {
      var n :| 0 <= n < |history| && SameSlot(history[n], v) && Flagged(history, max, n);
      FlaggedExactlyInWindow(history, max, n);
      var i := FirstHashWasCast(history[..n], history[n]);
      assert SameSlot(history[i], v) && history[i].hash != history[n].hash;
    }
    if VotedTwice(history, v) {
      var i, j :| 0 <= i < j < |history| && SameSlot(history[i], v) && SameSlot(history[j], v)
                  && history[i].hash != "" && history[i].hash != history[j].hash;
      TwoHashesFlaggedInWindow(history, max, i, j);
    }
  }

  /** Why the first hash must not be empty: an empty recorded hash can be voted away unnoticed. */
  lemma EmptyHashEscapes(id: string, h: int, kind: VoteKind, hash: string)
    ensures var history := [Cast(id, h, kind, ""), Cast(id, h, kind, hash)];
            !Flagged(history, 100, 0) && !Flagged(history, 100, 1)
  {
    var history := [Cast(id, h, kind, ""), Cast(id, h, kind, hash)];
    TableStep(history, 100, 0);
    assert history[..0] == [];
    var p := Put(map[], h, kind, Lower(id), "");
    RecordedAfterPrune(p, 100, h, kind, Lower(id));
    RecordedAfterPut(map[], h, kind, Lower(id), "", h, kind, Lower(id));
  }
}
