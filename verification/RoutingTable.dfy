/** The k-buckets of the routing table and its count of peers per host. Calls run one at a time. */
module RoutingTable {
  import opened Options
  import opened Kademlia
  import opened Select

  const K: nat := 20
  const ID_BITS: nat := 256
  const MAX_PEERS_PER_IP_PER_BUCKET: nat := 2
  const MAX_PEERS_PER_IP_GLOBAL: nat := 10

  datatype Peer = Peer(id: string, address: string, lastSeenMs: int)

  /** A call may throw: on an id that is not hexadecimal, or one that is too far away for 256 buckets. */
  datatype Call<T> = Returned(value: T) | Threw

  type Bucket = seq<Peer>
  type HostOf = string -> string

  function StartsWith(s: string, prefix: string): bool { prefix <= s }

  predicate IsLoopbackHost(host: string) {
    host == "localhost" || host == "::1" || StartsWith(host, "127.") || StartsWith(host, "::ffff:127.")
  }

  /**
   * The bucket of an id; past the last bucket if either id is malformed, since looking for the bucket throws then too.
   */
  function BucketOf(localId: string, id: string): nat {
    if IsHex(localId) && IsHex(id) then Kademlia.Bucket(Distance(Bytes(localId), Bytes(id))) else ID_BITS
  }

  // ----- one bucket

  predicate HasId(b: Bucket, id: string) { exists k :: 0 <= k < |b| && b[k].id == id }

  function FindById(b: Bucket, id: string): Option<Peer> {
    if b == [] then None else if b[0].id == id then Some(b[0]) else FindById(b[1..], id)
  }

  method IndexOfId(b: Bucket, id: string) returns (i: int)
    ensures if i >= 0 then i < |b| && b[i].id == id && (forall j :: 0 <= j < i ==> b[j].id != id) else !HasId(b, id)
  {
    for k := 0 to |b|
      invariant forall j :: 0 <= j < k ==> b[j].id != id
    {
      if b[k].id == id { return k; }
    }
    return -1;
  }

  function Without(b: Bucket, k: nat): Bucket
    requires k < |b|
  {
    b[..k] + b[k + 1..]
  }

  ghost predicate Belongs(localId: string, p: Peer, i: nat)
  {
    IsHex(p.id) && BucketOf(localId, p.id) == i
  }

  ghost predicate DistinctIds(b: Bucket) { forall j, k :: 0 <= j < k < |b| ==> b[j].id != b[k].id }

  /** At most K peers, no id twice, all at the distance of bucket `i`. */
  ghost predicate BucketOk(localId: string, b: Bucket, i: nat)
  {
    |b| <= K && DistinctIds(b) && forall k :: 0 <= k < |b| ==> Belongs(localId, b[k], i)
  }

  lemma WithoutAt(b: Bucket, k: nat)
    requires k < |b|
    ensures |Without(b, k)| == |b| - 1
    ensures forall j :: 0 <= j < |b| - 1 ==> Without(b, k)[j] == b[if j < k then j else j + 1]
  {
  }

  lemma WithoutDistinct(b: Bucket, k: nat)
    requires k < |b| && DistinctIds(b)
    ensures DistinctIds(Without(b, k)) && !HasId(Without(b, k), b[k].id)
  {
    WithoutAt(b, k);
  }

  lemma WithoutOk(localId: string, b: Bucket, i: nat, k: nat)
    requires BucketOk(localId, b, i) && k < |b|
    ensures BucketOk(localId, Without(b, k), i) && !HasId(Without(b, k), b[k].id) && |Without(b, k)| == |b| - 1
  {
    WithoutDistinct(b, k);
    WithoutAt(b, k);
    forall j | 0 <= j < |b| - 1 ensures Belongs(localId, Without(b, k)[j], i) {
      assert Belongs(localId, b[if j < k then j else j + 1], i);
    }
  }

  lemma AppendOk(localId: string, b: Bucket, i: nat, p: Peer)
    requires BucketOk(localId, b, i) && |b| < K && Belongs(localId, p, i) && !HasId(b, p.id)
    ensures BucketOk(localId, b + [p], i)
  {
  }

  function CountHost(b: Bucket, hostOf: HostOf, h: string): nat {
    if b == [] then 0 else CountHost(b[..|b| - 1], hostOf, h) + (if hostOf(b[|b| - 1].address) == h then 1 else 0)
  }

  lemma {:induction false} CountConcat(a: Bucket, b: Bucket, hostOf: HostOf, h: string)
    ensures CountHost(a + b, hostOf, h) == CountHost(a, hostOf, h) + CountHost(b, hostOf, h)
  {
    if b == [] {
      assert a + b == a;
    } else {
      assert (a + b)[..|a + b| - 1] == a + b[..|b| - 1];
      CountConcat(a, b[..|b| - 1], hostOf, h);
    }
  }

  function One(p: Peer, hostOf: HostOf, h: string): nat { if hostOf(p.address) == h then 1 else 0 }

  lemma CountAppend(b: Bucket, p: Peer, hostOf: HostOf, h: string)
    ensures CountHost(b + [p], hostOf, h) == CountHost(b, hostOf, h) + One(p, hostOf, h)
  {
    assert (b + [p])[..|b|] == b;
  }

  lemma CountWithout(b: Bucket, k: nat, hostOf: HostOf, h: string)
    requires k < |b|
    ensures CountHost(b, hostOf, h) == CountHost(Without(b, k), hostOf, h) + One(b[k], hostOf, h)
  {
    assert b == b[..k] + [b[k]] + b[k + 1..];
    CountConcat(b[..k] + [b[k]], b[k + 1..], hostOf, h);
    CountAppend(b[..k], b[k], hostOf, h);
    CountConcat(b[..k], b[k + 1..], hostOf, h);
  }

  // ----- all buckets

  ghost predicate Placed(localId: string, buckets: seq<Bucket>)
  {
    |buckets| == ID_BITS && forall i :: 0 <= i < |buckets| ==> BucketOk(localId, buckets[i], i)
  }

  function Flatten(buckets: seq<Bucket>): Bucket {
    if buckets == [] then [] else Flatten(buckets[..|buckets| - 1]) + buckets[|buckets| - 1]
  }

  function HostCount(buckets: seq<Bucket>, hostOf: HostOf, h: string): nat {
    CountHost(Flatten(buckets), hostOf, h)
  }

  lemma {:induction false} HostCountUpdate(buckets: seq<Bucket>, i: nat, b: Bucket, hostOf: HostOf, h: string)
    requires i < |buckets|
    ensures HostCount(buckets[i := b], hostOf, h) + CountHost(buckets[i], hostOf, h)
            == HostCount(buckets, hostOf, h) + CountHost(b, hostOf, h)
  {
    var n := |buckets| - 1;
    var init, whole := buckets[..n], buckets[i := b];
    CountConcat(Flatten(init), buckets[n], hostOf, h);
    CountConcat(Flatten(whole[..n]), whole[n], hostOf, h);
    if i < n {
      assert whole[..n] == init[i := b];
      HostCountUpdate(init, i, b, hostOf, h);
    } else {
      assert whole[..n] == init;
    }
  }

  function Tally(m: map<string, nat>, h: string): nat { if h in m then m[h] else 0 }

  function Incremented(m: map<string, nat>, h: string): map<string, nat> { m[h := Tally(m, h) + 1] }

  function Decremented(m: map<string, nat>, h: string): map<string, nat> {
    var count := (if h in m then m[h] as int else 1) - 1;
    if count <= 0 then m - {h} else m[h := count]
  }

  /** The counter of every host is the number of its peers in the table, and no counter is zero. */
  ghost predicate Exact(m: map<string, nat>, buckets: seq<Bucket>, hostOf: HostOf) {
    (forall h :: Tally(m, h) == HostCount(buckets, hostOf, h)) && (forall h :: h in m ==> m[h] > 0)
  }

  lemma {:induction false} MemberCounts(b: Bucket, k: nat, hostOf: HostOf)
    requires k < |b|
    ensures CountHost(b, hostOf, hostOf(b[k].address)) >= 1
  {
    CountWithout(b, k, hostOf, hostOf(b[k].address));
  }

  lemma {:induction false} BucketCountsIn(buckets: seq<Bucket>, i: nat, hostOf: HostOf, h: string)
    requires i < |buckets|
    ensures CountHost(buckets[i], hostOf, h) <= HostCount(buckets, hostOf, h)
  {
    HostCountUpdate(buckets, i, [], hostOf, h);
  }

  lemma ExactAppend(m: map<string, nat>, buckets: seq<Bucket>, i: nat, p: Peer, hostOf: HostOf)
    requires i < |buckets| && Exact(m, buckets, hostOf)
    ensures Exact(Incremented(m, hostOf(p.address)), buckets[i := buckets[i] + [p]], hostOf)
  {
    forall h
      ensures Tally(Incremented(m, hostOf(p.address)), h) == HostCount(buckets[i := buckets[i] + [p]], hostOf, h)
    {
      HostCountUpdate(buckets, i, buckets[i] + [p], hostOf, h);
      CountAppend(buckets[i], p, hostOf, h);
    }
  }

  lemma ExactWithout(m: map<string, nat>, buckets: seq<Bucket>, i: nat, k: nat, hostOf: HostOf)
    requires i < |buckets| && k < |buckets[i]| && Exact(m, buckets, hostOf)
    ensures Exact(Decremented(m, hostOf(buckets[i][k].address)), buckets[i := Without(buckets[i], k)], hostOf)
  {
    var host := hostOf(buckets[i][k].address);
    MemberCounts(buckets[i], k, hostOf);
    BucketCountsIn(buckets, i, hostOf, host);
    assert Tally(m, host) >= 1;
    forall h ensures Tally(Decremented(m, host), h) == HostCount(buckets[i := Without(buckets[i], k)], hostOf, h) {
      HostCountUpdate(buckets, i, Without(buckets[i], k), hostOf, h);
      CountWithout(buckets[i], k, hostOf, h);
    }
  }

  /** Replacing a peer by one of the same host changes no counter. */
  lemma ExactSameHost(m: map<string, nat>, buckets: seq<Bucket>, i: nat, k: nat, p: Peer, hostOf: HostOf)
    requires i < |buckets| && k < |buckets[i]| && Exact(m, buckets, hostOf)
             && hostOf(p.address) == hostOf(buckets[i][k].address)
    ensures Exact(m, buckets[i := Without(buckets[i], k) + [p]], hostOf)
  {
    forall h ensures Tally(m, h) == HostCount(buckets[i := Without(buckets[i], k) + [p]], hostOf, h) {
      HostCountUpdate(buckets, i, Without(buckets[i], k) + [p], hostOf, h);
      CountWithout(buckets[i], k, hostOf, h);
      CountAppend(Without(buckets[i], k), p, hostOf, h);
    }
  }

  // ----- lookup agrees with a scan of the whole table

  lemma {:induction false} FindConcat(a: Bucket, b: Bucket, id: string)
    ensures FindById(a + b, id) == if FindById(a, id).Some? then FindById(a, id) else FindById(b, id)
  {
    if a == [] {
      assert a + b == b;
    } else {
      assert (a + b)[1..] == a[1..] + b;
      FindConcat(a[1..], b, id);
    }
  }

  lemma {:induction false} FindExactly(b: Bucket, id: string)
    ensures FindById(b, id).None? <==> !HasId(b, id)
    ensures FindById(b, id).Some? ==> FindById(b, id).value in b && FindById(b, id).value.id == id
  {
    if b != [] {
      FindExactly(b[1..], id);
      assert forall k :: 0 < k < |b| ==> b[k] == b[1..][k - 1];
      assert b[0].id != id && HasId(b, id) ==> HasId(b[1..], id);
      if k :| 0 <= k < |b[1..]| && b[1..][k].id == id {
        assert b[k + 1].id == id;
      }
    }
  }

  lemma NotElsewhere(localId: string, b: Bucket, id: string, i: nat)
    requires IsHex(id) && BucketOk(localId, b, i) && BucketOf(localId, id) != i
    ensures FindById(b, id) == None
  {
    assert forall k :: 0 <= k < |b| ==> Belongs(localId, b[k], i) && b[k].id != id;
    FindExactly(b, id);
  }

  lemma FlattenNext(buckets: seq<Bucket>, n: nat)
    requires n < |buckets|
    ensures Flatten(buckets[..n + 1]) == Flatten(buckets[..n]) + buckets[n]
  {
    assert buckets[..n + 1][..n] == buckets[..n];
  }

  lemma {:induction false} ScanPrefix(buckets: seq<Bucket>, id: string, k: nat, n: nat)
    requires k < |buckets| && n <= |buckets|
    requires forall i :: 0 <= i < |buckets| && i != k ==> FindById(buckets[i], id) == None
    ensures FindById(Flatten(buckets[..n]), id) == if k < n then FindById(buckets[k], id) else None
  {
    if n > 0 {
      ScanPrefix(buckets, id, k, n - 1);
      FlattenNext(buckets, n - 1);
      FindConcat(Flatten(buckets[..n - 1]), buckets[n - 1], id);
    }
  }

  /** Looking in one bucket finds what a scan of all peers finds. */
  lemma LookupIsScan(localId: string, buckets: seq<Bucket>, id: string)
    requires IsHex(id) && Placed(localId, buckets) && BucketOf(localId, id) < |buckets|
    ensures FindById(buckets[BucketOf(localId, id)], id) == FindById(Flatten(buckets), id)
  {
    var k := BucketOf(localId, id);
    forall i | 0 <= i < |buckets| && i != k ensures FindById(buckets[i], id) == None {
      NotElsewhere(localId, buckets[i], id, i);
    }
    ScanPrefix(buckets, id, k, |buckets|);
    assert buckets[..|buckets|] == buckets;
  }

  // ----- adding to a bucket

  predicate OverQuota(b: Bucket, hostOf: HostOf, host: string, globalCount: nat) {
    !IsLoopbackHost(host)
    && (CountHost(b, hostOf, host) >= MAX_PEERS_PER_IP_PER_BUCKET || globalCount >= MAX_PEERS_PER_IP_GLOBAL)
  }

  datatype Offer = Offer(bucket: Bucket, accepted: bool)

  function Stamped(p: Peer, now: int): Peer { p.(lastSeenMs := now) }

  /**
   * A known peer moves to the tail; a new one needs quota and room, or an oldest peer that does not answer the ping.
   */
  function OfferTo(b: Bucket, p: Peer, hostOf: HostOf, globalCount: nat, ping: Option<bool>): Offer {
    if HasId(b, p.id) then Offer(Without(b, FirstWithId(b, p.id)) + [p], true)
    else if OverQuota(b, hostOf, hostOf(p.address), globalCount) then Offer(b, false)
    else if |b| < K then Offer(b + [p], true)
    else match ping
      case None => Offer(b, false)
      case Some(true) => Offer(Without(b, 0) + [Stamped(b[0], p.lastSeenMs)], false)
      case Some(false) => Offer(Without(b, 0) + [p], true)
  }

  function FirstWithId(b: Bucket, id: string): (k: nat)
    requires HasId(b, id)
    ensures k < |b| && b[k].id == id && forall j :: 0 <= j < k ==> b[j].id != id
  {
    if b[0].id == id then 0
    else
      assert HasId(b[1..], id) by {
        var j :| 0 <= j < |b| && b[j].id == id;
        assert b[1..][j - 1].id == id;
      }
      1 + FirstWithId(b[1..], id)
  }

  lemma FirstIs(b: Bucket, id: string, k: nat)
    requires k < |b| && b[k].id == id && forall j :: 0 <= j < k ==> b[j].id != id
    ensures HasId(b, id) && FirstWithId(b, id) == k
  {
  }

  lemma OfferKeeps(localId: string, b: Bucket, i: nat, p: Peer, hostOf: HostOf, globalCount: nat, ping: Option<bool>)
    requires BucketOk(localId, b, i) && Belongs(localId, p, i)
    ensures BucketOk(localId, OfferTo(b, p, hostOf, globalCount, ping).bucket, i)
  {
    if HasId(b, p.id) {
      var k := FirstWithId(b, p.id);
      WithoutOk(localId, b, i, k);
      AppendOk(localId, Without(b, k), i, p);
    } else if |b| < K {
      AppendOk(localId, b, i, p);
    } else {
      WithoutOk(localId, b, i, 0);
      WithoutAt(b, 0);
      assert Belongs(localId, b[0], i);
      var oldest := Stamped(b[0], p.lastSeenMs);
      AppendOk(localId, Without(b, 0), i, oldest);
      AppendOk(localId, Without(b, 0), i, p);
    }
  }

  /** The host is not this machine, and has two peers in the bucket or ten in the table already. */
  ghost predicate Crowded(b: Bucket, hostOf: HostOf, host: string, globalCount: nat) {
    !(host == "localhost" || host == "::1" || "127." <= host || "::ffff:127." <= host)
    && (CountHost(b, hostOf, host) >= 2 || globalCount >= 10)
  }

  /**
   * What an offer comes to. A known id moves to the end. A new one is refused if its host is crowded, and is put at the
   * end if there are fewer than twenty. In a full bucket the oldest gives way exactly if it does not answer the ping;
   * if it answers it moves to the end, and if nobody asked nothing changes.
   */
  lemma OfferExactly(b: Bucket, p: Peer, hostOf: HostOf, globalCount: nat, ping: Option<bool>, k: nat)
    requires |b| <= 20 && k <= |b| && (k < |b| ==> b[k].id == p.id) && forall j :: 0 <= j < k ==> b[j].id != p.id
    ensures var o := OfferTo(b, p, hostOf, globalCount, ping);
            if k < |b| then o.accepted && o.bucket == b[..k] + b[k + 1..] + [p]
            else if Crowded(b, hostOf, hostOf(p.address), globalCount) then !o.accepted && o.bucket == b
            else if |b| < 20 then o.accepted && o.bucket == b + [p]
            else if ping == Some(false) then o.accepted && o.bucket == b[1..] + [p]
            else if ping == Some(true) then !o.accepted && o.bucket == b[1..] + [b[0].(lastSeenMs := p.lastSeenMs)]
            else !o.accepted && o.bucket == b
  {
    if k < |b| {
      FirstIs(b, p.id, k);
    } else if b != [] {
      assert b[..0] + b[1..] == b[1..];
    }
  }

  /** An accepted peer is found afterwards, with the time of the call. */
  lemma AcceptedIsFound(b: Bucket, p: Peer, hostOf: HostOf, globalCount: nat, ping: Option<bool>)
    requires |b| <= 20 && DistinctIds(b) && OfferTo(b, p, hostOf, globalCount, ping).accepted
    ensures FindById(OfferTo(b, p, hostOf, globalCount, ping).bucket, p.id) == Some(p)
  {
    var r := OfferTo(b, p, hostOf, globalCount, ping).bucket;
    var init := r[..|r| - 1];
    assert r == init + [p];
    if HasId(b, p.id) {
      WithoutDistinct(b, FirstWithId(b, p.id));
      assert init == Without(b, FirstWithId(b, p.id));
    } else {
      assert forall j :: 0 <= j < |init| ==> init[j] in b;
    }
    assert !HasId(init, p.id);
    FindExactly(init, p.id);
    FindConcat(init, [p], p.id);
  }

  /** So a peer that was added is what a scan of the table finds for its id. */
  lemma AddedIsFound(localId: string, hostOf: HostOf, buckets: seq<Bucket>, peer: Peer, now: int, ping: Option<bool>)
    requires Placed(localId, buckets)
    requires AddTo(localId, hostOf, buckets, peer, now, ping).result == Returned(true)
    ensures FindById(Flatten(AddTo(localId, hostOf, buckets, peer, now, ping).buckets), peer.id)
            == Some(peer.(lastSeenMs := now))
  {
    var i := BucketOf(localId, peer.id);
    var hosted := HostCount(buckets, hostOf, hostOf(peer.address));
    assert BucketOk(localId, buckets[i], i);
    OfferKeeps(localId, buckets[i], i, Stamped(peer, now), hostOf, hosted, ping);
    AcceptedIsFound(buckets[i], Stamped(peer, now), hostOf, hosted, ping);
    LookupIsScan(localId, AddTo(localId, hostOf, buckets, peer, now, ping).buckets, peer.id);
  }

  /**
   * Adding throws exactly for a proper id beyond the 256 buckets or a malformed local id, refuses the node's own id and
   * one without digits or with a character that is none, and otherwise changes the bucket of the id only.
   */
  lemma AddExactly(localId: string, hostOf: HostOf, buckets: seq<Bucket>, peer: Peer, now: int, ping: Option<bool>)
    requires |buckets| == 256
    ensures var o := AddTo(localId, hostOf, buckets, peer, now, ping);
            var proper := peer.id != localId && |peer.id| >= 3 && IsHex(peer.id);
            if !proper then o == Outcome(buckets, Returned(false))
            else if !IsHex(localId) then o == Outcome(buckets, Threw)
            else var i := Kademlia.Bucket(Distance(Bytes(localId), Bytes(peer.id)));
                 if i >= 256 then o == Outcome(buckets, Threw)
                 else o.result.Returned? && forall j :: 0 <= j < 256 && j != i ==> o.buckets[j] == buckets[j]
  {
  }

  lemma CrowdedOffer(b: Bucket, p: Peer, hostOf: HostOf, globalCount: nat, ping: Option<bool>)
    requires !HasId(b, p.id) && Crowded(b, hostOf, hostOf(p.address), globalCount)
    ensures OfferTo(b, p, hostOf, globalCount, ping) == Offer(b, false)
  {
  }

  /** A new peer of another machine is turned away if its host has ten peers in the table, or two in the bucket. */
  lemma HostQuota(localId: string, hostOf: HostOf, buckets: seq<Bucket>, peer: Peer, now: int, ping: Option<bool>,
                  i: nat)
    requires Placed(localId, buckets) && FindById(Flatten(buckets), peer.id).None?
    requires IsHex(peer.id) && BucketOf(localId, peer.id) == i < 256
    requires var host := hostOf(peer.address);
             Crowded(buckets[i], hostOf, host, CountHost(Flatten(buckets), hostOf, host))
    ensures AddTo(localId, hostOf, buckets, peer, now, ping) == Outcome(buckets, Returned(false))
  {
    LookupIsScan(localId, buckets, peer.id);
    FindExactly(buckets[i], peer.id);
    var hosted := HostCount(buckets, hostOf, hostOf(peer.address));
    CrowdedOffer(buckets[i], Stamped(peer, now), hostOf, hosted, ping);
    assert buckets[i := buckets[i]] == buckets;
  }

  /** Which entries of an import are tried at all. */
  lemma ImportExactly(localId: string, hostOf: HostOf, done: Import, p: Peer, parses: string -> bool,
                      now: int, stamp: int, ping: Option<bool>)
    requires |done.buckets| == ID_BITS
    ensures var wanted := |p.id| >= 3 && p.id[..2] == "0x" && |p.id| <= 66 && IsHex(p.id) && parses(p.address)
                          && 0 <= p.lastSeenMs && p.lastSeenMs - now <= 60_000;
            var r, o := ImportOne(localId, hostOf, done, p, parses, now, stamp, ping),
                        AddTo(localId, hostOf, done.buckets, p, stamp, ping);
            if !wanted then r == done
            else r.buckets == o.buckets && (r.threw <==> o.result.Threw?)
                 && r.added == done.added + if o.result == Returned(true) then 1 else 0
  {
    assert StartsWith(p.id, "0x") <==> |p.id| >= 2 && p.id[..2] == "0x";
  }

  /** Peers closest first. */
  function DistanceCompare(target: string): (Peer, Peer) -> int
    requires IsHex(target)
  {
    (a: Peer, b: Peer) => DistanceTo(target, a) - DistanceTo(target, b)
  }

  /** An id in the table is always hexadecimal; the other case keeps the function total. */
  function DistanceTo(target: string, p: Peer): nat
    requires IsHex(target)
  {
    if IsHex(p.id) then Distance(Bytes(target), Bytes(p.id)) else 0
  }

  lemma DistancePreorder(target: string)
    requires IsHex(target)
    ensures TotalPreorder(DistanceCompare(target)) && SignsAgree(DistanceCompare(target))
  {
    var c := DistanceCompare(target);
    assert forall x, y :: Leq(c, x, y) <==> DistanceTo(target, x) <= DistanceTo(target, y);
  }

  predicate AcceptableId(localId: string, id: string) {
    id != localId && |id| >= 3 && WithoutPrefix(id) != "" && IsHex(id)
  }

  datatype Outcome = Outcome(buckets: seq<Bucket>, result: Call<bool>)

  /** What adding a peer comes to; the quota is judged by a recount of the whole table. */
  function AddTo(localId: string, hostOf: HostOf, buckets: seq<Bucket>, peer: Peer, now: int,
                 ping: Option<bool>): (o: Outcome)
    requires |buckets| == ID_BITS
    ensures |o.buckets| == ID_BITS
  {
    if !AcceptableId(localId, peer.id) then Outcome(buckets, Returned(false))
    else
      var i := BucketOf(localId, peer.id);
      if i >= ID_BITS then Outcome(buckets, Threw)
      else
        var hosted := HostCount(buckets, hostOf, hostOf(peer.address));
        var offer := OfferTo(buckets[i], Stamped(peer, now), hostOf, hosted, ping);
        Outcome(buckets[i := offer.bucket], Returned(offer.accepted))
  }

  predicate Importable(p: Peer, parses: string -> bool, now: int) {
    StartsWith(p.id, "0x") && 3 <= |p.id| <= 66 && IsHex(p.id) && parses(p.address) && 0 <= p.lastSeenMs <= now + 60_000
  }

  datatype Import = Import(buckets: seq<Bucket>, added: nat, threw: bool)

  function ImportOne(localId: string, hostOf: HostOf, done: Import, p: Peer, parses: string -> bool,
                     now: int, stamp: int, ping: Option<bool>): (r: Import)
    requires |done.buckets| == ID_BITS
    ensures |r.buckets| == ID_BITS
  {
    if !Importable(p, parses, now) then done
    else
      var o := AddTo(localId, hostOf, done.buckets, p, stamp, ping);
      match o.result
      case Threw => Import(o.buckets, done.added, true)
      case Returned(ok) => Import(o.buckets, done.added + (if ok then 1 else 0), false)
  }

  /** The import goes on from peer `n`, until the last peer or the first call that throws. */
  function Imported(localId: string, hostOf: HostOf, done: Import, peers: seq<Peer>, n: nat,
                    parses: string -> bool, now: nat -> int, stamp: nat -> int, ping: nat -> Option<bool>): Import
    requires |done.buckets| == ID_BITS && n <= |peers|
    decreases |peers| - n
  {
    if n == |peers| || done.threw then done
    else
      var next := ImportOne(localId, hostOf, done, peers[n], parses, now(n), stamp(n), ping(n));
      Imported(localId, hostOf, next, peers, n + 1, parses, now, stamp, ping)
  }

  class Table {
    const localId: string
    const hostOf: HostOf
    var buckets: seq<Bucket>
    var globalIpCount: map<string, nat>

    ghost predicate Valid()
      reads this
    {
      Placed(localId, buckets) && Exact(globalIpCount, buckets, hostOf)
    }

    /** `hostOf` is the normalised host of an address. */
    constructor (localId: string, hostOf: HostOf)
      ensures Valid() && this.localId == localId && this.hostOf == hostOf && Flatten(buckets) == []
    {
      this.localId, this.hostOf := localId, hostOf;
      buckets := seq(ID_BITS, _ => []);
      globalIpCount := map[];
      new;
      EmptyTable(buckets);
    }

    /** The bucket for an id, unless the id is malformed or too far away. */
    method Locate(id: string) returns (r: Call<nat>)
      requires Valid()
      ensures r == if IsHex(id) && BucketOf(localId, id) < ID_BITS then Returned(BucketOf(localId, id)) else Threw
    {
      if !IsHex(localId) || !IsHex(id) { return Threw; }
      var idx := BucketIndex(Bytes(localId), Bytes(id));
      return if idx < ID_BITS then Returned(idx) else Threw;
    }

    method RemovePeer(peerId: string) returns (r: Call<bool>)
      requires Valid()
      modifies this
      ensures Valid()
      ensures r == if !(IsHex(peerId) && BucketOf(localId, peerId) < ID_BITS) then Threw
                   else Returned(HasId(old(buckets)[BucketOf(localId, peerId)], peerId))
      ensures r == Returned(true) ==> var i := BucketOf(localId, peerId);
                buckets == old(buckets)[i := Without(old(buckets)[i], FirstWithId(old(buckets)[i], peerId))]
      ensures r != Returned(true) ==> buckets == old(buckets) && globalIpCount == old(globalIpCount)
    {
      var idx := Locate(peerId);
      if idx.Threw? { return Threw; }
      var i := idx.value;
      var pos := IndexOfId(buckets[i], peerId);
      if pos < 0 { return Returned(false); }
      FirstIs(buckets[i], peerId, pos);
      TakeOut(i, pos);
      return Returned(true);
    }

    method TakeOut(i: nat, k: nat)
      requires Valid() && i < |buckets| && k < |buckets[i]|
      modifies this
      ensures Valid() && buckets == old(buckets)[i := Without(old(buckets)[i], k)]
    {
      var host := hostOf(buckets[i][k].address);
      WithoutOk(localId, buckets[i], i, k);
      ExactWithout(globalIpCount, buckets, i, k, hostOf);
      buckets := buckets[i := Without(buckets[i], k)];
      globalIpCount := Decremented(globalIpCount, host);
    }

    method GetPeer(peerId: string) returns (r: Call<Option<Peer>>)
      requires Valid()
      ensures r == if IsHex(peerId) && BucketOf(localId, peerId) < ID_BITS
                   then Returned(FindById(Flatten(buckets), peerId))
                   else Threw
    {
      var idx := Locate(peerId);
      if idx.Threw? { return Threw; }
      LookupIsScan(localId, buckets, peerId);
      return Returned(FindById(buckets[idx.value], peerId));
    }

    method AllPeers() returns (result: seq<Peer>)
      ensures result == Flatten(buckets)
    {
      result := [];
      for i := 0 to |buckets|
        invariant result == Flatten(buckets[..i])
      {
        assert buckets[..i + 1][..i] == buckets[..i];
        result := result + buckets[i];
      }
      assert buckets[..|buckets|] == buckets;
    }

    /** The closest peers first. Comparing with a malformed target throws, if there is anything to compare. */
    method FindClosest(targetId: string, count: nat) returns (r: Call<seq<Peer>>)
      requires Valid()
      ensures r.Threw? <==> !IsHex(targetId) && |Flatten(buckets)| >= 2
      ensures IsHex(targetId) ==> ClosestOf(targetId, Flatten(buckets), r.value, count)
    {
      var all := AllPeers();
      if !IsHex(targetId) {
        return if |all| >= 2 then Threw else Returned(if count == 0 then [] else all);
      }
      SortedPrefixIsClosest(targetId, all, count);
      var sorted := StableSort(all, DistanceCompare(targetId));
      return Returned(if count < |sorted| then sorted[..count] else sorted);
    }

    /** The id checks come first; then the offer to the bucket of the id decides, and the host counters follow. */
    method AddPeer(peer: Peer, now: int, ping: Option<bool>) returns (r: Call<bool>)
      requires Valid()
      modifies this
      ensures Valid()
      ensures Outcome(buckets, r) == AddTo(localId, hostOf, old(buckets), peer, now, ping)
    {
      if peer.id == localId { return Returned(false); }
      if |peer.id| < 3 { return Returned(false); }
      if |WithoutPrefix(peer.id)| == 0 || !IsHex(peer.id) { return Returned(false); }
      var idx := Locate(peer.id);
      if idx.Threw? { return Threw; }
      assert Tally(globalIpCount, hostOf(peer.address)) == HostCount(buckets, hostOf, hostOf(peer.address));
      var accepted := OfferPeer(idx.value, Stamped(peer, now), ping);
      return Returned(accepted);
    }

    /** The peer is offered to its bucket. */
    method OfferPeer(i: nat, p: Peer, ping: Option<bool>) returns (accepted: bool)
      requires Valid() && i < |buckets| && Belongs(localId, p, i)
      modifies this
      ensures Valid()
      ensures var offer := OfferTo(old(buckets)[i], p, hostOf, old(Tally(globalIpCount, hostOf(p.address))), ping);
              accepted == offer.accepted && buckets == old(buckets)[i := offer.bucket]
    {
      OfferKeeps(localId, buckets[i], i, p, hostOf, Tally(globalIpCount, hostOf(p.address)), ping);
      var existing := IndexOfId(buckets[i], p.id);
      if existing >= 0 {
        Refresh(i, existing, p);
        return true;
      }
      accepted := OfferNew(i, p, ping);
    }

    /** The peer is not in the bucket yet: quotas, then room, then the ping of the oldest. */
    method OfferNew(i: nat, p: Peer, ping: Option<bool>) returns (accepted: bool)
      requires Valid() && i < |buckets| && !HasId(buckets[i], p.id)
      requires BucketOk(localId, OfferTo(buckets[i], p, hostOf, Tally(globalIpCount, hostOf(p.address)), ping).bucket,
                        i)
      modifies this
      ensures Valid()
      ensures var offer := OfferTo(old(buckets)[i], p, hostOf, old(Tally(globalIpCount, hostOf(p.address))), ping);
              accepted == offer.accepted && buckets == old(buckets)[i := offer.bucket]
    {
      var host := hostOf(p.address);
      if OverQuota(buckets[i], hostOf, host, Tally(globalIpCount, host)) { return false; }
      if |buckets[i]| < K {
        AddAtTail(i, p);
        return true;
      }
      if ping.None? { return false; }
      accepted := AfterPing(i, p, ping.value);
    }

    method AddAtTail(i: nat, p: Peer)
      requires Valid() && i < |buckets| && BucketOk(localId, buckets[i] + [p], i)
      modifies this
      ensures Valid() && buckets == old(buckets)[i := old(buckets)[i] + [p]]
    {
      ExactAppend(globalIpCount, buckets, i, p, hostOf);
      buckets := buckets[i := buckets[i] + [p]];
      globalIpCount := Incremented(globalIpCount, hostOf(p.address));
    }

    /** The bucket is full: its oldest peer is refreshed if it answered the ping, and replaced if not. */
    method AfterPing(i: nat, p: Peer, alive: bool) returns (accepted: bool)
      requires Valid() && i < |buckets| && buckets[i] != []
      requires BucketOk(localId, Without(buckets[i], 0) + [if alive then Stamped(buckets[i][0], p.lastSeenMs) else p],
                        i)
      modifies this
      ensures Valid() && accepted == !alive
      ensures buckets == old(buckets)[i := Without(old(buckets)[i], 0)
                                      + [if alive then Stamped(old(buckets)[i][0], p.lastSeenMs) else p]]
    {
      if alive {
        Refresh(i, 0, Stamped(buckets[i][0], p.lastSeenMs));
        return false;
      }
      var evicted := hostOf(buckets[i][0].address);
      ExactReplace(globalIpCount, buckets, i, 0, p, hostOf);
      buckets := buckets[i := Without(buckets[i], 0) + [p]];
      globalIpCount := Incremented(Decremented(globalIpCount, evicted), hostOf(p.address));
      return true;
    }

    /** Puts a new version of a peer at the tail of its bucket. */
    method Refresh(i: nat, k: nat, p: Peer)
      requires Valid() && i < |buckets| && k < |buckets[i]| && BucketOk(localId, Without(buckets[i], k) + [p], i)
      modifies this
      ensures Valid() && buckets == old(buckets)[i := Without(old(buckets)[i], k) + [p]]
    {
      var oldHost, host := hostOf(buckets[i][k].address), hostOf(p.address);
      if oldHost == host {
        ExactSameHost(globalIpCount, buckets, i, k, p, hostOf);
        buckets := buckets[i := Without(buckets[i], k) + [p]];
      } else {
        ExactReplace(globalIpCount, buckets, i, k, p, hostOf);
        buckets := buckets[i := Without(buckets[i], k) + [p]];
        globalIpCount := Incremented(Decremented(globalIpCount, oldHost), host);
      }
    }

    /**
     * Adds the well-formed entries one after the other; `parses` says whether an address is a host and a port. The
     * clock is read for each entry, first to judge its time and then to stamp it.
     */
    method ImportPeers(peers: seq<Peer>, parses: string -> bool, now: nat -> int, stamp: nat -> int,
                       ping: nat -> Option<bool>)
      returns (added: nat, threw: bool)
      requires Valid()
      modifies this
      ensures Valid()
      ensures Import(buckets, added, threw)
              == Imported(localId, hostOf, Import(old(buckets), 0, false), peers, 0, parses, now, stamp, ping)
      ensures IsHex(localId) && |Bytes(localId)| <= 32 ==> !threw
    {
      added, threw := 0, false;
      for n := 0 to |peers|
        invariant Valid() && !threw
        invariant Imported(localId, hostOf, Import(buckets, added, threw), peers, n, parses, now, stamp, ping)
                  == Imported(localId, hostOf, Import(old(buckets), 0, false), peers, 0, parses, now, stamp, ping)
      {
        var ok: bool;
        ok, threw := ImportPeer(peers[n], parses, now(n), stamp(n), ping(n), added);
        if ok { added := added + 1; }
        if threw { return; }
      }
    }

    method ImportPeer(p: Peer, parses: string -> bool, now: int, stamp: int, ping: Option<bool>, ghost added: nat)
      returns (ok: bool, threw: bool)
      requires Valid()
      modifies this
      ensures Valid()
      ensures Import(buckets, added + (if ok then 1 else 0), threw)
              == ImportOne(localId, hostOf, Import(old(buckets), added, false), p, parses, now, stamp, ping)
      ensures IsHex(localId) && |Bytes(localId)| <= 32 ==> !threw
    {
      if !StartsWith(p.id, "0x") || |p.id| < 3 || |p.id| > 66 || !IsHex(p.id) { return false, false; }
      if !parses(p.address) { return false, false; }
      if p.lastSeenMs < 0 || p.lastSeenMs > now + 60_000 { return false, false; }
      ShortIdFits(localId, p.id);
      var r := AddPeer(p, stamp, ping);
      return r == Returned(true), r.Threw?;
    }
  }

  /** A prefixed id of at most 66 characters has at most 256 bits. */
  lemma ShortIdFits(localId: string, id: string)
    requires IsHex(id) && StartsWith(id, "0x") && |id| <= 66
    ensures IsHex(localId) && |Bytes(localId)| <= 32 ==> BucketOf(localId, id) < ID_BITS
  {
    assert id[..2] == "0x";
    if IsHex(localId) && |Bytes(localId)| <= 32 {
      BucketFits(Bytes(localId), Bytes(id));
    }
  }

  lemma ExactReplace(m: map<string, nat>, buckets: seq<Bucket>, i: nat, k: nat, p: Peer, hostOf: HostOf)
    requires i < |buckets| && k < |buckets[i]| && Exact(m, buckets, hostOf)
    ensures Exact(Incremented(Decremented(m, hostOf(buckets[i][k].address)), hostOf(p.address)),
                  buckets[i := Without(buckets[i], k) + [p]], hostOf)
  {
    ExactWithout(m, buckets, i, k, hostOf);
    var mid := buckets[i := Without(buckets[i], k)];
    ExactAppend(Decremented(m, hostOf(buckets[i][k].address)), mid, i, p, hostOf);
    assert mid[i := mid[i] + [p]] == buckets[i := Without(buckets[i], k) + [p]];
  }

  /**
   * `picked` is in order of distance and takes `count` of the peers, or all of
   * them; no peer left out is closer than one taken.
   */
  ghost predicate ClosestOf(target: string, all: seq<Peer>, picked: seq<Peer>, count: nat)
    requires IsHex(target)
  {
    |picked| == (if count < |all| then count else |all|)
    && (forall i, j :: 0 <= i < j < |picked| ==> DistanceTo(target, picked[i]) <= DistanceTo(target, picked[j]))
    && exists rest :: Completes(target, all, picked, rest)
  }

  ghost predicate Completes(target: string, all: seq<Peer>, picked: seq<Peer>, rest: seq<Peer>)
    requires IsHex(target)
  {
    multiset(picked + rest) == multiset(all) && Farther(target, picked, rest)
  }

  ghost predicate Farther(target: string, picked: seq<Peer>, rest: seq<Peer>)
    requires IsHex(target)
  {
    forall x, y :: x in picked && y in rest ==> DistanceTo(target, x) <= DistanceTo(target, y)
  }

  lemma SortedPrefixIsClosest(target: string, all: seq<Peer>, count: nat)
    requires IsHex(target)
    ensures var sorted := StableSort(all, DistanceCompare(target));
            ClosestOf(target, all, if count < |sorted| then sorted[..count] else sorted, count)
  {
    var sorted := StableSort(all, DistanceCompare(target));
    DistancePreorder(target);
    SortCorrect(all, DistanceCompare(target));
    assert sorted[..|sorted|] == sorted;
    PrefixIsClosest(target, all, sorted, count);
  }

  lemma PrefixIsClosest(target: string, all: seq<Peer>, s: seq<Peer>, count: nat)
    requires IsHex(target) && SortedBy(DistanceCompare(target), s) && multiset(s) == multiset(all)
    ensures ClosestOf(target, all, s[..if count < |s| then count else |s|], count)
  {
    var n := if count < |s| then count else |s|;
    SortedSplit(target, s, n);
    SameLength(s, all);
    assert Completes(target, all, s[..n], s[n..]);
  }

  lemma SameLength<T>(a: seq<T>, b: seq<T>)
    requires multiset(a) == multiset(b)
    ensures |a| == |b|
  {
    assert |a| == |multiset(a)| == |multiset(b)| == |b|;
  }

  lemma SortedSplit(target: string, s: seq<Peer>, n: nat)
    requires IsHex(target) && n <= |s| && SortedBy(DistanceCompare(target), s)
    ensures s[..n] + s[n..] == s
    ensures forall x, y :: x in s[..n] && y in s[n..] ==> DistanceTo(target, x) <= DistanceTo(target, y)
    ensures forall i, j :: 0 <= i < j < n ==> DistanceTo(target, s[..n][i]) <= DistanceTo(target, s[..n][j])
  {
    forall i, j | 0 <= i < j < |s| ensures DistanceTo(target, s[i]) <= DistanceTo(target, s[j]) {
      assert Leq(DistanceCompare(target), s[i], s[j]);
    }
    forall x, y | x in s[..n] && y in s[n..] ensures DistanceTo(target, x) <= DistanceTo(target, y) {
      var i :| 0 <= i < n && s[..n][i] == x;
      var j :| 0 <= j < |s| - n && s[n..][j] == y;
      assert s[i] == x && s[n + j] == y;
    }
  }

  lemma {:induction false} EmptyTable(buckets: seq<Bucket>)
    requires forall i :: 0 <= i < |buckets| ==> buckets[i] == []
    ensures Flatten(buckets) == []
  {
    if buckets != [] {
      EmptyTable(buckets[..|buckets| - 1]);
    }
  }
}
