/** The public event chain of one node: the locator it sends, the page a peer
    returns for a locator, and the ingest of a page.
    (backend/services/mesh/mesh_hashchain.py, class Infonet) */
module Chain {
  /** A chain hash read as the number its hexadecimal digits spell. */
  type Hash = nat

  /** 64 zero digits: the predecessor of the first event. */
  const GENESIS_HASH: Hash := 0

  const LOCATOR_MAX := 32

  datatype Event = Event(eventId: Hash, prevHash: Hash, timestamp: int, gateMessage: bool, content: string)

  /** The outcome of the checks that follow the linkage test: schema, network,
      replay filter, sequence, freshness, key revocation and binding, signature
      and hash. */
  datatype Verdict = Accept | Duplicate | Reject

  /** The checks as one node makes them at one arrival of a batch. They look at the
      event, at the chain, and at what only that node knows at that time: its clock,
      its replay filter, its key bindings. Another node, or the same node later, has
      another judge. */
  type Judge = (seq<Event>, Event) -> Verdict

  const DEFAULT_MAX_AGE := 86400

  function Abs(x: int): int { if x < 0 then -x else x }

  /** The freshness bound; an age of zero turns it off, and an event without a
      timestamp passes. */
  predicate Fresh(now: int, maxAge: int, e: Event) {
    maxAge <= 0 || e.timestamp <= 0 || Abs(now - e.timestamp) <= maxAge
  }

  /** The other checks together with the freshness bound at the time of arrival. */
  function AtTime(checks: Judge, now: int, maxAge: int): Judge {
    (chain, e) => if checks(chain, e) == Accept && !Fresh(now, maxAge, e) then Reject else checks(chain, e)
  }

  function Head(chain: seq<Event>): Hash {
    if chain == [] then GENESIS_HASH else chain[|chain| - 1].eventId
  }

  predicate HasId(chain: seq<Event>, h: Hash) {
    exists i :: 0 <= i < |chain| && chain[i].eventId == h
  }

  ghost predicate Apart(chain: seq<Event>, i: nat, j: nat)
    requires i < j < |chain|
  {
    chain[i].eventId != chain[j].eventId
  }

  ghost predicate DistinctIds(chain: seq<Event>) {
    forall i, j :: 0 <= i < j < |chain| ==> Apart(chain, i, j)
  }

  lemma DistinctIdsApply(chain: seq<Event>, i: nat, j: nat)
    requires DistinctIds(chain) && i < |chain| && j < |chain|
    ensures chain[i].eventId == chain[j].eventId <==> i == j
  {
    if i < j { assert Apart(chain, i, j); }
    if j < i { assert Apart(chain, j, i); }
  }

  lemma DistinctIdsAppend(chain: seq<Event>, e: Event)
    requires DistinctIds(chain) && !HasId(chain, e.eventId)
    ensures DistinctIds(chain + [e])
  {
    forall i, j | 0 <= i < j < |chain| + 1 ensures Apart(chain + [e], i, j) {
      if j < |chain| { assert Apart(chain, i, j); }
    }
  }

  /** Ids that can be told apart from each other and from the genesis marker. */
  ghost predicate ProperIds(chain: seq<Event>) {
    DistinctIds(chain) && !HasId(chain, GENESIS_HASH)
  }

  ghost predicate LinkedAt(chain: seq<Event>, i: nat)
    requires i < |chain|
  {
    chain[i].prevHash == Head(chain[..i])
  }

  /** A chain as append and ingest build it: every event names the one before it. */
  ghost predicate Linked(chain: seq<Event>) {
    ProperIds(chain) && forall i :: 0 <= i < |chain| ==> LinkedAt(chain, i)
  }

  /** Event i of a chain is accepted on top of the events before it. */
  ghost predicate AcceptedAt(judge: Judge, chain: seq<Event>, i: nat)
    requires i < |chain|
  {
    chain[i].prevHash == Head(chain[..i]) && judge(chain[..i], chain[i]) == Accept
  }

  ghost predicate AllAccepted(judge: Judge, chain: seq<Event>, k: nat, b: nat)
    requires b <= |chain|
  {
    forall i :: k <= i < b ==> AcceptedAt(judge, chain, i)
  }

  // ---------------------------------------------------------------- ingest

  datatype IngestResult =
    IngestResult(chain: seq<Event>, accepted: nat, duplicates: nat, rejected: nat)

  function IngestOne(judge: Judge, r: IngestResult, e: Event): IngestResult {
    if e.prevHash != Head(r.chain) then r.(rejected := r.rejected + 1)
    else if HasId(r.chain, e.eventId) then r.(duplicates := r.duplicates + 1)
    else match judge(r.chain, e)
      case Accept => r.(chain := r.chain + [e], accepted := r.accepted + 1)
      case Duplicate => r.(duplicates := r.duplicates + 1)
      case Reject => r.(rejected := r.rejected + 1)
  }

  function Ingest(judge: Judge, chain: seq<Event>, batch: seq<Event>): IngestResult {
    if batch == [] then IngestResult(chain, 0, 0, 0)
    else IngestOne(judge, Ingest(judge, chain, batch[..|batch| - 1]), batch[|batch| - 1])
  }

  /** Ingest only appends, keeps ids distinct, and accounts for every event. */
  lemma {:induction false} IngestKeepsChain(judge: Judge, chain: seq<Event>, batch: seq<Event>)
    requires DistinctIds(chain)
    ensures var r := Ingest(judge, chain, batch);
            && chain <= r.chain
            && DistinctIds(r.chain)
            && r.accepted + r.duplicates + r.rejected == |batch|
            && |r.chain| == |chain| + r.accepted
            && (r.accepted > 0 ==> r.chain[|r.chain| - 1] in batch)
  {
    if batch != [] {
      var front := batch[..|batch| - 1];
      IngestKeepsChain(judge, chain, front);
      var r, last := Ingest(judge, chain, front), batch[|batch| - 1];
      if !HasId(r.chain, last.eventId) {
        DistinctIdsAppend(r.chain, last);
      }
      assert last in batch;
      assert forall e :: e in front ==> e in batch;
    }
  }

  /** Event j of a linked chain reaches the other checks of a node that holds the first
      m events exactly when it is the next one; otherwise it is rejected. */
  lemma IngestNext(judge: Judge, p: seq<Event>, r: IngestResult, m: nat, j: nat)
    requires Linked(p) && m <= |p| && j < |p| && r.chain == p[..m]
    ensures IngestOne(judge, r, p[j])
         == if m != j || judge(p[..m], p[j]) == Reject then r.(rejected := r.rejected + 1)
            else if judge(p[..m], p[j]) == Duplicate then r.(duplicates := r.duplicates + 1)
            else r.(chain := p[..j + 1], accepted := r.accepted + 1)
  {
    HeadsDiffer(p, m, j);
    assert LinkedAt(p, j);
    if m == j {
      assert p[..m] + [p[j]] == p[..j + 1];
    }
  }

  /** How far a node that holds the first k events of a chain gets with the events up to
      b: to the first one that it does not accept. */
  function Reach(judge: Judge, p: seq<Event>, k: nat, b: nat): (m: nat)
    requires k <= b <= |p|
    ensures k <= m <= b
    decreases b
  {
    if k == b then k
    else
      var m := Reach(judge, p, k, b - 1);
      if m < b - 1 || judge(p[..b - 1], p[b - 1]) != Accept then m else b
  }

  /** It gets to the end exactly when it accepts every one of them, and otherwise stops
      in front of one that it does not accept. */
  lemma {:induction false} ReachSpec(judge: Judge, p: seq<Event>, k: nat, b: nat)
    requires Linked(p) && k <= b <= |p|
    ensures Reach(judge, p, k, b) == b <==> AllAccepted(judge, p, k, b)
    ensures Reach(judge, p, k, b) < b ==> !AcceptedAt(judge, p, Reach(judge, p, k, b))
    decreases b
  {
    if k < b {
      ReachSpec(judge, p, k, b - 1);
      assert LinkedAt(p, b - 1);
      var m := Reach(judge, p, k, b - 1);
      if m == b - 1 {
        assert AllAccepted(judge, p, k, b) <==> AllAccepted(judge, p, k, b - 1) && AcceptedAt(judge, p, b - 1);
      } else {
        assert m < b - 1;
      }
    }
  }

  lemma {:induction false} ReachStops(judge: Judge, p: seq<Event>, k: nat, m: nat, b: nat)
    requires Linked(p) && k <= m < b <= |p| && AllAccepted(judge, p, k, m) && !AcceptedAt(judge, p, m)
    ensures Reach(judge, p, k, b) == m
    decreases b
  {
    assert LinkedAt(p, m);
    ReachSpec(judge, p, k, m);
    if m < b - 1 {
      ReachStops(judge, p, k, m, b - 1);
    }
  }

  /** What the judge at this arrival leaves of the slice [a..b) of a linked chain at a node
      that holds its first k events. */
  function SliceReach(judge: Judge, p: seq<Event>, k: nat, a: nat, b: nat): (m: nat)
    requires k <= |p| && a <= b <= |p|
    ensures k <= m && (m <= b || m == k)
  {
    if a <= k < b then Reach(judge, p, k, b) else k
  }

  /** The event at which the slice stops is counted as a duplicate if the judge says so. */
  function SliceDuplicates(judge: Judge, p: seq<Event>, k: nat, a: nat, b: nat): nat
    requires k <= |p| && a <= b <= |p|
  {
    var m := SliceReach(judge, p, k, a, b);
    if a <= k && m < b && judge(p[..m], p[m]) == Duplicate then 1 else 0
  }

  function SliceResult(judge: Judge, p: seq<Event>, k: nat, a: nat, b: nat): IngestResult
    requires k <= |p| && a <= b <= |p|
  {
    var m, d := SliceReach(judge, p, k, a, b), SliceDuplicates(judge, p, k, a, b);
    IngestResult(p[..m], m - k, d, if m - k + d <= b - a then b - a - (m - k) - d else 0)
  }

  /** Feeding the slice [a..b) of a linked chain to a node that holds its first k events,
      whatever its checks say: with a gap nothing is taken; without one the node gets as
      far as the first event that it does not accept. Events it has count as rejected. */
  lemma {:induction false} IngestSlice(judge: Judge, p: seq<Event>, k: nat, a: nat, b: nat)
    requires Linked(p) && k <= |p| && a <= b <= |p|
    ensures Ingest(judge, p[..k], p[a..b]) == SliceResult(judge, p, k, a, b)
    decreases b - a
  {
    if a < b {
      IngestSlice(judge, p, k, a, b - 1);
      IngestLastOf(judge, p[..k], p, a, b);
      SliceNext(judge, p, k, a, b);
    }
  }

  /** The next slice leaves nothing rejected exactly when all of it is accepted, or all but
      a last event that is taken for a duplicate. */
  lemma SliceEnds(judge: Judge, p: seq<Event>, k: nat, n: nat)
    requires Linked(p) && k < n <= |p|
    ensures var r := Ingest(judge, p[..k], p[k..n]);
      && r.chain == p[..Reach(judge, p, k, n)]
      && (r.rejected == 0 <==>
            AllAccepted(judge, p, k, n) || (AllAccepted(judge, p, k, n - 1) && DuplicateAt(judge, p, n - 1)))
    ensures AllAccepted(judge, p, k, n) ==> Reach(judge, p, k, n) == n
    ensures AllAccepted(judge, p, k, n - 1) && DuplicateAt(judge, p, n - 1) ==> Reach(judge, p, k, n) == n - 1
  {
    IngestSlice(judge, p, k, k, n);
    ReachSpec(judge, p, k, n);
    ReachSpec(judge, p, k, n - 1);
    assert LinkedAt(p, n - 1);
    AllAcceptedSnoc(judge, p, k, n);
  }

  lemma SliceNext(judge: Judge, p: seq<Event>, k: nat, a: nat, b: nat)
    requires Linked(p) && k <= |p| && a < b <= |p|
    ensures IngestOne(judge, SliceResult(judge, p, k, a, b - 1), p[b - 1]) == SliceResult(judge, p, k, a, b)
  {
    var m := SliceReach(judge, p, k, a, b - 1);
    IngestNext(judge, p, SliceResult(judge, p, k, a, b - 1), m, b - 1);
  }

  /** One event of a chain at a node that holds exactly what comes before it. */
  lemma NextInPlace(judge: Judge, p: seq<Event>, r: IngestResult, j: nat)
    requires ProperIds(p) && j < |p| && r.chain == p[..j]
    ensures AcceptedAt(judge, p, j) ==> IngestOne(judge, r, p[j]) == r.(chain := p[..j + 1], accepted := r.accepted + 1)
    ensures !AcceptedAt(judge, p, j) && !DuplicateAt(judge, p, j) ==>
      IngestOne(judge, r, p[j]) == r.(rejected := r.rejected + 1)
    ensures !AcceptedAt(judge, p, j) ==>
      IngestOne(judge, r, p[j]).rejected + IngestOne(judge, r, p[j]).duplicates > r.rejected + r.duplicates
  {
    NewInPlace(p, j);
    assert p[..j + 1] == p[..j] + [p[j]];
  }

  /** An event too old or too far ahead on arrival is refused, whatever else holds. */
  lemma FreshOnArrival(checks: Judge, now: int, maxAge: int, p: seq<Event>, i: nat)
    requires i < |p|
    ensures AcceptedAt(AtTime(checks, now, maxAge), p, i) <==> AcceptedAt(checks, p, i) && Fresh(now, maxAge, p[i])
    ensures DuplicateAt(AtTime(checks, now, maxAge), p, i) <==> DuplicateAt(checks, p, i)
  {
  }

  lemma AllAcceptedSnoc(judge: Judge, p: seq<Event>, k: nat, b: nat)
    requires k < b <= |p|
    ensures AllAccepted(judge, p, k, b) <==> AllAccepted(judge, p, k, b - 1) && AcceptedAt(judge, p, b - 1)
  {
  }

  /** Without trust in the links of the batch: no event is rejected, and none called a
      duplicate, exactly when each one is accepted in its place. */
  lemma {:induction false} IngestAllAccepted(judge: Judge, p: seq<Event>, k: nat, b: nat)
    requires ProperIds(p) && k <= b <= |p|
    ensures var r := Ingest(judge, p[..k], p[k..b]);
      && (r.rejected == 0 && r.duplicates == 0 <==> AllAccepted(judge, p, k, b))
      && (AllAccepted(judge, p, k, b) ==> r == IngestResult(p[..b], b - k, 0, 0))
    decreases b
  {
    if k < b {
      IngestAllAccepted(judge, p, k, b - 1);
      IngestLastOf(judge, p[..k], p, k, b);
      AllAcceptedSnoc(judge, p, k, b);
      var r := Ingest(judge, p[..k], p[k..b - 1]);
      if AllAccepted(judge, p, k, b - 1) {
        NextInPlace(judge, p, r, b - 1);
      }
    }
  }

  /** What the node does not have yet cannot be called a duplicate by its index. */
  lemma NewInPlace(p: seq<Event>, m: nat)
    requires ProperIds(p) && m < |p|
    ensures !HasId(p[..m], p[m].eventId)
  {
    if HasId(p[..m], p[m].eventId) {
      var i :| 0 <= i < m && p[..m][i].eventId == p[m].eventId;
      DistinctIdsApply(p, i, m);
    }
  }

  ghost predicate DuplicateAt(judge: Judge, p: seq<Event>, i: nat)
    requires i < |p|
  {
    judge(p[..i], p[i]) == Duplicate
  }

  /** No event in its place is taken for a duplicate. */
  ghost predicate NoFalseDuplicates(judge: Judge, p: seq<Event>, k: nat, b: nat)
    requires b <= |p|
  {
    forall i :: k <= i < b ==> !DuplicateAt(judge, p, i)
  }

  lemma RejectionsGrow(judge: Judge, chain: seq<Event>, p: seq<Event>, k: nat, b: nat)
    requires k < b <= |p|
    ensures Ingest(judge, chain, p[k..b - 1]).rejected <= Ingest(judge, chain, p[k..b]).rejected
  {
    IngestLastOf(judge, chain, p, k, b);
  }

  lemma NextIsAccepted(judge: Judge, p: seq<Event>, k: nat, b: nat)
    requires ProperIds(p) && k < b <= |p| && AllAccepted(judge, p, k, b - 1)
    ensures Ingest(judge, p[..k], p[k..b]).rejected == 0 ==> AcceptedAt(judge, p, b - 1) || DuplicateAt(judge, p, b - 1)
  {
    var r := Ingest(judge, p[..k], p[k..b - 1]);
    IngestAllAccepted(judge, p, k, b - 1);
    RejectedNext(judge, p, r, b - 1);
    IngestLastOf(judge, p[..k], p, k, b);
  }

  lemma RejectedNext(judge: Judge, p: seq<Event>, r: IngestResult, j: nat)
    requires ProperIds(p) && j < |p| && r.chain == p[..j]
    ensures IngestOne(judge, r, p[j]).rejected == 0 ==> AcceptedAt(judge, p, j) || DuplicateAt(judge, p, j)
  {
    NextInPlace(judge, p, r, j);
  }

  /** If nothing is taken for a duplicate, a batch without rejections is accepted whole. */
  lemma {:induction false} OnlyRejects(judge: Judge, p: seq<Event>, k: nat, b: nat)
    requires ProperIds(p) && k <= b <= |p| && NoFalseDuplicates(judge, p, k, b)
    ensures Ingest(judge, p[..k], p[k..b]).rejected == 0 ==> AllAccepted(judge, p, k, b)
    decreases b
  {
    if k < b {
      OnlyRejects(judge, p, k, b - 1);
      RejectionsGrow(judge, p[..k], p, k, b);
      if AllAccepted(judge, p, k, b - 1) {
        NextIsAccepted(judge, p, k, b);
      }
      AllAcceptedSnoc(judge, p, k, b);
    }
  }

  /** A batch in which no event builds on the node's newest one is rejected whole. */
  lemma {:induction false} IngestForeign(judge: Judge, chain: seq<Event>, batch: seq<Event>)
    requires forall e :: e in batch ==> e.prevHash != Head(chain)
    ensures Ingest(judge, chain, batch) == IngestResult(chain, 0, 0, |batch|)
  {
    if batch != [] {
      assert forall e :: e in batch[..|batch| - 1] ==> e in batch;
      IngestForeign(judge, chain, batch[..|batch| - 1]);
      assert batch[|batch| - 1] in batch;
    }
  }

  lemma {:induction false} IngestAppends(judge: Judge, chain: seq<Event>, batch: seq<Event>)
    ensures chain <= Ingest(judge, chain, batch).chain
  {
    if batch != [] {
      IngestAppends(judge, chain, batch[..|batch| - 1]);
    }
  }

  lemma LinkedPrefix(p: seq<Event>, n: nat)
    requires Linked(p) && n <= |p|
    ensures Linked(p[..n])
  {
    var q := p[..n];
    forall i, j | 0 <= i < j < |q|
      ensures Apart(q, i, j)
    {
      assert Apart(p, i, j);
    }
    forall i | 0 <= i < |q|
      ensures LinkedAt(q, i)
    {
      assert LinkedAt(p, i) && q[..i] == p[..i];
    }
    forall i | 0 <= i < |q|
      ensures q[i].eventId != GENESIS_HASH
    {
      assert HasId(p, p[i].eventId);
    }
  }

  /** Going to e first and then on to b. */
  lemma {:induction false} ReachSplit(judge: Judge, p: seq<Event>, k: nat, e: nat, b: nat)
    requires k <= e <= b <= |p|
    ensures Reach(judge, p, k, b) == if Reach(judge, p, k, e) == e then Reach(judge, p, e, b) else Reach(judge, p, k, e)
    decreases b
  {
    if e < b {
      ReachSplit(judge, p, k, e, b - 1);
    }
  }

  lemma IngestLastOf(judge: Judge, chain: seq<Event>, p: seq<Event>, a: nat, b: nat)
    requires a < b <= |p|
    ensures Ingest(judge, chain, p[a..b]) == IngestOne(judge, Ingest(judge, chain, p[a..b - 1]), p[b - 1])
  {
    assert p[a..b] == p[a..b - 1] + [p[b - 1]];
    IngestLast(judge, chain, p[a..b - 1], p[b - 1]);
  }

  lemma IngestLast(judge: Judge, chain: seq<Event>, batch: seq<Event>, last: Event)
    ensures Ingest(judge, chain, batch + [last]) == IngestOne(judge, Ingest(judge, chain, batch), last)
  {
    assert (batch + [last])[..|batch|] == batch;
  }

  /** Two prefixes of a linked chain have the same head only if they are the same. */
  lemma HeadsDiffer(p: seq<Event>, m: nat, n: nat)
    requires ProperIds(p) && m <= |p| && n <= |p|
    ensures Head(p[..m]) == Head(p[..n]) <==> m == n
    ensures m < |p| ==> !HasId(p[..m], p[m].eventId)
  {
    if 0 < m { assert HasId(p, Head(p[..m])); }
    if 0 < n { assert HasId(p, Head(p[..n])); }
    if 0 < m && 0 < n {
      DistinctIdsApply(p, m - 1, n - 1);
    }
    if m < |p| {
      NewInPlace(p, m);
    }
  }

  // --------------------------------------------------------------- locator

  /** The entries of the locator from position idx downwards, at most room of
      them; the stride doubles from the tenth entry on. */
  function LocatorFrom(chain: seq<Event>, idx: int, step: nat, count: nat, room: nat): seq<Hash>
    requires idx < |chain| && step >= 1
    decreases room
  {
    if idx < 0 || room == 0 then []
    else
      var step' := if count >= 9 then step * 2 else step;
      [chain[idx].eventId] + LocatorFrom(chain, idx - step', step', count + 1, room - 1)
  }

  function Locator(chain: seq<Event>): seq<Hash> {
    LocatorFrom(chain, |chain| - 1, 1, 0, LOCATOR_MAX - 1) + [GENESIS_HASH]
  }

  lemma LocatorFromStep(chain: seq<Event>, sent: seq<Hash>, idx: int, step: nat, count: nat, room: nat)
    requires 0 <= idx < |chain| && step >= 1 && room > 0
    ensures var step' := if count >= 9 then step * 2 else step;
            (sent + LocatorFrom(chain, idx, step, count, room)
             == sent + [chain[idx].eventId] + LocatorFrom(chain, idx - step', step', count + 1, room - 1))
  {
  }

  lemma {:induction false} LocatorEntries(chain: seq<Event>, idx: int, step: nat, count: nat, room: nat)
    requires idx < |chain| && step >= 1
    ensures var l := LocatorFrom(chain, idx, step, count, room);
            && |l| <= room
            && (forall i :: 0 <= i < |l| ==> HasId(chain, l[i]))
            && (idx >= 0 && room > 0 ==> |l| > 0 && l[0] == chain[idx].eventId)
    decreases room
  {
    if idx >= 0 && room > 0 {
      var step' := if count >= 9 then step * 2 else step;
      LocatorEntries(chain, idx - step', step', count + 1, room - 1);
      assert HasId(chain, chain[idx].eventId);
      var l := LocatorFrom(chain, idx, step, count, room);
      var rest := LocatorFrom(chain, idx - step', step', count + 1, room - 1);
      assert forall i :: 0 < i < |l| ==> l[i] == rest[i - 1];
    }
  }

  /** A locator names only events of its chain, begins with the head, ends with
      the genesis marker and fits in 32 entries. */
  lemma LocatorShape(chain: seq<Event>)
    ensures var l := Locator(chain);
            && 1 <= |l| <= LOCATOR_MAX
            && l[0] == Head(chain)
            && l[|l| - 1] == GENESIS_HASH
            && (|l| == 1 <==> chain == [])
            && (forall i :: 0 <= i < |l| - 1 ==> HasId(chain, l[i]))
  {
    LocatorEntries(chain, |chain| - 1, 1, 0, LOCATOR_MAX - 1);
  }

  function Pow2(n: nat): nat { if n == 0 then 1 else 2 * Pow2(n - 1) }

  /** Entry number count lies at distance d from the tip: one by one up to the
      tenth entry, then with doubling strides. */
  ghost predicate AtStride(count: nat, step: nat, d: nat) {
    if count <= 9 then step == 1 && d == count
    else step == Pow2(count - 9) && d == 7 + 2 * step
  }

  lemma NextStride(count: nat, step: nat, d: nat)
    requires AtStride(count, step, d)
    ensures var step' := if count >= 9 then step * 2 else step;
            && AtStride(count + 1, step', d + step')
            && (0 < count ==> d + step' <= 2 * d)
  {
  }

  /** How far from the newest event entry number i lies. */
  function Distance(i: nat): nat { if i <= 9 then i else 7 + 2 * Pow2(i - 9) }

  lemma DistanceGrows(i: nat)
    ensures i <= Distance(i) < Distance(i + 1)
  {
    Pow2Grows(if i <= 9 then 0 else i - 9);
  }

  lemma {:induction false} Pow2Grows(n: nat)
    ensures n < Pow2(n) < Pow2(n + 1)
  {
    if n > 0 {
      Pow2Grows(n - 1);
    }
  }

  lemma {:induction false} DistancesGrow(i: nat, j: nat)
    requires i <= j
    ensures Distance(i) <= Distance(j)
    decreases j
  {
    if i < j {
      DistancesGrow(i, j - 1);
      DistanceGrows(j - 1);
    }
  }

  lemma {:induction false} LocatorFromAt(chain: seq<Event>, idx: int, step: nat, count: nat, room: nat, i: nat)
    requires idx < |chain| && step >= 1 && AtStride(count, step, |chain| - 1 - idx)
    ensures var l := LocatorFrom(chain, idx, step, count, room);
      && (i < |l| <==> i < room && Distance(count + i) < |chain|)
      && (i < |l| ==> l[i] == chain[|chain| - 1 - Distance(count + i)].eventId)
    decreases room
  {
    assert Distance(count) == |chain| - 1 - idx;
    if idx < 0 || room == 0 {
      DistancesGrow(count, count + i);
    } else if i > 0 {
      NextStride(count, step, |chain| - 1 - idx);
      var step' := if count >= 9 then step * 2 else step;
      LocatorFromAt(chain, idx - step', step', count + 1, room - 1, i - 1);
    }
  }

  /** Exactly the events at the first 31 distances are named, as far as the chain goes. */
  lemma LocatorExact(chain: seq<Event>, i: nat)
    ensures var l := Locator(chain);
      && (i < |l| - 1 <==> i < LOCATOR_MAX - 1 && Distance(i) < |chain|)
      && (i < |l| - 1 ==> l[i] == chain[|chain| - 1 - Distance(i)].eventId)
  {
    LocatorFromAt(chain, |chain| - 1, 1, 0, LOCATOR_MAX - 1, i);
  }

  /** The first entry that lies at least at some depth lies at most twice as deep. */
  lemma {:induction false} FindEntry(distance: nat, i: nat) returns (k: nat)
    requires distance <= Distance(i)
    ensures k <= i && distance <= Distance(k) <= 2 * distance
  {
    if i == 0 {
      k := 0;
    } else if distance <= Distance(i - 1) {
      k := FindEntry(distance, i - 1);
    } else {
      k := i;
    }
  }

  ghost predicate Reaches(chain: seq<Event>, l: seq<Hash>, distance: nat) {
    exists i, p :: 0 <= i < |l| && 0 <= p < |chain| && l[i] == chain[p].eventId
                   && distance <= |chain| - 1 - p <= 2 * distance
  }

  /** However far back two chains part (up to four million events), the locator
      names an event at that depth or deeper, and never more than twice as deep. */
  lemma LocatorReach(chain: seq<Event>, distance: nat)
    requires chain != [] && distance <= 7 + Pow2(22) && 2 * distance <= |chain| - 1
    ensures Reaches(chain, Locator(chain), distance)
  {
    assert Distance(LOCATOR_MAX - 2) == 7 + 2 * Pow2(21) == 7 + Pow2(22);
    var i := FindEntry(distance, LOCATOR_MAX - 2);
    LocatorExact(chain, i);
    assert Locator(chain)[i] == chain[|chain| - 1 - Distance(i)].eventId;
  }

  // ------------------------------------------------------- page for a peer

  /** What a node answers to a locator: the first entry it knows, the position
      after it, and at most limit events from there. */
  datatype Page = NoMatch | Page(matched: Hash, start: nat, events: seq<Event>)

  function IndexOf(chain: seq<Event>, h: Hash): (i: nat)
    requires HasId(chain, h)
    ensures i < |chain| && chain[i].eventId == h
  {
    if chain[|chain| - 1].eventId == h then |chain| - 1
    else
      assert HasId(chain[..|chain| - 1], h) by {
        var i :| 0 <= i < |chain| && chain[i].eventId == h;
        assert chain[..|chain| - 1][i].eventId == h;
      }
      IndexOf(chain[..|chain| - 1], h)
  }

  function Window(chain: seq<Event>, start: nat, limit: nat): seq<Event> {
    if |chain| <= start then []
    else if |chain| < start + limit then chain[start..] else chain[start..start + limit]
  }

  function FirstKnown(chain: seq<Event>, locator: seq<Hash>, limit: nat): Page {
    if locator == [] then NoMatch
    else if locator[0] == GENESIS_HASH then Page(GENESIS_HASH, 0, Window(chain, 0, limit))
    else if HasId(chain, locator[0]) then
      var start := IndexOf(chain, locator[0]) + 1;
      Page(locator[0], start, Window(chain, start, limit))
    else FirstKnown(chain, locator[1..], limit)
  }

  function EventsAfterLocator(chain: seq<Event>, locator: seq<Hash>, limit: nat): Page {
    FirstKnown(chain, if locator == [] then [GENESIS_HASH] else locator, limit)
  }

  /** The answer to a node's own locator starts right after the first entry the
      peer knows; it is the genesis marker exactly when the peer knows none. */
  lemma {:induction false} FirstKnownSpec(chain: seq<Event>, locator: seq<Hash>, limit: nat)
    requires locator != [] && locator[|locator| - 1] == GENESIS_HASH
    requires forall i :: 0 <= i < |locator| - 1 ==> locator[i] != GENESIS_HASH
    ensures var page := FirstKnown(chain, locator, limit);
            && page.Page?
            && page.events == Window(chain, page.start, limit)
            && (page.matched == GENESIS_HASH
                <==> forall i :: 0 <= i < |locator| - 1 ==> !HasId(chain, locator[i]))
            && (page.matched == GENESIS_HASH ==> page.start == 0)
            && (page.matched != GENESIS_HASH ==>
                  0 < page.start <= |chain| && chain[page.start - 1].eventId == page.matched
                  && page.matched in locator)
            && (HasId(chain, locator[0]) && locator[0] != GENESIS_HASH ==> page.matched == locator[0])
  {
    if |locator| > 1 && !HasId(chain, locator[0]) {
      FirstKnownSpec(chain, locator[1..], limit);
      var rest := locator[1..];
      assert forall i :: 0 < i < |locator| - 1 ==> locator[i] == rest[i - 1];
      assert forall i :: 0 <= i < |rest| - 1 ==> rest[i] == locator[i + 1];
    }
  }

  // ------------------------------------------------------------- the class

  class Infonet {
    var events: seq<Event>
    var headHash: Hash
    var eventIndex: map<Hash, nat>

    ghost predicate Valid()
      reads this
    {
      && DistinctIds(events)
      && headHash == Head(events)
      && (forall h :: h in eventIndex ==> eventIndex[h] < |events| && events[eventIndex[h]].eventId == h)
      && (forall i :: 0 <= i < |events| ==> events[i].eventId in eventIndex)
    }

    constructor ()
      ensures Valid() && events == []
    {
      events, headHash, eventIndex := [], GENESIS_HASH, map[];
    }

    method ResetChain()
      modifies this
      ensures Valid() && events == []
    {
      events, headHash, eventIndex := [], GENESIS_HASH, map[];
    }

    method GetLocator() returns (locator: seq<Hash>)
      ensures locator == Locator(events)
    {
      if events == [] {
        return [GENESIS_HASH];
      }
      locator := [];
      var idx, step, count := |events| - 1, 1, 0;
      while idx >= 0 && |locator| < LOCATOR_MAX - 1
        invariant idx < |events| && step >= 1 && |locator| <= LOCATOR_MAX - 1
        invariant locator + LocatorFrom(events, idx, step, count, LOCATOR_MAX - 1 - |locator|)
               == LocatorFrom(events, |events| - 1, 1, 0, LOCATOR_MAX - 1)
        decreases LOCATOR_MAX - |locator|
      {
        LocatorFromStep(events, locator, idx, step, count, LOCATOR_MAX - 1 - |locator|);
        locator := locator + [events[idx].eventId];
        if count >= 9 {
          step := step * 2;
        }
        idx := idx - step;
        count := count + 1;
      }
      assert locator == LocatorFrom(events, |events| - 1, 1, 0, LOCATOR_MAX - 1);
      locator := locator + [GENESIS_HASH];
    }

    method GetEventsAfterLocator(locator: seq<Hash>, limit: nat) returns (page: Page)
      requires Valid()
      ensures page == EventsAfterLocator(events, locator, limit)
    {
      var entries := if locator == [] then [GENESIS_HASH] else locator;
      var i := 0;
      while i < |entries|
        invariant 0 <= i <= |entries|
        invariant FirstKnown(events, entries, limit) == FirstKnown(events, entries[i..], limit)
      {
        var h := entries[i];
        assert entries[i..][0] == h && entries[i..][1..] == entries[i + 1..];
        if h == GENESIS_HASH {
          return Page(GENESIS_HASH, 0, Window(events, 0, limit));
        }
        if h in eventIndex {
          var start := eventIndex[h] + 1;
          DistinctIdsApply(events, eventIndex[h], IndexOf(events, h));
          return Page(h, start, Window(events, start, limit));
        }
        i := i + 1;
      }
      page := NoMatch;
    }

    method IngestEvents(batch: seq<Event>, judge: Judge)
        returns (accepted: nat, duplicates: nat, rejected: nat)
      requires Valid()
      modifies this
      ensures Valid()
      ensures IngestResult(events, accepted, duplicates, rejected) == Ingest(judge, old(events), batch)
    {
      accepted, duplicates, rejected := 0, 0, 0;
      var expectedPrev := headHash;
      for i := 0 to |batch|
        invariant Valid() && expectedPrev == headHash
        invariant IngestResult(events, accepted, duplicates, rejected)
               == Ingest(judge, old(events), batch[..i])
      {
        var evt := batch[i];
        assert batch[..i + 1][..i] == batch[..i] && batch[..i + 1][i] == evt;
        if evt.prevHash != expectedPrev {
          rejected := rejected + 1;
        } else if evt.eventId in eventIndex {
          duplicates := duplicates + 1;
        } else {
          match judge(events, evt) {
            case Duplicate =>
              duplicates := duplicates + 1;
            case Reject =>
              rejected := rejected + 1;
            case Accept =>
              DistinctIdsAppend(events, evt);
              events := events + [evt];
              eventIndex := eventIndex[evt.eventId := |events| - 1];
              headHash := evt.eventId;
              accepted := accepted + 1;
              expectedPrev := evt.eventId;
          }
        }
      }
      assert batch[..|batch|] == batch;
    }
  }
}
