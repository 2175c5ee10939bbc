/** The gate store keeps every gate log sorted, and two workers replicate it by
    position: one pulls from a peer, one pushes to it.
    (backend/services/mesh/mesh_hashchain.py, class GateMessageStore;
     backend/main.py, _http_gate_pull_loop, gate_peer_pull, _http_gate_push_loop and
     gate_peer_push) */
module GateSync {
  const BATCH_SIZE := 50
  const RECEIVER_LIMIT := 50

  type GateId = string
  type Peer = string

  datatype GateEvent = GateEvent(timestamp: real, sequence: int, eventId: nat, content: string)

  /** The verdict of a node on an event at one arrival. */
  type Checks = GateEvent -> bool

  /** Order of the store: timestamp, then sequence, then event id. */
  predicate Less(a: GateEvent, b: GateEvent) {
    a.timestamp < b.timestamp ||
    (a.timestamp == b.timestamp &&
     (a.sequence < b.sequence || (a.sequence == b.sequence && a.eventId < b.eventId)))
  }

  ghost predicate Sorted(log: seq<GateEvent>) {
    forall i, j :: 0 <= i < j < |log| ==> !Less(log[j], log[i])
  }

  predicate HasId(log: seq<GateEvent>, id: nat) {
    exists i :: 0 <= i < |log| && log[i].eventId == id
  }

  ghost predicate DistinctIds(log: seq<GateEvent>) {
    forall i, j :: 0 <= i < j < |log| ==> log[i].eventId != log[j].eventId
  }

  // ------------------------------------------------------------ the store

  /** Stable insertion into a sorted log. */
  function Insert(log: seq<GateEvent>, e: GateEvent): seq<GateEvent> {
    if log != [] && Less(e, log[|log| - 1]) then Insert(log[..|log| - 1], e) + [log[|log| - 1]]
    else log + [e]
  }

  function Sort(log: seq<GateEvent>): seq<GateEvent> {
    if log == [] then [] else Insert(Sort(log[..|log| - 1]), log[|log| - 1])
  }

  /** Where Insert puts the event. */
  function Position(log: seq<GateEvent>, e: GateEvent): (p: nat)
    ensures p <= |log|
  {
    if log != [] && Less(e, log[|log| - 1]) then Position(log[..|log| - 1], e) else |log|
  }

  lemma {:induction false} InsertAt(log: seq<GateEvent>, e: GateEvent)
    ensures var p := Position(log, e);
            && Insert(log, e) == log[..p] + [e] + log[p..]
            && (forall i :: p <= i < |log| ==> Less(e, log[i]))
            && (p > 0 ==> !Less(e, log[p - 1]))
  {
    if log != [] && Less(e, log[|log| - 1]) {
      InsertAt(log[..|log| - 1], e);
    }
  }

  lemma InsertSorted(log: seq<GateEvent>, e: GateEvent)
    requires Sorted(log)
    ensures Sorted(Insert(log, e))
  {
    InsertAt(log, e);
  }

  lemma InsertSameEvents(log: seq<GateEvent>, e: GateEvent)
    ensures multiset(Insert(log, e)) == multiset(log + [e])
  {
    InsertAt(log, e);
    SameEvents(log, Position(log, e), e);
  }

  lemma SameEvents(log: seq<GateEvent>, p: nat, e: GateEvent)
    requires p <= |log|
    ensures multiset(log[..p] + [e] + log[p..]) == multiset(log + [e])
  {
    assert log == log[..p] + log[p..];
    assert multiset(log[..p] + log[p..]) == multiset(log[..p]) + multiset(log[p..]);
  }

  lemma {:induction false} SortIsSorted(log: seq<GateEvent>)
    ensures Sorted(Sort(log))
  {
    if log != [] {
      SortIsSorted(log[..|log| - 1]);
      InsertSorted(Sort(log[..|log| - 1]), log[|log| - 1]);
    }
  }

  lemma {:induction false} SortSameEvents(log: seq<GateEvent>)
    ensures multiset(Sort(log)) == multiset(log)
  {
    if log != [] {
      var front, e := log[..|log| - 1], log[|log| - 1];
      SortSameEvents(front);
      assert log == front + [e];
      SortSnoc(front, e);
    }
  }

  lemma SortSnoc(front: seq<GateEvent>, e: GateEvent)
    requires multiset(Sort(front)) == multiset(front)
    ensures multiset(Sort(front + [e])) == multiset(front + [e])
  {
    InsertInto(Sort(front), front, e);
    assert (front + [e])[..|front|] == front;
  }

  lemma InsertInto(a: seq<GateEvent>, b: seq<GateEvent>, e: GateEvent)
    requires multiset(a) == multiset(b)
    ensures multiset(Insert(a, e)) == multiset(b + [e])
  {
    InsertSameEvents(a, e);
    SameSnoc(a, b, e);
  }

  lemma SameSnoc(a: seq<GateEvent>, b: seq<GateEvent>, e: GateEvent)
    requires multiset(a) == multiset(b)
    ensures multiset(a + [e]) == multiset(b + [e])
  {
  }

  lemma SortSorts(log: seq<GateEvent>)
    ensures Sorted(Sort(log)) && multiset(Sort(log)) == multiset(log)
  {
    SortIsSorted(log);
    SortSameEvents(log);
  }

  lemma {:induction false} SortIdle(log: seq<GateEvent>)
    requires Sorted(log)
    ensures Sort(log) == log
  {
    if log != [] {
      var front, e := log[..|log| - 1], log[|log| - 1];
      assert forall i, j :: 0 <= i < j < |front| ==> front[i] == log[i] && front[j] == log[j];
      SortIdle(front);
      assert front != [] ==> !Less(log[|log| - 1], log[|log| - 2]);
      assert log == front + [e];
    }
  }

  /** The events of a batch that pass the checks and are new to the log. */
  function Fresh(log: seq<GateEvent>, batch: seq<GateEvent>, ok: Checks): seq<GateEvent> {
    if batch == [] then []
    else
      var taken, e := Fresh(log, batch[..|batch| - 1], ok), batch[|batch| - 1];
      if ok(e) && !HasId(log, e.eventId) && !HasId(taken, e.eventId) then taken + [e] else taken
  }

  function IngestPeer(log: seq<GateEvent>, batch: seq<GateEvent>, ok: Checks): seq<GateEvent> {
    Sort(log + Fresh(log, batch, ok))
  }

  lemma {:induction false} FreshSlice(p: seq<GateEvent>, k: nat, b: nat, ok: Checks)
    requires DistinctIds(p) && k <= b <= |p| && forall i :: k <= i < b ==> ok(p[i])
    ensures Fresh(p[..k], p[k..b], ok) == p[k..b]
    decreases b
  {
    if k < b {
      FreshSlice(p, k, b - 1, ok);
      assert p[k..b] == p[k..b - 1] + [p[b - 1]];
      FreshSnoc(p[..k], p[k..b - 1], p[b - 1], ok);
      NotBefore(p, 0, k, b - 1);
      NotBefore(p, k, b - 1, b - 1);
    }
  }

  lemma FreshSnoc(log: seq<GateEvent>, batch: seq<GateEvent>, e: GateEvent, ok: Checks)
    ensures var taken := Fresh(log, batch, ok);
      Fresh(log, batch + [e], ok)
      == if ok(e) && !HasId(log, e.eventId) && !HasId(taken, e.eventId) then taken + [e] else taken
  {
    assert (batch + [e])[..|batch|] == batch;
  }

  lemma NotBefore(p: seq<GateEvent>, a: nat, b: nat, i: nat)
    requires DistinctIds(p) && a <= b <= i < |p|
    ensures !HasId(p[a..b], p[i].eventId)
  {
    forall j | 0 <= j < b - a
      ensures p[a..b][j].eventId != p[i].eventId
    {
      assert p[a..b][j] == p[a + j];
    }
  }

  /** The next slice of the peer's sorted log lands exactly at the end. */
  lemma IngestSlice(p: seq<GateEvent>, k: nat, b: nat, ok: Checks)
    requires Sorted(p) && DistinctIds(p) && k <= b <= |p| && forall i :: k <= i < b ==> ok(p[i])
    ensures IngestPeer(p[..k], p[k..b], ok) == p[..b]
  {
    FreshSlice(p, k, b, ok);
    assert p[..k] + p[k..b] == p[..b];
    SortIdle(p[..b]);
  }

  // ---------------------------------------------------- what ingest leaves

  lemma {:induction false} FreshHolds(log: seq<GateEvent>, batch: seq<GateEvent>, ok: Checks, id: nat)
    ensures HasId(log + Fresh(log, batch, ok), id)
       <==> HasId(log, id) || exists i :: 0 <= i < |batch| && batch[i].eventId == id && ok(batch[i])
  {
    var all := log + Fresh(log, batch, ok);
    if batch == [] {
      assert all == log;
    } else {
      var front, last := batch[..|batch| - 1], batch[|batch| - 1];
      var before := log + Fresh(log, front, ok);
      FreshHolds(log, front, ok, id);
      assert forall i :: 0 <= i < |front| ==> front[i] == batch[i];
      HasEither(log, Fresh(log, front, ok), last.eventId);
      if ok(last) && !HasId(before, last.eventId) {
        assert all == before + [last];
        HasEither(before, [last], id);
        assert HasId([last], id) <==> id == last.eventId by {
          assert [last][0] == last;
        }
      } else {
        assert all == before;
      }
    }
  }

  lemma HasEither(a: seq<GateEvent>, b: seq<GateEvent>, id: nat)
    ensures HasId(a + b, id) <==> HasId(a, id) || HasId(b, id)
  {
    if HasId(a, id) {
      var i :| 0 <= i < |a| && a[i].eventId == id;
      assert (a + b)[i].eventId == id;
    }
    if HasId(b, id) {
      var i :| 0 <= i < |b| && b[i].eventId == id;
      assert (a + b)[|a| + i].eventId == id;
    }
  }

  lemma SameIds(a: seq<GateEvent>, b: seq<GateEvent>, id: nat)
    requires multiset(a) == multiset(b) && HasId(a, id)
    ensures HasId(b, id)
  {
    var i :| 0 <= i < |a| && a[i].eventId == id;
    assert a[i] in multiset(b);
    var j :| 0 <= j < |b| && b[j] == a[i];
  }

  /** After ingest the log has an id exactly when it had it or an event of the batch with
      that id passed the checks. */
  lemma IngestHolds(log: seq<GateEvent>, batch: seq<GateEvent>, ok: Checks, id: nat)
    ensures HasId(IngestPeer(log, batch, ok), id)
       <==> HasId(log, id) || exists i :: 0 <= i < |batch| && batch[i].eventId == id && ok(batch[i])
  {
    var all := log + Fresh(log, batch, ok);
    FreshHolds(log, batch, ok, id);
    SortSameEvents(all);
    if HasId(all, id) {
      SameIds(all, Sort(all), id);
    }
    if HasId(Sort(all), id) {
      SameIds(Sort(all), all, id);
    }
  }

  lemma {:induction false} FreshLength(log: seq<GateEvent>, batch: seq<GateEvent>, ok: Checks)
    ensures |Fresh(log, batch, ok)| <= |batch|
  {
    if batch != [] {
      FreshLength(log, batch[..|batch| - 1], ok);
    }
  }

  lemma IngestLength(log: seq<GateEvent>, batch: seq<GateEvent>, ok: Checks)
    ensures |IngestPeer(log, batch, ok)| <= |log| + |batch|
  {
    var all := log + Fresh(log, batch, ok);
    FreshLength(log, batch, ok);
    SortSameEvents(all);
    assert |multiset(Sort(all))| == |Sort(all)| && |multiset(all)| == |all|;
  }

  /** In a slice of a log with distinct ids an id stands for one event. */
  lemma OnlyOne(log: seq<GateEvent>, c: nat, batch: seq<GateEvent>, e: GateEvent, ok: Checks)
    requires DistinctIds(log) && c + |batch| <= |log| && batch == log[c..c + |batch|] && e in batch
    ensures (exists i :: 0 <= i < |batch| && batch[i].eventId == e.eventId && ok(batch[i])) <==> ok(e)
  {
    var k :| 0 <= k < |batch| && batch[k] == e;
    forall i | 0 <= i < |batch| && batch[i].eventId == e.eventId
      ensures i == k
    {
      assert log[c + i] == batch[i] && log[c + k] == batch[k];
    }
  }

  // ----------------------------------------------------------- the freshness

  const MAX_AHEAD := 300.0
  const MAX_AGE := 2592000.0

  /** The bound of ingest: at most 300 s ahead of the receiver's clock, at most 30 days
      behind it. */
  predicate FreshAt(now: real, e: GateEvent) {
    now - MAX_AGE <= e.timestamp <= now + MAX_AHEAD
  }

  /** The checks of a receiver whose clock shows now. */
  function AtTime(checks: Checks, now: real): Checks {
    e => FreshAt(now, e) && checks(e)
  }

  // ------------------------------------------------------------- the pull

  /** One gate on the pulling side: its log and the count remembered for the peer. */
  datatype Puller = Puller(local: seq<GateEvent>, known: nat)

  function Max(a: int, b: int): int { if a < b then b else a }

  function Cursor(s: Puller): nat { Max(s.known, |s.local|) }

  /** The peer's answer: at most 50 events after the caller's count. */
  function PeerBatch(remote: seq<GateEvent>, after: nat): seq<GateEvent> {
    if after >= |remote| then []
    else if |remote| < after + BATCH_SIZE then remote[after..] else remote[after..after + BATCH_SIZE]
  }

  /** One pull of a gate whose length the peer announced as total; remote is the
      peer's log when the pull itself is answered. */
  function Pull(s: Puller, total: nat, remote: seq<GateEvent>, ok: Checks): Puller {
    if Cursor(s) >= total then s
    else
      var batch := PeerBatch(remote, Cursor(s));
      if batch == [] then s.(known := total)
      else Puller(IngestPeer(s.local, batch, ok), Cursor(s) + |batch|)
  }

  /** The peer gains an event; the puller gets one by other ways, posted here or brought
      by someone else; the puller pulls, with its checks as they are at that time. */
  datatype Step =
    | Remote(event: GateEvent)
    | Local(event: GateEvent)
    | PullStep(total: nat, answered: bool, ok: Checks)

  datatype World = World(remote: seq<GateEvent>, puller: Puller)

  /** A log takes an event only once. */
  function Post(log: seq<GateEvent>, e: GateEvent): seq<GateEvent> {
    if HasId(log, e.eventId) then log else Insert(log, e)
  }

  function Next(w: World, step: Step): World {
    match step
    case Remote(e) => w.(remote := Post(w.remote, e))
    case Local(e) => w.(puller := w.puller.(local := Post(w.puller.local, e)))
    case PullStep(total, answered, ok) =>
      if answered then w.(puller := Pull(w.puller, total, w.remote, ok)) else w
  }

  function Run(w: World, steps: seq<Step>): World {
    if |steps| == 0 then w else Next(Run(w, steps[..|steps| - 1]), steps[|steps| - 1])
  }

  /** In every run, whatever the peer announces or sends, the remembered count
      never goes back. */
  lemma {:induction false} CountNeverDecreases(w: World, steps: seq<Step>)
    ensures w.puller.known <= Run(w, steps).puller.known
  {
    if |steps| > 0 {
      CountNeverDecreases(w, steps[..|steps| - 1]);
    }
  }

  /** The puller holds a prefix of the peer's log and does not remember more. */
  ghost predicate InStep(remote: seq<GateEvent>, s: Puller) {
    && Sorted(remote) && DistinctIds(remote)
    && s.local <= remote && s.known <= |s.local|
  }

  /** A new event of the peer comes before one the puller already has. */
  ghost predicate Late(s: Puller, e: GateEvent) {
    s.local != [] && Less(e, s.local[|s.local| - 1])
  }

  /** The peer's log may grow anywhere: the puller stays in step with it exactly
      when the new event does not sort before an event already pulled. */
  lemma InStepUnlessLate(remote: seq<GateEvent>, s: Puller, e: GateEvent)
    requires InStep(remote, s) && !HasId(remote, e.eventId)
    ensures InStep(Insert(remote, e), s) <==> !Late(s, e)
  {
    InsertAt(remote, e);
    InsertSorted(remote, e);
    var p, k := Position(remote, e), |s.local|;
    var remote' := Insert(remote, e);
    InsertDistinct(remote, e);
    if p < k {
      assert remote'[p] == e && s.local[p] == remote[p];
      assert Less(e, remote[k - 1]);
    } else {
      assert remote'[..k] == remote[..k];
      if k > 0 {
        assert p > 0 && (p - 1 == k - 1 || !Less(remote[p - 1], remote[k - 1]));
      }
    }
  }

  lemma InsertDistinct(log: seq<GateEvent>, e: GateEvent)
    requires DistinctIds(log) && !HasId(log, e.eventId)
    ensures DistinctIds(Insert(log, e))
  {
    InsertAt(log, e);
    var p := Position(log, e);
    var log' := Insert(log, e);
    forall i, j | 0 <= i < j < |log'| ensures log'[i].eventId != log'[j].eventId {
      assert i < p ==> log'[i] == log[i];
      assert i > p ==> log'[i] == log[i - 1];
      assert j < p ==> log'[j] == log[j];
      assert j > p ==> log'[j] == log[j - 1];
    }
  }

  /** An event that comes by another way leaves the puller in step exactly when it is the
      peer's next one. */
  lemma InStepIfNext(remote: seq<GateEvent>, s: Puller, e: GateEvent)
    requires InStep(remote, s) && !HasId(s.local, e.eventId)
    ensures InStep(remote, s.(local := Insert(s.local, e))) <==> |s.local| < |remote| && remote[|s.local|] == e
  {
    InsertAt(s.local, e);
    var p, k, local' := Position(s.local, e), |s.local|, Insert(s.local, e);
    assert p < k ==> local'[k] == s.local[k - 1] && Less(e, s.local[k - 1]);
    if InStep(remote, s.(local := local')) {
      assert local'[k] == remote[k];
      assert k > 0 ==> s.local[k - 1] == remote[k - 1] && remote[k - 1].eventId != remote[k].eventId;
    }
    if k < |remote| && remote[k] == e {
      assert k > 0 ==> s.local[k - 1] == remote[k - 1] && !Less(remote[k], remote[k - 1]);
      assert local' == remote[..k + 1];
    }
  }

  ghost predicate Passes(batch: seq<GateEvent>, ok: Checks) {
    forall e :: e in batch ==> ok(e)
  }

  lemma BatchIsSlice(remote: seq<GateEvent>, c: nat)
    requires c < |remote|
    ensures var b := c + |PeerBatch(remote, c)|;
            && c < b <= |remote| && PeerBatch(remote, c) == remote[c..b]
            && |remote| - b == Max(0, |remote| - c - BATCH_SIZE)
  {
  }

  /** A pull moves the cursor by the whole batch, whatever comes of its events. */
  lemma CursorMoves(s: Puller, total: nat, remote: seq<GateEvent>, ok: Checks)
    requires Cursor(s) < total && Cursor(s) < |remote|
    ensures var c' := Cursor(s) + |PeerBatch(remote, Cursor(s))|;
            Pull(s, total, remote, ok).known == c' && Cursor(Pull(s, total, remote, ok)) == c'
  {
    BatchIsSlice(remote, Cursor(s));
    IngestLength(s.local, PeerBatch(remote, Cursor(s)), ok);
  }

  /** What one pull brings, from any state of the puller: exactly the events of the
      page at the cursor that pass the checks. */
  lemma PullHolds(s: Puller, total: nat, remote: seq<GateEvent>, i: nat, ok: Checks)
    requires DistinctIds(remote) && Cursor(s) < total && Cursor(s) < |remote| && i < |remote|
    ensures HasId(Pull(s, total, remote, ok).local, remote[i].eventId)
       <==> HasId(s.local, remote[i].eventId) || (Cursor(s) <= i < Cursor(s) + BATCH_SIZE && ok(remote[i]))
  {
    var c := Cursor(s);
    var batch := PeerBatch(remote, c);
    BatchIsSlice(remote, c);
    IngestHolds(s.local, batch, ok, remote[i].eventId);
    if c <= i < c + |batch| {
      assert batch[i - c] == remote[i];
      OnlyOne(remote, c, batch, remote[i], ok);
    } else {
      forall j | 0 <= j < |batch| ensures batch[j].eventId != remote[i].eventId {
        assert batch[j] == remote[c + j];
      }
    }
  }

  /** What keeps a pull in step: every event of the page passes the checks. */
  ghost predicate PullKeeps(remote: seq<GateEvent>, s: Puller, total: nat, ok: Checks) {
    |s.local| < total ==> |s.local| < |remote| && Passes(PeerBatch(remote, |s.local|), ok)
  }

  lemma PullInStep(remote: seq<GateEvent>, s: Puller, total: nat, ok: Checks)
    requires InStep(remote, s) && PullKeeps(remote, s, total, ok) && |s.local| < total
    ensures var b := |s.local| + |PeerBatch(remote, |s.local|)|;
            b <= |remote| && Pull(s, total, remote, ok) == Puller(remote[..b], b)
  {
    var k := |s.local|;
    var batch := PeerBatch(remote, k);
    BatchIsSlice(remote, k);
    assert s.local == remote[..k];
    forall i | k <= i < k + |batch| ensures ok(remote[i]) {
      assert batch[i - k] == remote[i] && batch[i - k] in batch;
    }
    IngestSlice(remote, k, k + |batch|, ok);
  }

  lemma InStepHolds(remote: seq<GateEvent>, s: Puller, i: nat)
    requires i < s.known && i < |remote|
    ensures InStep(remote, s) ==> HasId(s.local, remote[i].eventId)
  {
    assert InStep(remote, s) ==> s.local[i] == remote[i];
  }

  /** A refused event of the page leaves a gap below the cursor. */
  lemma RefusedLeavesGap(remote: seq<GateEvent>, s: Puller, total: nat, i: nat, ok: Checks)
    requires InStep(remote, s) && |s.local| < total && |s.local| <= i < |remote|
    requires i < |s.local| + |PeerBatch(remote, |s.local|)| && !ok(remote[i])
    ensures !InStep(remote, Pull(s, total, remote, ok))
  {
    var k := |s.local|;
    CursorMoves(s, total, remote, ok);
    PullHolds(s, total, remote, i, ok);
    NotBefore(remote, 0, k, i);
    assert s.local == remote[0..k];
    InStepHolds(remote, Pull(s, total, remote, ok), i);
  }

  lemma PullOutOfStep(remote: seq<GateEvent>, s: Puller, total: nat, ok: Checks)
    requires InStep(remote, s) && !PullKeeps(remote, s, total, ok)
    ensures !InStep(remote, Pull(s, total, remote, ok))
  {
    var k := |s.local|;
    if k < |remote| {
      var batch := PeerBatch(remote, k);
      BatchIsSlice(remote, k);
      var j :| 0 <= j < |batch| && !ok(batch[j]);
      assert batch[j] == remote[k + j];
      RefusedLeavesGap(remote, s, total, k + j, ok);
    }
  }

  /** A puller in step with the peer stays so after a pull exactly when every event of
      the page passes its checks at that time; then it has taken the next 50 events, or
      all that are left. The cursor moves either way. */
  lemma PullAdvances(remote: seq<GateEvent>, s: Puller, total: nat, ok: Checks)
    requires InStep(remote, s)
    ensures var s' := Pull(s, total, remote, ok);
            && (InStep(remote, s') <==> PullKeeps(remote, s, total, ok))
            && (InStep(remote, s') ==> s.local <= s'.local)
            && (InStep(remote, s') && |s.local| < total ==>
                  |remote| - |s'.local| == Max(0, |remote| - |s.local| - BATCH_SIZE))
  {
    if !PullKeeps(remote, s, total, ok) {
      PullOutOfStep(remote, s, total, ok);
    } else if |s.local| < total {
      PullInStep(remote, s, total, ok);
      BatchIsSlice(remote, |s.local|);
    }
  }

  /** In terms of the clock: with nothing else to object to, the page must be fresh. */
  lemma PullFreshExactly(remote: seq<GateEvent>, s: Puller, total: nat, checks: Checks, now: real)
    requires InStep(remote, s) && |s.local| < total && |s.local| < |remote|
    requires Passes(PeerBatch(remote, |s.local|), checks)
    ensures InStep(remote, Pull(s, total, remote, AtTime(checks, now)))
       <==> forall e :: e in PeerBatch(remote, |s.local|) ==> FreshAt(now, e)
  {
    PullAdvances(remote, s, total, AtTime(checks, now));
  }

  /** The steps that leave a puller in step. */
  ghost predicate Keeps(w: World, step: Step) {
    var s := w.puller;
    match step
    case Remote(e) => HasId(w.remote, e.eventId) || !Late(s, e)
    case Local(e) => HasId(s.local, e.eventId) || (|s.local| < |w.remote| && w.remote[|s.local|] == e)
    case PullStep(total, answered, ok) => answered ==> PullKeeps(w.remote, s, total, ok)
  }

  lemma StepInStepExactly(w: World, step: Step)
    requires InStep(w.remote, w.puller)
    ensures InStep(Next(w, step).remote, Next(w, step).puller) <==> Keeps(w, step)
    ensures Keeps(w, step) ==> w.puller.local <= Next(w, step).puller.local
  {
    match step
    case Remote(e) =>
      if !HasId(w.remote, e.eventId) {
        InStepUnlessLate(w.remote, w.puller, e);
      }
    case Local(e) =>
      if !HasId(w.puller.local, e.eventId) {
        InStepIfNext(w.remote, w.puller, e);
      }
    case PullStep(total, answered, ok) =>
      PullAdvances(w.remote, w.puller, total, ok);
  }

  ghost predicate InStepThroughout(w: World, steps: seq<Step>) {
    && InStep(Run(w, steps).remote, Run(w, steps).puller)
    && (|steps| == 0 || InStepThroughout(w, steps[..|steps| - 1]))
  }

  ghost predicate AllKeep(w: World, steps: seq<Step>) {
    |steps| == 0
    || (AllKeep(w, steps[..|steps| - 1]) && Keeps(Run(w, steps[..|steps| - 1]), steps[|steps| - 1]))
  }

  /** Over every run, with any answers lost and any checks at each pull, the puller's log
      is a prefix of the peer's throughout exactly when no event of the peer was late, no
      foreign event came in out of turn, and every page passed; it then never shrinks. */
  lemma {:induction false} RunStaysInStep(w: World, steps: seq<Step>)
    requires InStep(w.remote, w.puller)
    ensures InStepThroughout(w, steps) <==> AllKeep(w, steps)
    ensures InStepThroughout(w, steps) ==> w.puller.local <= Run(w, steps).puller.local
  {
    if |steps| > 0 {
      RunStaysInStep(w, steps[..|steps| - 1]);
      if InStepThroughout(w, steps[..|steps| - 1]) {
        StepInStepExactly(Run(w, steps[..|steps| - 1]), steps[|steps| - 1]);
      }
    }
  }

  // ---------------------------------------------------------- convergence

  /** Pulls one after another, each with the checks as they are at its time, of a gate
      that does not change meanwhile. */
  function PullAll(s: Puller, remote: seq<GateEvent>, oks: seq<Checks>): Puller
    decreases |oks|
  {
    if |oks| == 0 then s else PullAll(Pull(s, |remote|, remote, oks[0]), remote, oks[1..])
  }

  /** The verdict on the event at position i when it is its page's turn. */
  predicate PassesInTurn(remote: seq<GateEvent>, c: nat, i: nat, oks: seq<Checks>)
    requires c <= i < |remote| && |remote| - c <= |oks| * BATCH_SIZE
  {
    oks[(i - c) / BATCH_SIZE](remote[i])
  }

  lemma LaterTurn(remote: seq<GateEvent>, c: nat, i: nat, oks: seq<Checks>)
    requires c + BATCH_SIZE <= i < |remote| && |remote| - c <= |oks| * BATCH_SIZE
    ensures PassesInTurn(remote, c + BATCH_SIZE, i, oks[1..]) == PassesInTurn(remote, c, i, oks)
  {
    assert (i - c) / BATCH_SIZE == 1 + (i - c - BATCH_SIZE) / BATCH_SIZE;
  }

  lemma FirstTurn(remote: seq<GateEvent>, c: nat, i: nat, oks: seq<Checks>)
    requires c <= i < c + BATCH_SIZE && i < |remote| && |remote| - c <= |oks| * BATCH_SIZE
    ensures |oks| > 0 && PassesInTurn(remote, c, i, oks) == oks[0](remote[i])
  {
    assert (i - c) / BATCH_SIZE == 0;
  }

  /** What one pull leaves to the others. */
  lemma FirstPull(s: Puller, remote: seq<GateEvent>, oks: seq<Checks>)
    requires |oks| > 0
    ensures var s' := Pull(s, |remote|, remote, oks[0]);
            && Cursor(s') == (if Cursor(s) + BATCH_SIZE < |remote| then Cursor(s) + BATCH_SIZE
                              else Max(Cursor(s), |remote|))
            && (Cursor(s) >= |remote| ==> s' == s)
  {
    if Cursor(s) < |remote| {
      CursorMoves(s, |remote|, remote, oks[0]);
      BatchIsSlice(remote, Cursor(s));
    }
  }

  /** What enough pulls bring, from any state of the puller, with posts of its own or
      without: of the peer's events it has those it had, and those from the cursor on
      that passed in their turn. */
  lemma {:induction false} PullsHoldExactly(s: Puller, remote: seq<GateEvent>, oks: seq<Checks>, i: nat)
    requires DistinctIds(remote) && i < |remote| && |remote| - Cursor(s) <= |oks| * BATCH_SIZE
    ensures HasId(PullAll(s, remote, oks).local, remote[i].eventId)
       <==> HasId(s.local, remote[i].eventId)
            || (Cursor(s) <= i && PassesInTurn(remote, Cursor(s), i, oks))
    decreases |oks|
  {
    if |oks| > 0 {
      var c, s' := Cursor(s), Pull(s, |remote|, remote, oks[0]);
      FirstPull(s, remote, oks);
      PullsHoldExactly(s', remote, oks[1..], i);
      if c < |remote| {
        PullHolds(s, |remote|, remote, i, oks[0]);
        if c + BATCH_SIZE <= i {
          LaterTurn(remote, c, i, oks);
        } else if c <= i {
          FirstTurn(remote, c, i, oks);
        }
      }
    }
  }

  /** Convergence: a puller in step ends with the peer's very log, after as many pulls as
      there are pages in the gap, exactly when each event of the gap passed in its turn. */
  lemma {:induction false} PullsConverge(s: Puller, remote: seq<GateEvent>, oks: seq<Checks>)
    requires InStep(remote, s) && |remote| - |s.local| <= |oks| * BATCH_SIZE
    ensures PullAll(s, remote, oks).local == remote
       <==> forall i :: |s.local| <= i < |remote| ==> PassesInTurn(remote, |s.local|, i, oks)
  {
    var k := |s.local|;
    if PullAll(s, remote, oks).local == remote {
      forall i | k <= i < |remote| ensures PassesInTurn(remote, k, i, oks) {
        PullsHoldExactly(s, remote, oks, i);
        NotBefore(remote, 0, k, i);
        assert s.local == remote[0..k];
        assert HasId(remote, remote[i].eventId);
      }
    }
    if forall i :: k <= i < |remote| ==> PassesInTurn(remote, k, i, oks) {
      AllPassed(s, remote, oks);
    }
  }

  lemma {:induction false} AllPassed(s: Puller, remote: seq<GateEvent>, oks: seq<Checks>)
    requires InStep(remote, s) && |remote| - |s.local| <= |oks| * BATCH_SIZE
    requires forall i :: |s.local| <= i < |remote| ==> PassesInTurn(remote, |s.local|, i, oks)
    ensures PullAll(s, remote, oks).local == remote
    decreases |oks|
  {
    var k := |s.local|;
    if |oks| > 0 {
      if k < |remote| {
        BatchIsSlice(remote, k);
        forall e | e in PeerBatch(remote, k) ensures oks[0](e) {
          var j :| 0 <= j < |PeerBatch(remote, k)| && PeerBatch(remote, k)[j] == e;
          FirstTurn(remote, k, k + j, oks);
          assert remote[k + j] == e && PassesInTurn(remote, k, k + j, oks);
        }
      }
      PullAdvances(remote, s, |remote|, oks[0]);
      var s' := Pull(s, |remote|, remote, oks[0]);
      forall i | |s'.local| <= i < |remote| ensures PassesInTurn(remote, |s'.local|, i, oks[1..]) {
        LaterTurn(remote, k, i, oks);
        assert PassesInTurn(remote, k, i, oks);
      }
      AllPassed(s', remote, oks[1..]);
    }
  }

  /** A gate whose only event is older than 30 days: a new puller is told of it, refuses
      it, and counts it as pulled. */
  lemma StaleIsCounted(e: GateEvent, checks: Checks, now: real)
    requires e.timestamp < now - MAX_AGE
    ensures Pull(Puller([], 0), 1, [e], AtTime(checks, now)) == Puller([], 1)
  {
    var ok := AtTime(checks, now);
    assert [e][0..] == [e] && [e][..0] == [];
    assert Fresh([], [], ok) == [];
    FreshSnoc([], [], e, ok);
    assert [] + [e] == [e];
    assert Sort([] + Fresh([], [e], ok)) == [];
  }

  /** A puller with a post of its own never asks for the one event of the peer. */
  lemma {:induction false} OwnPostHides(own: GateEvent, x: GateEvent, oks: seq<Checks>)
    ensures PullAll(Puller([own], 0), [x], oks) == Puller([own], 0)
  {
    if |oks| > 0 {
      OwnPostHides(own, x, oks[1..]);
    }
  }

  // -------------------------------------------------------- missed for good

  lemma PullSkips(s: Puller, total: nat, remote: seq<GateEvent>, i: nat, ok: Checks)
    requires DistinctIds(remote) && i < |remote| && i < Cursor(s)
    requires !HasId(s.local, remote[i].eventId)
    ensures var s' := Pull(s, total, remote, ok);
            !HasId(s'.local, remote[i].eventId) && i < Cursor(s')
  {
    if Cursor(s) < total && Cursor(s) < |remote| {
      PullHolds(s, total, remote, i, ok);
      CursorMoves(s, total, remote, ok);
    }
  }

  /** A step that neither moves x within the peer's log nor brings it in by another way. */
  ghost predicate Leaves(w: World, step: Step, x: GateEvent) {
    match step
    case Remote(e) => HasId(w.remote, e.eventId) || !Less(e, x)
    case Local(e) => e.eventId != x.eventId
    case PullStep(_, _, _) => true
  }

  ghost predicate LeavesAll(w: World, steps: seq<Step>, x: GateEvent) {
    |steps| == 0
    || (LeavesAll(w, steps[..|steps| - 1], x) && Leaves(Run(w, steps[..|steps| - 1]), steps[|steps| - 1], x))
  }

  ghost predicate MissedAt(w: World, i: nat, x: GateEvent) {
    && DistinctIds(w.remote) && i < |w.remote| && w.remote[i] == x
    && i < Cursor(w.puller) && !HasId(w.puller.local, x.eventId)
  }

  lemma MissedRemote(w: World, e: GateEvent, i: nat, x: GateEvent)
    requires MissedAt(w, i, x) && Leaves(w, Remote(e), x)
    ensures MissedAt(Next(w, Remote(e)), i, x)
  {
    if !HasId(w.remote, e.eventId) {
      InsertAt(w.remote, e);
      InsertDistinct(w.remote, e);
      assert i < Position(w.remote, e);
    }
  }

  lemma MissedLocal(local: seq<GateEvent>, e: GateEvent, id: nat)
    requires !HasId(local, id) && e.eventId != id
    ensures !HasId(Insert(local, e), id) && |Insert(local, e)| == |local| + 1
  {
    InsertAt(local, e);
    InsertSameEvents(local, e);
    var local' := Insert(local, e);
    forall j | 0 <= j < |local'|
      ensures local'[j].eventId != id
    {
      assert local'[j] in multiset(local');
      assert local'[j] in local + [e];
    }
  }

  lemma MissedStep(w: World, step: Step, i: nat, x: GateEvent)
    requires MissedAt(w, i, x) && Leaves(w, step, x)
    ensures MissedAt(Next(w, step), i, x)
  {
    match step
    case Remote(e) => MissedRemote(w, e, i, x);
    case Local(e) => MissedLocal(w.puller.local, e, x.eventId);
    case PullStep(total, answered, ok) => PullSkips(w.puller, total, w.remote, i, ok);
  }

  /** An event of the peer that lies below the cursor and is missing locally is missed for
      good: no run brings it in, whatever is pulled, announced or lost and whatever the
      checks say at each pull, as long as no event of the peer is sorted in before it and
      nobody posts it here. */
  lemma {:induction false} MissedForGood(w: World, steps: seq<Step>, i: nat, x: GateEvent)
    requires MissedAt(w, i, x) && LeavesAll(w, steps, x)
    ensures MissedAt(Run(w, steps), i, x)
  {
    if |steps| > 0 {
      MissedForGood(w, steps[..|steps| - 1], i, x);
      MissedStep(Run(w, steps[..|steps| - 1]), steps[|steps| - 1], i, x);
    }
  }

  // ------------------------------------------------------------- the push

  /** The pushing side of one gate: the log, the remembered count, and the events of
      all batches that were answered with status 200. */
  datatype Pusher = Pusher(log: seq<GateEvent>, count: nat, acked: seq<GateEvent>)

  function Acknowledge(s: Pusher): Pusher {
    var batch := PeerBatch(s.log, s.count);
    s.(count := s.count + |batch|, acked := s.acked + batch)
  }

  /** The receiving endpoint. An event whose gate cannot be resolved ends the request
      before anything is ingested, and the answer still has status 200. */
  function GatePeerPush(held: seq<GateEvent>, batch: seq<GateEvent>, resolves: Checks, ok: Checks): seq<GateEvent> {
    if |batch| > RECEIVER_LIMIT || (exists e :: e in batch && !resolves(e)) then held
    else IngestPeer(held, batch, ok)
  }

  /** What the network does to a request. */
  datatype Fate = Lost | Refused | Delivered(replyLost: bool)

  /** The log gains an event, or a batch is sent, to a receiver that resolves and checks
      events as it does at that time. */
  datatype PushStep = Grow(event: GateEvent) | Send(fate: Fate, resolves: Checks, ok: Checks)

  datatype Lane = Lane(pusher: Pusher, held: seq<GateEvent>)

  function NextLane(w: Lane, step: PushStep): Lane {
    match step
    case Grow(e) => w.(pusher := w.pusher.(log := Post(w.pusher.log, e)))
    case Send(fate, resolves, ok) =>
      if w.pusher.count >= |w.pusher.log| || !fate.Delivered? then w
      else
        var held := GatePeerPush(w.held, PeerBatch(w.pusher.log, w.pusher.count), resolves, ok);
        Lane(if fate.replyLost then w.pusher else Acknowledge(w.pusher), held)
  }

  function RunLane(w: Lane, steps: seq<PushStep>): Lane {
    if |steps| == 0 then w
    else NextLane(RunLane(w, steps[..|steps| - 1]), steps[|steps| - 1])
  }

  /** The acknowledged batches add up to exactly the log below the count. */
  ghost predicate Covered(s: Pusher) {
    && Sorted(s.log) && DistinctIds(s.log)
    && s.count <= |s.log| && s.acked == s.log[..s.count]
  }

  /** A new event of the log comes before one that is already counted. */
  ghost predicate LateForPush(s: Pusher, e: GateEvent) {
    0 < s.count <= |s.log| && Less(e, s.log[s.count - 1])
  }

  lemma AcknowledgeCovers(s: Pusher)
    requires Covered(s)
    ensures Covered(Acknowledge(s)) && |PeerBatch(s.log, s.count)| <= RECEIVER_LIMIT
    ensures Acknowledge(s).count == if |s.log| - s.count < BATCH_SIZE then |s.log| else s.count + BATCH_SIZE
  {
    var batch := PeerBatch(s.log, s.count);
    assert s.log[..s.count] + batch == s.log[..s.count + |batch|];
  }

  /** The store sorts, so the gate log is not append-only: a new event keeps the count
      truthful exactly when it does not sort before an event already counted. */
  lemma CoveredUnlessLate(s: Pusher, e: GateEvent)
    requires Covered(s) && !HasId(s.log, e.eventId)
    ensures Covered(s.(log := Insert(s.log, e))) <==> !LateForPush(s, e)
  {
    InsertAt(s.log, e);
    InsertSorted(s.log, e);
    InsertDistinct(s.log, e);
    var p, log' := Position(s.log, e), Insert(s.log, e);
    if p < s.count {
      assert log'[..s.count][p] == e && s.log[..s.count][p] == s.log[p];
      assert s.log[p].eventId != e.eventId;
    } else {
      assert log'[..s.count] == s.log[..s.count];
      if s.count > 0 {
        assert p > 0 && (p - 1 == s.count - 1 || !Less(s.log[p - 1], s.log[s.count - 1]));
      }
    }
  }

  /** Steps whose new events are not late for the push. */
  ghost predicate InOrder(w: Lane, step: PushStep) {
    step.Grow? ==> HasId(w.pusher.log, step.event.eventId) || !LateForPush(w.pusher, step.event)
  }

  ghost predicate InOrderRun(w: Lane, steps: seq<PushStep>) {
    |steps| == 0
    || (InOrderRun(w, steps[..|steps| - 1]) && InOrder(RunLane(w, steps[..|steps| - 1]), steps[|steps| - 1]))
  }

  lemma LaneStepCovers(w: Lane, step: PushStep)
    requires Covered(w.pusher) && InOrder(w, step)
    ensures Covered(NextLane(w, step).pusher)
    ensures w.pusher.count <= NextLane(w, step).pusher.count
    ensures w.pusher.acked <= NextLane(w, step).pusher.acked
  {
    match step
    case Grow(e) =>
      if !HasId(w.pusher.log, e.eventId) {
        CoveredUnlessLate(w.pusher, e);
      }
    case Send(fate, resolves, ok) => AcknowledgeCovers(w.pusher);
  }

  /** In every run of pushes, lost requests, lost replies, refusals and new events that
      are not late, the count never goes back and the acknowledged batches concatenate
      to exactly the log below it. */
  lemma {:induction false} RunCovers(w: Lane, steps: seq<PushStep>)
    requires Covered(w.pusher) && InOrderRun(w, steps)
    ensures var w' := RunLane(w, steps);
      Covered(w'.pusher) && w.pusher.count <= w'.pusher.count && w.pusher.acked <= w'.pusher.acked
  {
    if |steps| > 0 {
      RunCovers(w, steps[..|steps| - 1]);
      LaneStepCovers(RunLane(w, steps[..|steps| - 1]), steps[|steps| - 1]);
    }
  }

  // ------------------------------------------------ what the receiver holds

  /** The receiver ends up with an id exactly when it had it, or the whole batch could
      be resolved and an event of that id passed the checks. */
  lemma HeldExactly(held: seq<GateEvent>, batch: seq<GateEvent>, resolves: Checks, ok: Checks, id: nat)
    requires |batch| <= RECEIVER_LIMIT
    ensures HasId(GatePeerPush(held, batch, resolves, ok), id)
       <==> HasId(held, id)
            || ((forall e :: e in batch ==> resolves(e))
                && exists i :: 0 <= i < |batch| && batch[i].eventId == id && ok(batch[i]))
  {
    IngestHolds(held, batch, ok, id);
  }

  /** Every acknowledged event is in the receiver's log. */
  ghost predicate Replicated(w: Lane) {
    forall e :: e in w.pusher.acked ==> HasId(w.held, e.eventId)
  }

  /** The receiver has the event after the batch: it was there, or the whole batch could be
      resolved and the event passed the checks. */
  ghost predicate Taken(held: seq<GateEvent>, batch: seq<GateEvent>, resolves: Checks, ok: Checks, e: GateEvent) {
    HasId(held, e.eventId) || (ok(e) && forall x :: x in batch ==> resolves(x))
  }

  lemma BatchTaken(s: Pusher, held: seq<GateEvent>, resolves: Checks, ok: Checks, e: GateEvent)
    requires Covered(s) && e in PeerBatch(s.log, s.count)
    ensures var batch := PeerBatch(s.log, s.count);
      HasId(GatePeerPush(held, batch, resolves, ok), e.eventId) <==> Taken(held, batch, resolves, ok, e)
  {
    AcknowledgeCovers(s);
    HeldExactly(held, PeerBatch(s.log, s.count), resolves, ok, e.eventId);
    OnlyOne(s.log, s.count, PeerBatch(s.log, s.count), e, ok);
  }

  lemma PushKeepsHeld(s: Pusher, held: seq<GateEvent>, resolves: Checks, ok: Checks, id: nat)
    requires Covered(s) && HasId(held, id)
    ensures HasId(GatePeerPush(held, PeerBatch(s.log, s.count), resolves, ok), id)
  {
    AcknowledgeCovers(s);
    HeldExactly(held, PeerBatch(s.log, s.count), resolves, ok, id);
  }

  /** Every event of the batch is taken. */
  ghost predicate AllTaken(w: Lane, resolves: Checks, ok: Checks) {
    var batch := PeerBatch(w.pusher.log, w.pusher.count);
    forall e :: e in batch ==> Taken(w.held, batch, resolves, ok, e)
  }

  /** An acknowledged push replicates its batch exactly when every event of it can be
      resolved and either passes the checks or is there already. Otherwise the count
      moves on all the same. */
  lemma PushReplicatesExactly(w: Lane, resolves: Checks, ok: Checks)
    requires Covered(w.pusher) && Replicated(w) && w.pusher.count < |w.pusher.log|
    ensures var w' := NextLane(w, Send(Delivered(false), resolves, ok));
      && w'.pusher.count == w.pusher.count + |PeerBatch(w.pusher.log, w.pusher.count)|
      && (Replicated(w') <==> AllTaken(w, resolves, ok))
  {
    var batch := PeerBatch(w.pusher.log, w.pusher.count);
    var held := GatePeerPush(w.held, batch, resolves, ok);
    forall e | e in w.pusher.acked
      ensures HasId(held, e.eventId)
    {
      PushKeepsHeld(w.pusher, w.held, resolves, ok, e.eventId);
    }
    forall e | e in batch
      ensures HasId(held, e.eventId) <==> Taken(w.held, batch, resolves, ok, e)
    {
      BatchTaken(w.pusher, w.held, resolves, ok, e);
    }
    assert forall e :: e in w.pusher.acked + batch <==> e in w.pusher.acked || e in batch;
  }

  /** In terms of the clock: if all can be resolved and nothing else is against them, the
      events the receiver lacks must be fresh. */
  lemma PushFreshExactly(w: Lane, resolves: Checks, checks: Checks, now: real)
    requires Covered(w.pusher) && Replicated(w) && w.pusher.count < |w.pusher.log|
    requires Passes(PeerBatch(w.pusher.log, w.pusher.count), resolves)
    requires Passes(PeerBatch(w.pusher.log, w.pusher.count), checks)
    ensures Replicated(NextLane(w, Send(Delivered(false), resolves, AtTime(checks, now))))
       <==> forall e :: e in PeerBatch(w.pusher.log, w.pusher.count) ==> HasId(w.held, e.eventId) || FreshAt(now, e)
  {
    PushReplicatesExactly(w, resolves, AtTime(checks, now));
  }

  /** A step that is not an acknowledged push, or one whose whole batch is taken. */
  ghost predicate Replicates(w: Lane, step: PushStep) {
    step.Send? && step.fate == Delivered(false) && w.pusher.count < |w.pusher.log|
    ==> AllTaken(w, step.resolves, step.ok)
  }

  ghost predicate AllReplicate(w: Lane, steps: seq<PushStep>) {
    |steps| == 0
    || (AllReplicate(w, steps[..|steps| - 1]) && Replicates(RunLane(w, steps[..|steps| - 1]), steps[|steps| - 1]))
  }

  lemma StepReplicates(w: Lane, step: PushStep)
    requires Covered(w.pusher) && Replicated(w)
    ensures Replicated(NextLane(w, step)) <==> Replicates(w, step)
  {
    if step.Send? && step.fate.Delivered? && w.pusher.count < |w.pusher.log| {
      if step.fate.replyLost {
        forall e | e in w.pusher.acked
          ensures HasId(NextLane(w, step).held, e.eventId)
        {
          PushKeepsHeld(w.pusher, w.held, step.resolves, step.ok, e.eventId);
        }
      } else {
        PushReplicatesExactly(w, step.resolves, step.ok);
      }
    }
  }

  /** An acknowledged event that the receiver lacks is not in the next batch. */
  lemma SkippedStep(w: Lane, step: PushStep, e: GateEvent)
    requires Covered(w.pusher) && e in w.pusher.acked && !HasId(w.held, e.eventId)
    ensures e in NextLane(w, step).pusher.acked && !HasId(NextLane(w, step).held, e.eventId)
  {
    if step.Send? {
      NotInBatch(w.pusher, e);
      AcknowledgeCovers(w.pusher);
      HeldExactly(w.held, PeerBatch(w.pusher.log, w.pusher.count), step.resolves, step.ok, e.eventId);
    }
  }

  lemma NotInBatch(s: Pusher, e: GateEvent)
    requires Covered(s) && e in s.acked
    ensures forall i :: 0 <= i < |PeerBatch(s.log, s.count)| ==> PeerBatch(s.log, s.count)[i].eventId != e.eventId
  {
    var k :| 0 <= k < s.count && s.log[k] == e;
    forall i | 0 <= i < |PeerBatch(s.log, s.count)|
      ensures PeerBatch(s.log, s.count)[i].eventId != e.eventId
    {
      assert PeerBatch(s.log, s.count)[i] == s.log[s.count + i];
    }
  }

  /** An acknowledged event that the receiver lacks is never sent again: in no run without
      late events does the receiver get it by push, whatever it checks or resolves later. */
  lemma {:induction false} SkippedForGood(w: Lane, steps: seq<PushStep>, e: GateEvent)
    requires Covered(w.pusher) && InOrderRun(w, steps)
    requires e in w.pusher.acked && !HasId(w.held, e.eventId)
    ensures e in RunLane(w, steps).pusher.acked && !HasId(RunLane(w, steps).held, e.eventId)
  {
    if |steps| > 0 {
      SkippedForGood(w, steps[..|steps| - 1], e);
      RunCovers(w, steps[..|steps| - 1]);
      SkippedStep(RunLane(w, steps[..|steps| - 1]), steps[|steps| - 1], e);
    }
  }

  /** Over every run without late events the receiver ends up with every acknowledged
      event exactly when every acknowledged batch was taken whole: one event that was
      not, at any time in the run, is missing at the end. */
  lemma {:induction false} RunReplicatesExactly(w: Lane, steps: seq<PushStep>)
    requires Covered(w.pusher) && Replicated(w) && InOrderRun(w, steps)
    ensures Replicated(RunLane(w, steps)) <==> AllReplicate(w, steps)
  {
    if |steps| > 0 {
      var front, last := steps[..|steps| - 1], steps[|steps| - 1];
      var mid := RunLane(w, front);
      RunReplicatesExactly(w, front);
      RunCovers(w, front);
      if Replicated(mid) {
        StepReplicates(mid, last);
      } else {
        var e :| e in mid.pusher.acked && !HasId(mid.held, e.eventId);
        SkippedStep(mid, last, e);
      }
    }
  }

  // ------------------------------------------------------------ the classes

  /** Events that pass the checks and are in no other gate. */
  function Unknown(ok: Checks, ids: set<nat>): Checks {
    e => ok(e) && e.eventId !in ids
  }

  /** The loop over a batch: which events are new candidates, and how the others count. */
  method SelectFresh(log: seq<GateEvent>, elsewhere: set<nat>, batch: seq<GateEvent>, ok: Checks)
      returns (candidates: seq<GateEvent>, duplicates: nat, rejected: nat)
    ensures candidates == Fresh(log, batch, Unknown(ok, elsewhere))
    ensures |candidates| + duplicates + rejected == |batch|
  {
    candidates, duplicates, rejected := [], 0, 0;
    for i := 0 to |batch|
      invariant candidates == Fresh(log, batch[..i], Unknown(ok, elsewhere))
      invariant |candidates| + duplicates + rejected == i
    {
      var evt := batch[i];
      assert batch[..i + 1] == batch[..i] + [evt];
      FreshSnoc(log, batch[..i], evt, Unknown(ok, elsewhere));
      if HasId(log, evt.eventId) || evt.eventId in elsewhere || HasId(candidates, evt.eventId) {
        duplicates := duplicates + 1;
      } else if !ok(evt) {
        rejected := rejected + 1;
      } else {
        candidates := candidates + [evt];
      }
    }
    assert batch[..|batch|] == batch;
  }

  class GateStore {
    var gates: map<GateId, seq<GateEvent>>

    function LogOf(gateId: GateId): seq<GateEvent>
      reads this
    {
      if gateId in gates then gates[gateId] else []
    }

    /** The ids of the events in the other gates; the event index spans all gates. */
    function Elsewhere(gateId: GateId): set<nat>
      reads this
    {
      set g, e | g in gates && g != gateId && e in gates[g] :: e.eventId
    }

    method IngestPeerEvents(gateId: GateId, batch: seq<GateEvent>, ok: Checks)
        returns (accepted: nat, duplicates: nat, rejected: nat)
      modifies this
      ensures gateId == "" ==> gates == old(gates) && accepted == duplicates == rejected == 0
      ensures gateId != "" ==> gates == old(gates)[gateId := LogOf(gateId)]
      ensures gateId != "" && Sorted(old(LogOf(gateId))) ==>
        LogOf(gateId) == IngestPeer(old(LogOf(gateId)), batch, Unknown(ok, old(Elsewhere(gateId))))
      ensures gateId != "" ==>
        && accepted == |Fresh(old(LogOf(gateId)), batch, Unknown(ok, old(Elsewhere(gateId))))|
        && accepted + duplicates + rejected == |batch|
    {
      if gateId == "" {
        return 0, 0, 0;
      }
      var log, elsewhere := LogOf(gateId), Elsewhere(gateId);
      gates := gates[gateId := log];
      var candidates: seq<GateEvent>;
      candidates, duplicates, rejected := SelectFresh(log, elsewhere, batch, ok);
      accepted := |candidates|;
      if candidates == [] {
        if Sorted(log) {
          SortIdle(log);
        }
        assert log + candidates == log;
        return;
      }
      gates := gates[gateId := Sort(log + candidates)];
    }
  }

  class GatePullWorker {
    const store: GateStore
    var lastCount: map<(Peer, GateId), nat>

    constructor (store: GateStore)
      ensures this.store == store && lastCount == map[]
    {
      this.store := store;
      lastCount := map[];
    }

    function State(peer: Peer, gateId: GateId): Puller
      reads this, store
    {
      Puller(store.LogOf(gateId), if (peer, gateId) in lastCount then lastCount[(peer, gateId)] else 0)
    }

    /** The body of the loop over the gates a peer announced. */
    method PullGate(peer: Peer, gateId: GateId, total: nat, remote: seq<GateEvent>, answered: bool, ok: Checks)
      requires Sorted(store.LogOf(gateId))
      modifies this, store
      ensures !answered ==> State(peer, gateId) == old(State(peer, gateId))
      ensures answered ==> State(peer, gateId).known == Pull(old(State(peer, gateId)), total, remote, ok).known
      ensures answered && gateId != "" ==>
        State(peer, gateId)
        == Pull(old(State(peer, gateId)), total, remote, Unknown(ok, old(store.Elsewhere(gateId))))
      ensures gateId == "" ==> store.gates == old(store.gates)
      ensures forall q, g :: (q, g) != (peer, gateId) && (q, g) in old(lastCount) ==>
                (q, g) in lastCount && lastCount[(q, g)] == old(lastCount)[(q, g)]
      ensures forall g :: g != gateId ==> store.LogOf(g) == old(store.LogOf(g))
    {
      var localKnown := if (peer, gateId) in lastCount then lastCount[(peer, gateId)] else 0;
      var localCount := |store.LogOf(gateId)|;
      var cursor := Max(localKnown, localCount);
      if cursor >= total || !answered {
        return;
      }
      var batch := PeerBatch(remote, cursor);
      if batch == [] {
        lastCount := lastCount[(peer, gateId) := total];
        return;
      }
      var accepted, duplicates, rejected := store.IngestPeerEvents(gateId, batch, ok);
      lastCount := lastCount[(peer, gateId) := cursor + |batch|];
    }
  }

  class GatePushWorker {
    const store: GateStore
    var lastCount: map<(Peer, GateId), nat>

    constructor (store: GateStore)
      ensures this.store == store && lastCount == map[]
    {
      this.store := store;
      lastCount := map[];
    }

    function Count(peer: Peer, gateId: GateId): nat
      reads this
    {
      if (peer, gateId) in lastCount then lastCount[(peer, gateId)] else 0
    }

    /** The body of the loop over the gates: the batch that is sent, and the new count.
        Status 200 alone decides; the body of the answer is not looked at. */
    method PushGate(peer: Peer, gateId: GateId, status: nat) returns (sent: seq<GateEvent>)
      modifies this
      ensures sent == PeerBatch(store.LogOf(gateId), old(Count(peer, gateId)))
      ensures Count(peer, gateId) == old(Count(peer, gateId)) + if status == 200 then |sent| else 0
      ensures forall q, g :: (q, g) != (peer, gateId) ==> Count(q, g) == old(Count(q, g))
    {
      var all := store.LogOf(gateId);
      var last := Count(peer, gateId);
      if last >= |all| {
        return [];
      }
      sent := PeerBatch(all, last);
      if status == 200 {
        lastCount := lastCount[(peer, gateId) := last + |sent|];
      }
    }
  }
}
