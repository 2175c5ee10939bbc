/** Pushing the public chain to the peers, 50 events at a time, over a network
    that loses requests and replies. (backend/main.py, _http_peer_push_loop and
    infonet_peer_push) */
module PeerPush {
  import opened Chain

  const BATCH_SIZE := 50
  const RECEIVER_LIMIT := 50

  type Peer = string

  /** How a receiver deals with a request that reaches it. */
  datatype Handling = TooLarge | BadHmac | Crashes(ingested: bool) | Handles

  /** What happens to one request. */
  datatype Fate = RequestLost | Arrives(handling: Handling, replyLost: bool)

  const DELIVERED := Arrives(Handles, false)

  datatype Reply = Reply(status: nat, ok: bool)

  /** One peer as seen from outside: its chain, the index the sender remembers for
      it, the events of all batches the sender saw acknowledged, and the events of
      all batches that reached the peer's ingest. */
  datatype Link = Link(chain: seq<Event>, cursor: nat, acked: seq<Event>, handed: seq<Event>)

  datatype Net = Net(log: seq<Event>, links: map<Peer, Link>)

  /** The receiver's endpoint; the judge is the receiver's, at this arrival. */
  function Receive(judge: Judge, link: Link, batch: seq<Event>, handling: Handling): (Link, Reply) {
    match handling
    case TooLarge => (link, Reply(413, false))
    case BadHmac => (link, Reply(403, false))
    case Crashes(ingested) =>
      (if ingested then Hand(judge, link, batch) else link, Reply(500, false))
    case Handles =>
      if |batch| > RECEIVER_LIMIT then (link, Reply(200, false))
      else if batch == [] then (link, Reply(200, true))
      else (Hand(judge, link, batch), Reply(200, true))
  }

  function Hand(judge: Judge, link: Link, batch: seq<Event>): Link {
    link.(chain := Ingest(judge, link.chain, batch).chain, handed := link.handed + batch)
  }

  function Batch(log: seq<Event>, link: Link): seq<Event> { Window(log, link.cursor, BATCH_SIZE) }

  /** One push to one peer; total is the length of the log when the cycle began. */
  function Push(judge: Judge, log: seq<Event>, link: Link, total: nat, fate: Fate): Link {
    if link.cursor >= total then link
    else
      var batch := Batch(log, link);
      match fate
      case RequestLost => link
      case Arrives(handling, replyLost) =>
        var (link', reply) := Receive(judge, link, batch, handling);
        if replyLost || reply.status != 200 then link'
        else link'.(cursor := link.cursor + |batch|, acked := link.acked + batch)
  }

  /** A push carries the receiver's judge at its arrival. The reset empties the log and
      leaves the cursors as they are. */
  datatype Step =
    | Append(event: Event)
    | PushTo(peer: Peer, total: nat, judge: Judge, fate: Fate)
    | Reset

  function Next(net: Net, step: Step): Net {
    match step
    case Append(e) => net.(log := net.log + [e])
    case PushTo(peer, total, judge, fate) =>
      if peer !in net.links then net
      else net.(links := net.links[peer := Push(judge, net.log, net.links[peer], total, fate)])
    case Reset => net.(log := [])
  }

  function Run(net: Net, steps: seq<Step>): Net {
    if |steps| == 0 then net else Next(Run(net, steps[..|steps| - 1]), steps[|steps| - 1])
  }

  /** Between two resets the log is append-only. */
  predicate AppendOnly(steps: seq<Step>) { forall i :: 0 <= i < |steps| ==> !steps[i].Reset? }

  // ------------------------------------------------------------- bookkeeping

  /** The cursor's meaning: acknowledged batches add up to exactly the log below
      the cursor, and all of that was handed to the peer's ingest. */
  ghost predicate Accounted(log: seq<Event>, link: Link) {
    && link.cursor <= |log|
    && link.acked == log[..link.cursor]
    && (forall e :: e in link.acked ==> e in link.handed)
  }

  /** No batch is ever longer than the receiver takes, so status 200 means that the whole
      batch was handed to the peer's ingest. */
  lemma BatchFits(judge: Judge, log: seq<Event>, link: Link, handling: Handling)
    ensures |Batch(log, link)| <= RECEIVER_LIMIT
    ensures Batch(log, link) != [] && Receive(judge, link, Batch(log, link), handling).1.status == 200 ==>
      Receive(judge, link, Batch(log, link), handling).0 == Hand(judge, link, Batch(log, link))
    ensures link.cursor <= |log| ==>
      log[..link.cursor] + Batch(log, link) == log[..link.cursor + |Batch(log, link)|]
  {
  }

  lemma PushAccounts(judge: Judge, log: seq<Event>, link: Link, total: nat, fate: Fate)
    requires Accounted(log, link)
    ensures Accounted(log, Push(judge, log, link, total, fate))
    ensures link.cursor <= Push(judge, log, link, total, fate).cursor
  {
    BatchFits(judge, log, link, if fate.Arrives? then fate.handling else Handles);
  }

  lemma PushKeepsChain(judge: Judge, log: seq<Event>, link: Link, total: nat, fate: Fate)
    ensures link.chain <= Push(judge, log, link, total, fate).chain
  {
    IngestAppends(judge, link.chain, Batch(log, link));
  }

  ghost predicate AllAccounted(net: Net) {
    forall p :: p in net.links ==> Accounted(net.log, net.links[p])
  }

  /** How a net may change: the log only grows, no cursor and no chain goes back. */
  ghost predicate Advances(net: Net, net': Net) {
    && net.links.Keys == net'.links.Keys
    && net.log <= net'.log
    && (forall p :: p in net.links ==>
          net.links[p].cursor <= net'.links[p].cursor && net.links[p].chain <= net'.links[p].chain)
  }

  lemma StepAccounts(net: Net, step: Step)
    requires AllAccounted(net) && !step.Reset?
    ensures AllAccounted(Next(net, step)) && Advances(net, Next(net, step))
  {
    match step
    case PushTo(peer, total, judge, fate) =>
      if peer in net.links {
        PushAccounts(judge, net.log, net.links[peer], total, fate);
        PushKeepsChain(judge, net.log, net.links[peer], total, fate);
      }
    case Append(e) =>
      forall p | p in net.links
        ensures Accounted(net.log + [e], net.links[p])
      {
        assert (net.log + [e])[..net.links[p].cursor] == net.log[..net.links[p].cursor];
      }
  }

  /** For every interleaving of appends, pushes, lost requests, lost replies and refusals on
      an append-only log, whatever chains the peers hold and whatever they accept: no
      cursor goes back or passes the log, the acknowledged batches are the log below the
      cursor, all of that was handed to the peer's ingest, and no peer loses an event. */
  lemma {:induction false} RunAccounts(net: Net, steps: seq<Step>)
    requires AllAccounted(net) && AppendOnly(steps)
    ensures AllAccounted(Run(net, steps)) && Advances(net, Run(net, steps))
  {
    if |steps| > 0 {
      var front := steps[..|steps| - 1];
      RunAccounts(net, front);
      StepAccounts(Run(net, front), steps[|steps| - 1]);
    }
  }

  // ------------------------------------------------- what the receiver holds

  /** The receiver's chain is a prefix of the sender's log. */
  ghost predicate Follows(log: seq<Event>, link: Link) { link.chain <= log && link.cursor <= |log| }

  /** It also reaches at least to the cursor. */
  ghost predicate Mirrors(log: seq<Event>, link: Link) { Follows(log, link) && link.cursor <= |link.chain| }

  predicate Counted(link: Link, total: nat, fate: Fate) { link.cursor < total && fate == DELIVERED }

  /** A batch at a receiver that holds a prefix of the log. */
  lemma HandOutcome(judge: Judge, log: seq<Event>, link: Link)
    requires Linked(log) && Follows(log, link)
    ensures var k, c, b := |link.chain|, link.cursor, link.cursor + |Batch(log, link)|;
      && b <= |log|
      && Hand(judge, link, Batch(log, link)).chain == log[..SliceReach(judge, log, k, c, b)]
  {
    var k, c, b := |link.chain|, link.cursor, link.cursor + |Batch(log, link)|;
    assert link.chain == log[..k] && Batch(log, link) == log[c..b];
    IngestSlice(judge, log, k, c, b);
  }

  lemma PushFollows(judge: Judge, log: seq<Event>, link: Link, total: nat, fate: Fate)
    requires Linked(log) && Follows(log, link)
    ensures Follows(log, Push(judge, log, link, total, fate))
  {
    HandOutcome(judge, log, link);
  }

  lemma PushUncounted(judge: Judge, log: seq<Event>, link: Link, total: nat, fate: Fate)
    requires !Counted(link, total, fate)
    ensures Push(judge, log, link, total, fate).cursor == link.cursor
            || Batch(log, link) == []
    ensures Push(judge, log, link, total, fate).cursor <= link.cursor + |Batch(log, link)|
  {
  }

  lemma PushCounted(judge: Judge, log: seq<Event>, link: Link, total: nat)
    requires link.cursor < total
    ensures var link' := Push(judge, log, link, total, DELIVERED);
      && link'.cursor == link.cursor + |Batch(log, link)|
      && link'.chain == Hand(judge, link, Batch(log, link)).chain
  {
    BatchFits(judge, log, link, Handles);
    assert link.chain + [] == link.chain;
  }

  /** One push to a peer that mirrors the log: it still does afterwards exactly when the
      push was not counted, or every event of the batch beyond what the peer holds was
      accepted on arrival. The answer has status 200 either way. */
  lemma PushMirrorsExactly(judge: Judge, log: seq<Event>, link: Link, total: nat, fate: Fate)
    requires Linked(log) && Mirrors(log, link)
    ensures Mirrors(log, Push(judge, log, link, total, fate)) <==>
      (Counted(link, total, fate) ==>
         AllAccepted(judge, log, |link.chain|, link.cursor + |Batch(log, link)|))
  {
    PushFollows(judge, log, link, total, fate);
    PushKeepsChain(judge, log, link, total, fate);
    if Counted(link, total, fate) {
      var k, b := |link.chain|, link.cursor + |Batch(log, link)|;
      HandOutcome(judge, log, link);
      PushCounted(judge, log, link, total);
      if k < b {
        ReachSpec(judge, log, k, b);
      }
    } else {
      PushUncounted(judge, log, link, total, fate);
    }
  }

  /** In terms of the clock: with nothing else to object to, the batch must be fresh. */
  lemma PushFreshExactly(checks: Judge, now: int, maxAge: int, log: seq<Event>, link: Link, total: nat)
    requires Linked(log) && Mirrors(log, link) && link.cursor < total
    requires AllAccepted(checks, log, |link.chain|, link.cursor + |Batch(log, link)|)
    ensures Mirrors(log, Push(AtTime(checks, now, maxAge), log, link, total, DELIVERED)) <==>
      forall i :: |link.chain| <= i < link.cursor + |Batch(log, link)| ==> Fresh(now, maxAge, log[i])
  {
    var judge, b := AtTime(checks, now, maxAge), link.cursor + |Batch(log, link)|;
    PushMirrorsExactly(judge, log, link, total, DELIVERED);
    forall i | |link.chain| <= i < b
      ensures AcceptedAt(judge, log, i) <==> Fresh(now, maxAge, log[i])
    {
      FreshOnArrival(checks, now, maxAge, log, i);
      assert AcceptedAt(checks, log, i);
    }
  }

  // ------------------------------------------------------------- falling behind

  /** The peer's newest event is not the one in front of the cursor and none after that,
      so nothing that is still pushed builds on it. At cursor 0 the genesis marker is in
      front. */
  ghost predicate HeadGone(log: seq<Event>, cursor: nat, head: Hash) {
    && (cursor == 0 ==> head != GENESIS_HASH)
    && forall i :: 0 <= i < |log| && cursor - 1 <= i ==> log[i].eventId != head
  }

  /** A peer that holds a prefix and is short of the cursor is in that state. */
  lemma ShortIsGone(log: seq<Event>, link: Link)
    requires Linked(log) && link.chain <= log && |link.chain| < link.cursor
    ensures HeadGone(log, link.cursor, Head(link.chain))
  {
    var k := |link.chain|;
    forall i | link.cursor - 1 <= i < |log|
      ensures log[i].eventId != Head(link.chain)
    {
      if k > 0 {
        DistinctIdsApply(log, k - 1, i);
      } else {
        assert HasId(log, log[i].eventId);
      }
    }
  }

  lemma PushNoGain(judge: Judge, log: seq<Event>, link: Link, total: nat, fate: Fate)
    requires Linked(log) && HeadGone(log, link.cursor, Head(link.chain))
    ensures Push(judge, log, link, total, fate).chain == link.chain
  {
    var batch := Batch(log, link);
    forall e | e in batch
      ensures e.prevHash != Head(link.chain)
    {
      var i :| 0 <= i < |batch| && batch[i] == e;
      assert e == log[link.cursor + i] && LinkedAt(log, link.cursor + i);
    }
    IngestForeign(judge, link.chain, batch);
  }

  lemma {:induction false} LogGrows(net: Net, steps: seq<Step>, n: nat)
    requires AppendOnly(steps) && n <= |steps|
    ensures Run(net, steps[..n]).log <= Run(net, steps).log
  {
    if n < |steps| {
      assert steps[..|steps| - 1][..n] == steps[..n];
      LogGrows(net, steps[..|steps| - 1], n);
    } else {
      assert steps[..n] == steps;
    }
  }

  lemma {:induction false} CursorGrows(net: Net, steps: seq<Step>, peer: Peer)
    requires peer in net.links
    ensures peer in Run(net, steps).links && net.links[peer].cursor <= Run(net, steps).links[peer].cursor
  {
    if |steps| > 0 {
      CursorGrows(net, steps[..|steps| - 1], peer);
    }
  }

  /** A peer whose newest event is gone from what is still to be pushed, a forked one as
      well as one that is short of the cursor, never gets another event by push: in no
      run on an append-only log, whatever its checks say. */
  lemma {:induction false} GapIsForever(net: Net, steps: seq<Step>, peer: Peer)
    requires peer in net.links && AppendOnly(steps) && Linked(Run(net, steps).log)
    requires HeadGone(Run(net, steps).log, net.links[peer].cursor, Head(net.links[peer].chain))
    ensures peer in Run(net, steps).links && Run(net, steps).links[peer].chain == net.links[peer].chain
  {
    if |steps| > 0 {
      var front, last := steps[..|steps| - 1], steps[|steps| - 1];
      var mid := Run(net, front);
      LogGrows(net, steps, |steps| - 1);
      var L := Run(net, steps).log;
      LinkedPrefix(L, |mid.log|);
      assert mid.log == L[..|mid.log|];
      GapIsForever(net, front, peer);
      CursorGrows(net, front, peer);
      if last.PushTo? && last.peer == peer {
        PushNoGain(last.judge, mid.log, mid.links[peer], last.total, last.fate);
      }
    }
  }

  /** No counted push in the run brought the peer an event that it did not accept. */
  ghost predicate NeverRefused(net: Net, steps: seq<Step>, peer: Peer) {
    |steps| == 0
    || (NeverRefused(net, steps[..|steps| - 1], peer)
        && TakesAll(Run(net, steps[..|steps| - 1]), steps[|steps| - 1], peer))
  }

  ghost predicate TakesAll(net: Net, step: Step, peer: Peer) {
    step.PushTo? && step.peer == peer && peer in net.links && Counted(net.links[peer], step.total, step.fate) ==>
      var link := net.links[peer];
      var b := link.cursor + |Batch(net.log, link)|;
      b <= |net.log| && AllAccepted(step.judge, net.log, |link.chain|, b)
  }

  lemma StepMirrors(net: Net, step: Step, peer: Peer)
    requires peer in net.links && !step.Reset? && Linked(net.log) && Follows(net.log, net.links[peer])
    ensures var net' := Next(net, step);
      && peer in net'.links && Follows(net'.log, net'.links[peer])
      && (Mirrors(net'.log, net'.links[peer]) <==>
            Mirrors(net.log, net.links[peer]) && TakesAll(net, step, peer))
  {
    var link := net.links[peer];
    if step.PushTo? && step.peer == peer {
      PushFollows(step.judge, net.log, link, step.total, step.fate);
      if Mirrors(net.log, link) {
        PushMirrorsExactly(step.judge, net.log, link, step.total, step.fate);
        HandOutcome(step.judge, net.log, link);
      } else {
        ShortIsGone(net.log, link);
        PushNoGain(step.judge, net.log, link, step.total, step.fate);
      }
    }
  }

  /** Over every run on an append-only log a peer that mirrored it at first holds a prefix
      of it at the end, and one that reaches at least to the cursor exactly when no
      counted push brought it an event that it refused. */
  lemma {:induction false} RunMirrorsExactly(net: Net, steps: seq<Step>, peer: Peer)
    requires peer in net.links && AppendOnly(steps) && Linked(Run(net, steps).log)
    requires Mirrors(net.log, net.links[peer])
    ensures var net' := Run(net, steps);
      && peer in net'.links && Follows(net'.log, net'.links[peer])
      && (Mirrors(net'.log, net'.links[peer]) <==> NeverRefused(net, steps, peer))
  {
    if |steps| > 0 {
      var front := steps[..|steps| - 1];
      var mid := Run(net, front);
      LogGrows(net, steps, |steps| - 1);
      var L := Run(net, steps).log;
      LinkedPrefix(L, |mid.log|);
      assert mid.log == L[..|mid.log|];
      RunMirrorsExactly(net, front, peer);
      StepMirrors(mid, steps[|steps| - 1], peer);
    }
  }

  // ------------------------------------------------------- repeated deliveries

  function PushTimes(judge: Judge, log: seq<Event>, link: Link, n: nat): Link
    decreases n
  {
    if n == 0 then link else PushTimes(judge, log, Push(judge, log, link, |log|, DELIVERED), n - 1)
  }

  /** What enough delivered pushes come to, from any cursor within the log: everything from
      the cursor on is handed over, and a peer that holds a prefix gets as far as it
      accepts when it reaches to the cursor, and nothing when it does not. */
  lemma {:induction false} DeliveredPushes(judge: Judge, log: seq<Event>, link: Link, n: nat)
    requires Linked(log) && Follows(log, link) && |log| - link.cursor <= n * BATCH_SIZE
    ensures var link' := PushTimes(judge, log, link, n);
      && link'.cursor == |log| && link'.handed == link.handed + log[link.cursor..]
      && link'.chain == if link.cursor <= |link.chain| then log[..Reach(judge, log, |link.chain|, |log|)]
                        else link.chain
    decreases n
  {
    if n == 0 {
      assert log[link.cursor..] == [];
      assert |link.chain| >= |log| ==> link.chain == log == log[..|log|];
    } else if link.cursor == |log| {
      DeliveredPushes(judge, log, link, n - 1);
    } else {
      var next := Push(judge, log, link, |log|, DELIVERED);
      PushFollows(judge, log, link, |log|, DELIVERED);
      BatchFits(judge, log, link, Handles);
      DeliveredPushes(judge, log, next, n - 1);
      assert Batch(log, link) + log[next.cursor..] == log[link.cursor..];
      OnePush(judge, log, link);
    }
  }

  /** The chain after one push and the rest of the way. */
  lemma OnePush(judge: Judge, log: seq<Event>, link: Link)
    requires Linked(log) && Follows(log, link) && link.cursor < |log|
    ensures var next := Push(judge, log, link, |log|, DELIVERED);
      && Follows(log, next)
      && (link.cursor <= |link.chain| ==>
            (if next.cursor <= |next.chain| then log[..Reach(judge, log, |next.chain|, |log|)] else next.chain)
            == log[..Reach(judge, log, |link.chain|, |log|)])
      && (|link.chain| < link.cursor ==> next.chain == link.chain && |next.chain| < next.cursor)
  {
    var k, b := |link.chain|, link.cursor + |Batch(log, link)|;
    var next := Push(judge, log, link, |log|, DELIVERED);
    PushFollows(judge, log, link, |log|, DELIVERED);
    HandOutcome(judge, log, link);
    PushCounted(judge, log, link, |log|);
    var m := SliceReach(judge, log, k, link.cursor, b);
    assert next.cursor == b && next.chain == log[..m] && |next.chain| == m && link.chain == log[..k];
    if link.cursor <= k < b {
      ReachSplit(judge, log, k, b, |log|);
    }
  }

  /** One delivered push brings a peer that holds a prefix something new exactly when its
      chain ends inside the batch and its next event is accepted. */
  lemma GainsExactly(judge: Judge, log: seq<Event>, link: Link)
    requires Linked(log) && Follows(log, link) && link.cursor < |log|
    ensures Push(judge, log, link, |log|, DELIVERED).chain != link.chain <==>
      link.cursor <= |link.chain| < link.cursor + |Batch(log, link)| && AcceptedAt(judge, log, |link.chain|)
  {
    var k, b := |link.chain|, link.cursor + |Batch(log, link)|;
    HandOutcome(judge, log, link);
    BatchFits(judge, log, link, Handles);
    assert link.chain == log[..k];
    if link.cursor <= k < b {
      assert LinkedAt(log, k);
      if AcceptedAt(judge, log, k) {
        ReachSplit(judge, log, k, k + 1, b);
        ReachSpec(judge, log, k, k + 1);
        assert AllAccepted(judge, log, k, k + 1);
      } else {
        ReachStops(judge, log, k, k, b);
      }
    }
  }

  // --------------------------------------------------- after a chain reset

  /** After the reset the peers keep their chains and cursors and the log is built anew.
      Once enough pushes are delivered, a non-empty new log has been handed over
      completely exactly when the cursor was zero. */
  lemma CompleteExactly(judge: Judge, log: seq<Event>, link: Link, n: nat)
    requires ProperIds(log) && log != [] && |log| - link.cursor <= n * BATCH_SIZE
    ensures var link' := PushTimes(judge, log, link, n);
      && link.handed <= link'.handed
      && ((forall e :: e in log ==> e in link'.handed[|link.handed|..]) <==> link.cursor == 0)
  {
    var link' := PushTimes(judge, log, link, n);
    HandedExactly(judge, log, link, n);
    var rest := if link.cursor <= |log| then log[link.cursor..] else [];
    assert link'.handed[|link.handed|..] == rest;
    if link.cursor > 0 {
      assert log[0] in log;
      if log[0] in rest {
        var i :| link.cursor <= i < |log| && log[i] == log[0];
        DistinctIdsApply(log, 0, i);
      }
    }
  }

  lemma {:induction false} HandedExactly(judge: Judge, log: seq<Event>, link: Link, n: nat)
    requires |log| - link.cursor <= n * BATCH_SIZE
    ensures PushTimes(judge, log, link, n).handed
         == link.handed + if link.cursor <= |log| then log[link.cursor..] else []
    decreases n
  {
    var next := Push(judge, log, link, |log|, DELIVERED);
    if n > 0 {
      HandedExactly(judge, log, next, n - 1);
      if link.cursor < |log| {
        BatchFits(judge, log, link, Handles);
        assert Batch(log, link) + log[next.cursor..] == log[link.cursor..];
      }
    }
    if link.cursor == |log| {
      assert log[link.cursor..] == [];
    }
  }

  /** Whatever a link is handed during a run lies at or after its first cursor. */
  ghost predicate HandedFrom(log: seq<Event>, start: nat, was: Link, link: Link) {
    && start <= link.cursor
    && was.handed <= link.handed
    && forall e :: e in link.handed[|was.handed|..] ==> start < |log| && e in log[start..]
  }

  lemma PushHandsFrom(judge: Judge, log: seq<Event>, start: nat, was: Link, link: Link, total: nat, fate: Fate)
    requires HandedFrom(log, start, was, link)
    ensures HandedFrom(log, start, was, Push(judge, log, link, total, fate))
  {
    var batch := Batch(log, link);
    forall e | e in batch
      ensures start < |log| && e in log[start..]
    {
      var i :| 0 <= i < |batch| && batch[i] == e;
      assert log[start..][link.cursor - start + i] == e;
    }
    assert (link.handed + batch)[|was.handed|..] == link.handed[|was.handed|..] + batch;
  }

  /** In every run after a reset, and in every other run without one, the events below the
      cursor that a peer starts with are never handed to it. */
  lemma {:induction false} NothingBelowCursor(net: Net, steps: seq<Step>, peer: Peer)
    requires peer in net.links && AppendOnly(steps)
    ensures var net' := Run(net, steps);
      && peer in net'.links && net.log <= net'.log
      && HandedFrom(net'.log, net.links[peer].cursor, net.links[peer], net'.links[peer])
  {
    var start, was := net.links[peer].cursor, net.links[peer];
    if |steps| > 0 {
      var front, last := steps[..|steps| - 1], steps[|steps| - 1];
      NothingBelowCursor(net, front, peer);
      var mid := Run(net, front);
      if last.PushTo? {
        if last.peer == peer {
          PushHandsFrom(last.judge, mid.log, start, was, mid.links[peer], last.total, last.fate);
        }
      } else {
        forall e | e in mid.links[peer].handed[|was.handed|..]
          ensures e in (mid.log + [last.event])[start..]
        {
          assert (mid.log + [last.event])[start..] == mid.log[start..] + [last.event];
        }
      }
    }
  }

  // ------------------------------------------------------------ failing runs

  function AcceptAll(chain: seq<Event>, e: Event): Verdict { Accept }

  /** A node with a single peer. */
  function One(log: seq<Event>, link: Link): Net { Net(log, map["p" := link]) }

  function Empty(): Net { One([], Link([], 0, [], [])) }

  lemma NextOne(log: seq<Event>, link: Link, e: Event, total: nat, judge: Judge, fate: Fate)
    ensures Next(One(log, link), Append(e)) == One(log + [e], link)
    ensures Next(One(log, link), PushTo("p", total, judge, fate)) == One(log, Push(judge, log, link, total, fate))
    ensures Next(One(log, link), Reset) == One([], link)
  {
  }

  function Sample(id: Hash, prev: Hash, timestamp: int): Event { Event(id, prev, timestamp, false, "") }

  lemma RunStep(net: Net, steps: seq<Step>, step: Step)
    ensures Run(net, steps + [step]) == Next(Run(net, steps), step)
  {
    assert (steps + [step])[..|steps|] == steps;
  }

  lemma OneEvent(judge: Judge, chain: seq<Event>, e: Event)
    ensures Ingest(judge, chain, [e]) == IngestOne(judge, IngestResult(chain, 0, 0, 0), e)
  {
    assert [e][..0] == [];
  }

  /** The event at the cursor, delivered as a batch of its own. */
  lemma LastDelivered(judge: Judge, log: seq<Event>, link: Link)
    requires |log| == link.cursor + 1
    ensures var e := log[link.cursor];
      Push(judge, log, link, |log|, DELIVERED)
      == Link(IngestOne(judge, IngestResult(link.chain, 0, 0, 0), e).chain, |log|, link.acked + [e], link.handed + [e])
  {
    assert Batch(log, link) == [log[link.cursor]];
    OneEvent(judge, link.chain, log[link.cursor]);
  }

  /** An event that was appended at time t and whose requests were lost for 25 hours: the
      push that is delivered then is answered with status 200, the cursor passes the
      event, and the peer does not have it. */
  lemma StaleIsSkipped(t: int)
    requires t > 0
    ensures var e, judge := Sample(1, 0, t), AtTime(AcceptAll, t + 90000, DEFAULT_MAX_AGE);
      Run(Empty(), [Append(e), PushTo("p", 1, AcceptAll, RequestLost), PushTo("p", 1, judge, DELIVERED)])
      == One([e], Link([], 1, [e], [e]))
  {
    var e, judge := Sample(1, 0, t), AtTime(AcceptAll, t + 90000, DEFAULT_MAX_AGE);
    var s := [Append(e), PushTo("p", 1, AcceptAll, RequestLost), PushTo("p", 1, judge, DELIVERED)];
    var link := Link([], 0, [], []);
    RunThree(Empty(), s);
    NextOne([], link, e, 1, judge, DELIVERED);
    assert [] + [e] == [e];
    NextOne([e], link, e, 1, AcceptAll, RequestLost);
    NextOne([e], link, e, 1, judge, DELIVERED);
    LastDelivered(judge, [e], link);
    TooOld(AcceptAll, t + 90000, DEFAULT_MAX_AGE, [], e);
  }

  lemma TooOld(checks: Judge, now: int, maxAge: int, chain: seq<Event>, e: Event)
    requires !Fresh(now, maxAge, e)
    ensures AtTime(checks, now, maxAge)(chain, e) != Accept
  {
  }

  lemma RunThree(net: Net, s: seq<Step>)
    requires |s| >= 3
    ensures Run(net, s[..3]) == Next(Next(Next(net, s[0]), s[1]), s[2])
    ensures |s| == 3 ==> Run(net, s) == Run(net, s[..3])
  {
    assert s[..3][..2] == s[..2] && s[..2][..1] == s[..1] && s[..1][..0] == [];
    assert Run(net, s[..1]) == Next(net, s[0]);
    assert Run(net, s[..2]) == Next(Run(net, s[..1]), s[1]);
    assert |s| == 3 ==> s[..3] == s;
  }

  lemma RunSix(net: Net, s: seq<Step>)
    requires |s| == 6
    ensures Run(net, s) == Next(Next(Next(Run(net, s[..3]), s[3]), s[4]), s[5])
  {
    assert s[..5][..4] == s[..4] && s[..4][..3] == s[..3];
    assert Run(net, s[..4]) == Next(Run(net, s[..3]), s[3]);
    assert Run(net, s[..5]) == Next(Run(net, s[..4]), s[4]);
  }

  /** The node pushes an event, loses its chain in a reset and builds a new one of two
      events: the first of them is never handed to the peer, and the second cannot be
      taken by it. */
  lemma ResetLosesEvents(t: int)
    ensures var e, f, g := Sample(1, 0, t), Sample(2, 0, t), Sample(3, 2, t);
      Run(Empty(), [Append(e), PushTo("p", 1, AcceptAll, DELIVERED), Reset, Append(f), Append(g),
                    PushTo("p", 2, AcceptAll, DELIVERED)])
      == One([f, g], Link([e], 2, [e, g], [e, g]))
  {
    var e, f, g := Sample(1, 0, t), Sample(2, 0, t), Sample(3, 2, t);
    var push1, push2 := PushTo("p", 1, AcceptAll, DELIVERED), PushTo("p", 2, AcceptAll, DELIVERED);
    var s := [Append(e), push1, Reset, Append(f), Append(g), push2];
    RunThree(Empty(), s);
    RunSix(Empty(), s);
    UntilReset(e);
    SinceReset(e, f, g);
  }

  lemma UntilReset(e: Event)
    requires e.prevHash == GENESIS_HASH
    ensures Next(Next(Next(Empty(), Append(e)), PushTo("p", 1, AcceptAll, DELIVERED)), Reset)
         == One([], Link([e], 1, [e], [e]))
  {
    var link := Link([], 0, [], []);
    NextOne([], link, e, 1, AcceptAll, DELIVERED);
    assert [] + [e] == [e];
    NextOne([e], link, e, 1, AcceptAll, DELIVERED);
    LastDelivered(AcceptAll, [e], link);
    NextOne([e], Link([e], 1, [e], [e]), e, 1, AcceptAll, DELIVERED);
  }

  lemma SinceReset(e: Event, f: Event, g: Event)
    requires g.prevHash != e.eventId
    ensures Next(Next(Next(One([], Link([e], 1, [e], [e])), Append(f)), Append(g)), PushTo("p", 2, AcceptAll, DELIVERED))
         == One([f, g], Link([e], 2, [e, g], [e, g]))
  {
    var link := Link([e], 1, [e], [e]);
    NextOne([], link, f, 2, AcceptAll, DELIVERED);
    assert [] + [f] == [f] && [f] + [g] == [f, g] && [e] + [g] == [e, g];
    NextOne([f], link, g, 2, AcceptAll, DELIVERED);
    NextOne([f, g], link, g, 2, AcceptAll, DELIVERED);
    LastDelivered(AcceptAll, [f, g], link);
  }

  // ------------------------------------------------------------ the worker

  function PushSteps(peers: seq<Peer>, total: nat, judges: seq<Judge>, fates: seq<Fate>): seq<Step>
    requires |peers| == |fates| == |judges|
  {
    if peers == [] then []
    else
      var n := |peers| - 1;
      PushSteps(peers[..n], total, judges[..n], fates[..n]) + [PushTo(peers[n], total, judges[n], fates[n])]
  }

  /** The push worker with the remembered index per peer; what happens on the
      other side is kept in remotes, whose cursor field mirrors that index. */
  class PushWorker {
    var events: seq<Event>
    var lastIndex: map<Peer, nat>
    var remotes: map<Peer, Link>

    ghost predicate Valid()
      reads this
    {
      forall p :: p in remotes ==>
        remotes[p].cursor == if p in lastIndex then lastIndex[p] else 0
    }

    ghost function State(): Net
      reads this
    {
      Net(events, remotes)
    }

    /** One request to one peer. */
    method PushPeer(judge: Judge, peer: Peer, total: nat, fate: Fate)
      requires Valid() && peer in remotes
      modifies this
      ensures Valid() && State() == Next(old(State()), PushTo(peer, total, judge, fate))
    {
      var last := if peer in lastIndex then lastIndex[peer] else 0;
      if last >= total {
        assert remotes[peer := remotes[peer]] == remotes;
        return;
      }
      var batch := Window(events, last, BATCH_SIZE);
      match fate {
        case RequestLost =>
          assert remotes[peer := remotes[peer]] == remotes;
        case Arrives(handling, replyLost) =>
          var (link, reply) := Receive(judge, remotes[peer], batch, handling);
          if !replyLost && reply.status == 200 {
            lastIndex := lastIndex[peer := last + |batch|];
            link := link.(cursor := last + |batch|, acked := link.acked + batch);
          }
          remotes := remotes[peer := link];
      }
    }

    /** One cycle over all peers; fates says what the network does to each request, judges
        what the receivers' checks are when it arrives. */
    method Cycle(peers: seq<Peer>, judges: seq<Judge>, fates: seq<Fate>)
      requires Valid() && |peers| == |fates| == |judges| && forall p :: p in peers ==> p in remotes
      modifies this
      ensures Valid() && State() == Run(old(State()), PushSteps(peers, |old(events)|, judges, fates))
    {
      var total := |events|;
      for i := 0 to |peers|
        invariant Valid() && remotes.Keys == old(remotes.Keys)
        invariant State() == Run(old(State()), PushSteps(peers[..i], total, judges[..i], fates[..i]))
      {
        RunSnoc(old(State()), peers, total, judges, fates, i);
        PushPeer(judges[i], peers[i], total, fates[i]);
      }
      assert peers[..|peers|] == peers && fates[..|peers|] == fates && judges[..|peers|] == judges;
    }

    /** The fork recovery of the sync drops the chain and nothing else. */
    method ResetChain()
      requires Valid()
      modifies this`events
      ensures Valid() && State() == Next(old(State()), Reset)
    {
      events := [];
    }
  }

  lemma RunSnoc(net: Net, peers: seq<Peer>, total: nat, judges: seq<Judge>, fates: seq<Fate>, i: nat)
    requires i < |peers| == |fates| == |judges|
    ensures Run(net, PushSteps(peers[..i + 1], total, judges[..i + 1], fates[..i + 1]))
         == Next(Run(net, PushSteps(peers[..i], total, judges[..i], fates[..i])), PushTo(peers[i], total, judges[i], fates[i]))
  {
    assert peers[..i + 1][..i] == peers[..i] && fates[..i + 1][..i] == fates[..i] && judges[..i + 1][..i] == judges[..i];
    RunStep(net, PushSteps(peers[..i], total, judges[..i], fates[..i]), PushTo(peers[i], total, judges[i], fates[i]));
  }
}
