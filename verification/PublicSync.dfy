/** Pulling the public chain from one peer, page by page.
    (backend/main.py, _sync_from_peer and infonet_sync_post) */
module PublicSync {
  import opened Chain

  const PAGE_LIMIT := 100
  const MAX_ROUNDS := 5
  const SMALL_CHAIN := 20

  datatype Answer = Answer(forked: bool, events: seq<Event>)

  datatype SyncError = NoError | PeerFailed | ForkDetected | IngestRejected

  /** What a peer shows of an event; the id is never touched. */
  type Redaction = Event -> string

  /** Legacy gate messages are dropped from a page, the rest is redacted. */
  function PublicView(events: seq<Event>, redact: Redaction): seq<Event> {
    if events == [] then []
    else
      var rest := PublicView(events[1..], redact);
      if events[0].gateMessage then rest
      else [events[0].(content := redact(events[0]))] + rest
  }

  lemma {:induction false} PublicViewIds(events: seq<Event>, redact: Redaction)
    ensures forall e :: e in PublicView(events, redact) ==> HasId(events, e.eventId)
  {
    if events != [] {
      PublicViewIds(events[1..], redact);
      forall e | e in PublicView(events, redact) ensures HasId(events, e.eventId) {
        if e in PublicView(events[1..], redact) {
          var i :| 0 <= i < |events| - 1 && events[1..][i].eventId == e.eventId;
          assert events[i + 1].eventId == e.eventId;
        } else {
          assert events[0].eventId == e.eventId;
        }
      }
    }
  }

  /** The peer's side of one request. */
  function PeerAnswer(chain: seq<Event>, locator: seq<Hash>, redact: Redaction): Answer {
    match EventsAfterLocator(chain, locator, PAGE_LIMIT)
    case NoMatch => Answer(true, [])
    case Page(matched, _, events) =>
      Answer(matched == GENESIS_HASH && |locator| > 1, PublicView(events, redact))
  }

  ghost predicate ChainProper(chain: seq<Event>) {
    !HasId(chain, GENESIS_HASH)
  }

  /** The peer calls a fork exactly when it knows no event the locator names. */
  lemma ForkedExactly(local: seq<Event>, peer: seq<Event>, redact: Redaction)
    requires ChainProper(local)
    ensures var l := Locator(local);
            PeerAnswer(peer, l, redact).forked
            <==> local != [] && forall i :: 0 <= i < |l| - 1 ==> !HasId(peer, l[i])
  {
    LocatorShape(local);
    FirstKnownSpec(peer, Locator(local), PAGE_LIMIT);
  }

  /** A peer that knows the node's newest event answers with what follows it. */
  lemma HeadKnown(local: seq<Event>, peer: seq<Event>, redact: Redaction)
    requires ChainProper(local) && DistinctIds(peer)
    requires local == [] || HasId(peer, Head(local))
    ensures var start := if local == [] then 0 else IndexOf(peer, Head(local)) + 1;
            PeerAnswer(peer, Locator(local), redact)
            == Answer(false, PublicView(Window(peer, start, PAGE_LIMIT), redact))
  {
    LocatorShape(local);
    FirstKnownSpec(peer, Locator(local), PAGE_LIMIT);
    if local != [] {
      assert HasId(local, Head(local));
    }
  }

  predicate ShownAsIs(e: Event, redact: Redaction) {
    !e.gateMessage && redact(e) == e.content
  }

  /** Peers whose public page is the chain itself. */
  ghost predicate Transparent(chain: seq<Event>, redact: Redaction) {
    forall e :: e in chain ==> ShownAsIs(e, redact)
  }

  lemma {:induction false} TransparentView(events: seq<Event>, redact: Redaction)
    requires Transparent(events, redact)
    ensures PublicView(events, redact) == events
  {
    if events != [] {
      assert forall e :: e in events[1..] ==> e in events;
      TransparentView(events[1..], redact);
      assert events[0] in events;
    }
  }

  /** Where the page that starts at k ends. */
  function PageEnd(peer: seq<Event>, k: nat): nat {
    if |peer| < k + PAGE_LIMIT then |peer| else k + PAGE_LIMIT
  }

  /** One round against a peer whose chain extends the node's: the page is the next
      slice, and it is taken without complaint exactly when every event of it is
      accepted in its place on arrival. */
  lemma PrefixRound(judge: Judge, peer: seq<Event>, k: nat, redact: Redaction)
    requires ProperIds(peer) && Transparent(peer, redact) && k <= |peer|
    ensures var answer, b := PeerAnswer(peer, Locator(peer[..k]), redact), PageEnd(peer, k);
      && answer == Answer(false, peer[k..b])
      && var r := Ingest(judge, peer[..k], answer.events);
        && (r.rejected == 0 && r.duplicates == 0 <==> AllAccepted(judge, peer, k, b))
        && (AllAccepted(judge, peer, k, b) ==> r == IngestResult(peer[..b], b - k, 0, 0))
  {
    PrefixAnswer(peer, k, redact);
    IngestAllAccepted(judge, peer, k, PageEnd(peer, k));
  }

  lemma PrefixAnswer(peer: seq<Event>, k: nat, redact: Redaction)
    requires ProperIds(peer) && Transparent(peer, redact) && k <= |peer|
    ensures var b := if |peer| < k + PAGE_LIMIT then |peer| else k + PAGE_LIMIT;
            PeerAnswer(peer, Locator(peer[..k]), redact) == Answer(false, peer[k..b])
  {
    var b := PageEnd(peer, k);
    HiddenAnswer(peer, k, redact);
    assert forall e :: e in peer[k..b] ==> e in peer;
    TransparentView(peer[k..b], redact);
  }

  /** Both chains share an event the locator names, but the node's newest event is
      unknown to the peer: no fork is reported, the whole page is rejected and the
      chain stays as it is, however short it is. */
  lemma SharedForkIsStuck(judge: Judge, local: seq<Event>, peer: seq<Event>, redact: Redaction)
    requires ChainProper(local) && local != [] && Linked(peer) && Transparent(peer, redact)
    requires !HasId(peer, Head(local))
    requires !PeerAnswer(peer, Locator(local), redact).forked
    ensures var page := PeerAnswer(peer, Locator(local), redact).events;
            Ingest(judge, local, page) == IngestResult(local, 0, 0, |page|)
  {
    var a, b := SharedForkPage(local, peer, redact);
    RejectForeign(judge, local, peer, a, b);
  }

  lemma SharedForkPage(local: seq<Event>, peer: seq<Event>, redact: Redaction) returns (a: nat, b: nat)
    requires ChainProper(local) && local != [] && Transparent(peer, redact)
    requires !PeerAnswer(peer, Locator(local), redact).forked
    ensures 0 < a <= b <= |peer|
    ensures PeerAnswer(peer, Locator(local), redact).events == peer[a..b]
  {
    LocatorShape(local);
    FirstKnownSpec(peer, Locator(local), PAGE_LIMIT);
    a := EventsAfterLocator(peer, Locator(local), PAGE_LIMIT).start;
    b := WindowSlice(peer, a);
    TransparentView(peer[a..b], redact);
  }

  lemma WindowSlice(peer: seq<Event>, a: nat) returns (b: nat)
    requires a <= |peer|
    ensures a <= b <= |peer| && Window(peer, a, PAGE_LIMIT) == peer[a..b]
  {
    b := a + |Window(peer, a, PAGE_LIMIT)|;
  }

  lemma RejectForeign(judge: Judge, local: seq<Event>, peer: seq<Event>, a: nat, b: nat)
    requires Linked(peer) && !HasId(peer, Head(local)) && 0 < a <= b <= |peer|
    ensures Ingest(judge, local, peer[a..b]) == IngestResult(local, 0, 0, b - a)
  {
    forall e | e in peer[a..b]
      ensures e.prevHash != Head(local)
    {
      var i :| a <= i < b && peer[i] == e;
      assert LinkedAt(peer, i) && HasId(peer, peer[i - 1].eventId);
    }
    IngestForeign(judge, local, peer[a..b]);
  }

  /** A node that shares exactly its first s events with the peer is told of a fork
      exactly when its locator names none of these: their distances from the newest
      event all lie in the gaps of the stride. */
  lemma ForkDropsPrefix(local: seq<Event>, peer: seq<Event>, redact: Redaction, s: nat)
    requires ChainProper(local) && s <= |local|
    requires forall j :: 0 <= j < |local| ==> (HasId(peer, local[j].eventId) <==> j < s)
    ensures PeerAnswer(peer, Locator(local), redact).forked <==>
      local != [] && forall i :: 0 <= i < LOCATOR_MAX - 1 && Distance(i) < |local| ==> s < |local| - Distance(i)
  {
    var l := Locator(local);
    ForkedExactly(local, peer, redact);
    forall i | 0 <= i < LOCATOR_MAX - 1
      ensures i < |l| - 1 <==> Distance(i) < |local|
      ensures i < |l| - 1 ==> (HasId(peer, l[i]) <==> |local| - Distance(i) <= s)
    {
      LocatorExact(local, i);
    }
    LocatorShape(local);
  }

  /** A small chain that is dropped for a fork shares at most three events with the
      peer, and it can share some: with 13 events the oldest one is not named. */
  lemma SmallForkShares(local: seq<Event>, peer: seq<Event>, redact: Redaction, s: nat)
    requires ChainProper(local) && 0 < |local| < SMALL_CHAIN && s <= |local|
    requires forall j :: 0 <= j < |local| ==> (HasId(peer, local[j].eventId) <==> j < s)
    ensures PeerAnswer(peer, Locator(local), redact).forked ==> s <= 3
    ensures |local| == 13 && s == 1 ==> PeerAnswer(peer, Locator(local), redact).forked
  {
    ForkDropsPrefix(local, peer, redact, s);
    assert Distance(0) == 0 && Distance(9) == 9;
    assert Pow2(1) == 2 && Pow2(2) == 4 && Pow2(3) == 8;
    assert Distance(10) == 11 && Distance(11) == 15 && Distance(12) == 23;
    forall i | 12 <= i
      ensures Distance(i) >= 23
    {
      DistancesGrow(12, i);
    }
    SmallDistances(|local|, s);
  }

  lemma SmallDistances(n: nat, s: nat)
    requires 0 < n < SMALL_CHAIN && s <= n
    requires Distance(10) == 11 && Distance(11) == 15 && forall i :: 12 <= i ==> Distance(i) >= 23
    ensures (forall i :: 0 <= i < LOCATOR_MAX - 1 && Distance(i) < n ==> s < n - Distance(i)) ==> s <= 3
    ensures n == 13 && s == 1 ==> forall i :: 0 <= i < LOCATOR_MAX - 1 && Distance(i) < n ==> s < n - Distance(i)
  {
    if forall i :: 0 <= i < LOCATOR_MAX - 1 && Distance(i) < n ==> s < n - Distance(i) {
      if n <= 10 {
        assert Distance(n - 1) == n - 1;
      } else if n <= 11 {
        assert Distance(9) == 9;
      } else if n <= 15 {
        assert s < n - Distance(10);
      } else {
        assert s < n - Distance(11);
      }
    }
    forall i | n == 13 && s == 1 && 0 <= i < LOCATOR_MAX - 1 && Distance(i) < n
      ensures s < n - Distance(i)
    {
      if i <= 9 {
        assert Distance(i) == i;
      }
    }
  }

  // ---------------------------------------------------------- hidden events

  /** The event as the peer shows it. */
  function Shown(e: Event, redact: Redaction): Event { e.(content := redact(e)) }

  /** Position g is the first that the peer does not show as it is, and the node refuses
      what is shown instead: a gate message is left out, of others the redacted content no
      longer has the hash that is the id. */
  ghost predicate FirstHidden(judge: Judge, peer: seq<Event>, g: nat, redact: Redaction) {
    && (forall i :: 0 <= i < g && i < |peer| ==> ShownAsIs(peer[i], redact))
    && (g < |peer| ==> peer[g].gateMessage || judge(peer[..g], Shown(peer[g], redact)) == Reject)
  }

  lemma {:induction false} ViewLast(events: seq<Event>, e: Event, redact: Redaction)
    ensures PublicView(events + [e], redact)
         == if e.gateMessage then PublicView(events, redact) else PublicView(events, redact) + [Shown(e, redact)]
  {
    if events == [] {
      assert [] + [e] == [e] && [e][1..] == [];
    } else {
      ViewLast(events[1..], e, redact);
      assert (events + [e])[1..] == events[1..] + [e];
    }
  }

  /** Ingest of the shown page from k up to b, event by event. */
  function Taken(judge: Judge, peer: seq<Event>, k: nat, b: nat, redact: Redaction): IngestResult
    requires k <= b <= |peer|
    decreases b
  {
    if k == b then IngestResult(peer[..k], 0, 0, 0)
    else if peer[b - 1].gateMessage then Taken(judge, peer, k, b - 1, redact)
    else IngestOne(judge, Taken(judge, peer, k, b - 1, redact), Shown(peer[b - 1], redact))
  }

  function ShownCount(peer: seq<Event>, k: nat, b: nat): nat
    requires k <= b <= |peer|
    decreases b
  {
    if k == b then 0 else ShownCount(peer, k, b - 1) + if peer[b - 1].gateMessage then 0 else 1
  }

  lemma ViewStep(peer: seq<Event>, k: nat, b: nat, redact: Redaction)
    requires k < b <= |peer|
    ensures PublicView(peer[k..b], redact)
         == if peer[b - 1].gateMessage then PublicView(peer[k..b - 1], redact)
            else PublicView(peer[k..b - 1], redact) + [Shown(peer[b - 1], redact)]
  {
    assert peer[k..b] == peer[k..b - 1] + [peer[b - 1]];
    ViewLast(peer[k..b - 1], peer[b - 1], redact);
  }

  lemma TakenStep(judge: Judge, chain: seq<Event>, view: seq<Event>, view': seq<Event>, e: Event, redact: Redaction)
    requires view' == if e.gateMessage then view else view + [Shown(e, redact)]
    ensures |view'| == |view| + if e.gateMessage then 0 else 1
    ensures Ingest(judge, chain, view')
         == if e.gateMessage then Ingest(judge, chain, view)
            else IngestOne(judge, Ingest(judge, chain, view), Shown(e, redact))
  {
    IngestLast(judge, chain, view, Shown(e, redact));
  }

  /** The page of the events from k up to b has been taken as the function says. */
  ghost predicate IsTaken(judge: Judge, chain: seq<Event>, view: seq<Event>, r: IngestResult, n: nat) {
    Ingest(judge, chain, view) == r && |view| == n
  }

  lemma {:induction false} TakenIsIngest(judge: Judge, peer: seq<Event>, k: nat, b: nat, redact: Redaction)
    requires k <= b <= |peer|
    ensures IsTaken(judge, peer[..k], PublicView(peer[k..b], redact),
                    Taken(judge, peer, k, b, redact), ShownCount(peer, k, b))
    decreases b
  {
    if k < b {
      TakenIsIngest(judge, peer, k, b - 1, redact);
      ViewStep(peer, k, b, redact);
      TakenStep(judge, peer[..k], PublicView(peer[k..b - 1], redact), PublicView(peer[k..b], redact),
                peer[b - 1], redact);
    }
  }

  /** How far the node can get at all with the events up to b. */
  function Wall(g: nat, b: nat): nat { if g < b then g else b }

  /** The next event of the page: before g it is what the chain holds, from g on it is
      rejected. */
  lemma ShownNext(judge: Judge, peer: seq<Event>, k: nat, g: nat, j: nat, r: IngestResult, redact: Redaction)
    requires Linked(peer) && k <= g && k <= j < |peer| && FirstHidden(judge, peer, g, redact) && !peer[j].gateMessage
    requires r.chain == peer[..Reach(judge, peer, k, Wall(g, j))]
    ensures IngestOne(judge, r, Shown(peer[j], redact)).chain == peer[..Reach(judge, peer, k, Wall(g, j + 1))]
    ensures g <= j ==> IngestOne(judge, r, Shown(peer[j], redact)) == r.(rejected := r.rejected + 1)
  {
    var m := Reach(judge, peer, k, Wall(g, j));
    assert LinkedAt(peer, j);
    if j < g {
      assert ShownAsIs(peer[j], redact);
      IngestNext(judge, peer, r, m, j);
    } else {
      HeadsDiffer(peer, m, j);
    }
  }

  /** Whatever the page holds, the node is left with the events up to the first one that
      it does not accept, and with none from the hidden one on. */
  lemma {:induction false} ShownPage(judge: Judge, peer: seq<Event>, k: nat, g: nat, b: nat, redact: Redaction)
    requires Linked(peer) && k <= g && k <= b <= |peer| && FirstHidden(judge, peer, g, redact)
    ensures Taken(judge, peer, k, b, redact).chain == peer[..Reach(judge, peer, k, Wall(g, b))]
    decreases b
  {
    if k < b {
      ShownPage(judge, peer, k, g, b - 1, redact);
      assert b - 1 < g ==> ShownAsIs(peer[b - 1], redact);
      if !peer[b - 1].gateMessage {
        ShownNext(judge, peer, k, g, b - 1, Taken(judge, peer, k, b - 1, redact), redact);
      }
    }
  }

  /** All that the page holds from the hidden event on is left out. */
  ghost predicate OnlyGateMessages(peer: seq<Event>, g: nat, b: nat) {
    forall j :: g <= j < b <= |peer| ==> peer[j].gateMessage
  }

  lemma OnlyGateLast(peer: seq<Event>, g: nat, j: nat)
    requires g <= j < |peer|
    ensures OnlyGateMessages(peer, g, j + 1) <==> OnlyGateMessages(peer, g, j) && peer[j].gateMessage
  {
  }

  lemma BeforeHidden(judge: Judge, peer: seq<Event>, k: nat, g: nat, redact: Redaction)
    requires ProperIds(peer) && k <= g <= |peer| && FirstHidden(judge, peer, g, redact)
    requires NoFalseDuplicates(judge, peer, k, g)
    ensures Taken(judge, peer, k, g, redact).rejected == 0 <==> AllAccepted(judge, peer, k, g)
    ensures ShownCount(peer, k, g) == g - k
  {
    assert Transparent(peer[k..g], redact) by {
      forall e | e in peer[k..g] ensures ShownAsIs(e, redact) {
        var i :| k <= i < g && peer[i] == e;
      }
    }
    TransparentView(peer[k..g], redact);
    TakenIsIngest(judge, peer, k, g, redact);
    OnlyRejects(judge, peer, k, g);
    IngestAllAccepted(judge, peer, k, g);
  }

  /** All of the page up to b is taken without a rejection. */
  ghost predicate Unrejected(judge: Judge, peer: seq<Event>, k: nat, g: nat, b: nat)
    requires k <= g <= b <= |peer|
  {
    AllAccepted(judge, peer, k, g) && OnlyGateMessages(peer, g, b)
  }

  /** From the hidden event on, all that is shown is rejected. */
  lemma {:induction false} FromHiddenOn(judge: Judge, peer: seq<Event>, k: nat, g: nat, b: nat, redact: Redaction)
    requires Linked(peer) && k <= g <= b <= |peer| && FirstHidden(judge, peer, g, redact)
    ensures Taken(judge, peer, k, b, redact).rejected - Taken(judge, peer, k, g, redact).rejected
         == ShownCount(peer, k, b) - ShownCount(peer, k, g)
    decreases b
  {
    if g < b {
      FromHiddenOn(judge, peer, k, g, b - 1, redact);
      if !peer[b - 1].gateMessage {
        ShownPage(judge, peer, k, g, b - 1, redact);
        ShownNext(judge, peer, k, g, b - 1, Taken(judge, peer, k, b - 1, redact), redact);
      }
    }
  }

  lemma {:induction false} ShownFrom(peer: seq<Event>, k: nat, g: nat, b: nat)
    requires k <= g <= b <= |peer|
    ensures ShownCount(peer, k, g) <= ShownCount(peer, k, b)
    ensures ShownCount(peer, k, g) == ShownCount(peer, k, b) <==> OnlyGateMessages(peer, g, b)
    decreases b
  {
    if g < b {
      ShownFrom(peer, k, g, b - 1);
      OnlyGateLast(peer, g, b - 1);
    }
  }

  /** Nothing of a page that reaches past the hidden event is rejected exactly when all
      before it is accepted and all from it on is left out. */
  lemma ShownRejected(judge: Judge, peer: seq<Event>, k: nat, g: nat, b: nat, redact: Redaction)
    requires Linked(peer) && k <= g <= b <= |peer| && FirstHidden(judge, peer, g, redact)
    requires NoFalseDuplicates(judge, peer, k, g)
    ensures Taken(judge, peer, k, b, redact).rejected == 0 <==> Unrejected(judge, peer, k, g, b)
    ensures Unrejected(judge, peer, k, g, b) ==> ShownCount(peer, k, b) == g - k
  {
    BeforeHidden(judge, peer, k, g, redact);
    FromHiddenOn(judge, peer, k, g, b, redact);
    ShownFrom(peer, k, g, b);
  }

  /** What the page that reaches past the hidden event leaves. */
  lemma HiddenPage(judge: Judge, peer: seq<Event>, k: nat, g: nat, b: nat, redact: Redaction)
    requires Linked(peer) && k <= g < b <= |peer| && FirstHidden(judge, peer, g, redact)
    requires NoFalseDuplicates(judge, peer, k, g)
    ensures var page := PublicView(peer[k..b], redact);
      var r := Ingest(judge, peer[..k], page);
      && r.chain == peer[..Reach(judge, peer, k, g)]
      && (r.rejected == 0 <==> Unrejected(judge, peer, k, g, b))
      && (r.rejected == 0 ==> |page| == g - k)
  {
    TakenIsIngest(judge, peer, k, b, redact);
    ShownPage(judge, peer, k, g, b, redact);
    ShownRejected(judge, peer, k, g, b, redact);
  }

  lemma HiddenAnswer(peer: seq<Event>, k: nat, redact: Redaction)
    requires ProperIds(peer) && k <= |peer|
    ensures PeerAnswer(peer, Locator(peer[..k]), redact) == Answer(false, PublicView(peer[k..PageEnd(peer, k)], redact))
  {
    var local := peer[..k];
    if k > 0 {
      assert Head(local) == peer[k - 1].eventId;
      assert HasId(peer, Head(local));
      DistinctIdsApply(peer, k - 1, IndexOf(peer, Head(local)));
    }
    HeadKnown(local, peer, redact);
    assert Window(peer, k, PAGE_LIMIT) == peer[k..PageEnd(peer, k)];
  }

  /** The fork recovery is meant for a peer with a longer chain, but the length is
      never compared: an empty peer makes a node with a small chain drop it. */
  lemma EmptyPeerForks(local: seq<Event>, redact: Redaction)
    requires ChainProper(local)
    ensures PeerAnswer([], Locator(local), redact).forked <==> local != []
  {
    ForkedExactly(local, [], redact);
  }

  // ------------------------------------------------------------ a whole run

  /** The peer's chain at each request: it only grows. */
  ghost predicate GrowingPeer(chainAt: nat -> seq<Event>) {
    && (forall i: nat, j: nat {:trigger chainAt(i), chainAt(j)} :: i <= j ==> chainAt(i) <= chainAt(j))
    && (forall i: nat :: ProperIds(chainAt(i)))
  }

  ghost predicate Known(chain: seq<Event>, peer: seq<Event>) {
    chain == [] || HasId(peer, Head(chain))
  }

  lemma KnownGrows(chain: seq<Event>, peer: seq<Event>, later: seq<Event>)
    requires Known(chain, peer) && peer <= later
    ensures Known(chain, later)
  {
    if chain != [] {
      var i :| 0 <= i < |peer| && peer[i].eventId == Head(chain);
      assert later[i].eventId == Head(chain);
    }
  }

  lemma {:induction false} PageFromChain(chain: seq<Event>, locator: seq<Hash>)
    ensures var page := FirstKnown(chain, locator, PAGE_LIMIT);
            page.Page? ==> forall h :: HasId(page.events, h) ==> HasId(chain, h)
  {
    if locator != [] && locator[0] != GENESIS_HASH && !HasId(chain, locator[0]) {
      PageFromChain(chain, locator[1..]);
    } else if locator != [] {
      var page := FirstKnown(chain, locator, PAGE_LIMIT);
      forall h | HasId(page.events, h) ensures HasId(chain, h) {
        var i :| 0 <= i < |page.events| && page.events[i].eventId == h;
        assert chain[page.start + i].eventId == h;
      }
    }
  }

  /** Every event of an answer carries an id of the peer's chain. */
  lemma AnswerFromChain(peer: seq<Event>, locator: seq<Hash>, redact: Redaction)
    ensures forall e :: e in PeerAnswer(peer, locator, redact).events ==> HasId(peer, e.eventId)
  {
    PageFromChain(peer, if locator == [] then [GENESIS_HASH] else locator);
    var page := EventsAfterLocator(peer, locator, PAGE_LIMIT);
    if page.Page? {
      PublicViewIds(page.events, redact);
    }
  }

  lemma {:induction false} IngestProper(judge: Judge, local: seq<Event>, batch: seq<Event>)
    requires ChainProper(local) && forall e :: e in batch ==> e.eventId != GENESIS_HASH
    ensures ChainProper(Ingest(judge, local, batch).chain)
  {
    if batch != [] {
      assert forall e :: e in batch[..|batch| - 1] ==> e in batch;
      IngestProper(judge, local, batch[..|batch| - 1]);
      assert batch[|batch| - 1] in batch;
    }
  }

  /** One accepted page: the chain grows, stays proper, and its head is known to
      the peer, so the next answer cannot be a fork. */
  lemma IngestAnswer(judge: Judge, local: seq<Event>, peer: seq<Event>, redact: Redaction)
    requires ProperIds(local) && ProperIds(peer)
    ensures var page := PeerAnswer(peer, Locator(local), redact).events;
            var r := Ingest(judge, local, page);
            && ProperIds(r.chain) && local <= r.chain
            && (r.accepted > 0 ==> Known(r.chain, peer))
            && r.accepted + r.duplicates + r.rejected == |page|
  {
    var page := PeerAnswer(peer, Locator(local), redact).events;
    AnswerFromChain(peer, Locator(local), redact);
    IngestKeepsChain(judge, local, page);
    forall e | e in page ensures e.eventId != GENESIS_HASH {
      assert HasId(peer, e.eventId);
    }
    IngestProper(judge, local, page);
  }

  /** Where a run stands between two requests. */
  datatype SyncState = SyncState(chain: seq<Event>, rounds: nat, requests: nat, resets: nat)

  datatype RoundResult =
    | Again(next: SyncState)
    | Stop(error: SyncError, last: SyncState)

  function After(r: RoundResult): SyncState {
    match r
    case Again(s) => s
    case Stop(_, s) => s
  }

  /** One pass of the loop body: a request, its answer, and what the node makes of it. */
  function SyncRound(judge: Judge, s: SyncState, peer: seq<Event>, up: bool, redact: Redaction): RoundResult {
    var s1 := s.(requests := s.requests + 1);
    if !up then Stop(PeerFailed, s1)
    else
      var answer := PeerAnswer(peer, Locator(s.chain), redact);
      if answer.forked then
        if |s.chain| < SMALL_CHAIN then Again(s1.(chain := [], resets := s.resets + 1))
        else Stop(ForkDetected, s1)
      else if answer.events == [] then Stop(NoError, s1)
      else
        var r := Ingest(judge, s.chain, answer.events);
        var s2 := s1.(chain := r.chain);
        if r.rejected > 0 then Stop(IngestRejected, s2)
        else if r.accepted == 0 && r.duplicates >= |answer.events| then Stop(NoError, s2)
        else if |answer.events| < PAGE_LIMIT then Stop(NoError, s2)
        else Again(s2.(rounds := s.rounds + 1))
  }

  /** A round against a peer that does not show the event at g as it is: it takes what it
      accepts of the page before g, and nothing after that. */
  lemma HiddenRound(judge: Judge, s: SyncState, peer: seq<Event>, up: bool, g: nat, redact: Redaction)
    requires Linked(peer) && s.chain <= peer && |s.chain| <= g && FirstHidden(judge, peer, g, redact)
    ensures var m := if up then Reach(judge, peer, |s.chain|, Wall(g, PageEnd(peer, |s.chain|))) else |s.chain|;
      var s' := After(SyncRound(judge, s, peer, up, redact));
      s'.chain == peer[..m] && s'.resets == s.resets && s'.requests == s.requests + 1
  {
    var k := |s.chain|;
    assert s.chain == peer[..k];
    HiddenAnswer(peer, k, redact);
    TakenIsIngest(judge, peer, k, PageEnd(peer, k), redact);
    ShownPage(judge, peer, k, g, PageEnd(peer, k), redact);
  }

  /** The page that reaches to the hidden event ends the run, and always in front of that
      event: without an error exactly when everything before it was accepted and
      everything on the page from it on is left out. */
  lemma HiddenEndsRun(judge: Judge, s: SyncState, peer: seq<Event>, g: nat, redact: Redaction)
    requires Linked(peer) && s.chain <= peer && |s.chain| <= g < PageEnd(peer, |s.chain|)
    requires FirstHidden(judge, peer, g, redact) && NoFalseDuplicates(judge, peer, |s.chain|, g)
    ensures var k, b := |s.chain|, PageEnd(peer, |s.chain|);
      SyncRound(judge, s, peer, true, redact)
      == Stop(if Unrejected(judge, peer, k, g, b) then NoError else IngestRejected,
              s.(requests := s.requests + 1, chain := peer[..Reach(judge, peer, k, g)]))
  {
    var k, b := |s.chain|, PageEnd(peer, |s.chain|);
    assert s.chain == peer[..k];
    HiddenAnswer(peer, k, redact);
    HiddenPage(judge, peer, k, g, b, redact);
  }

  /** The node and its peer for the length of one run: the node's checks, the peer's chain
      and whether the peer is reachable, each at every request. */
  datatype Setting =
    Setting(judgeAt: nat -> Judge, start: seq<Event>, chainAt: nat -> seq<Event>, up: nat -> bool, redact: Redaction)
  {
    ghost predicate Proper() {
      ProperIds(start) && GrowingPeer(chainAt)
    }

    ghost predicate ForkAtStart() {
      0 < |start| < SMALL_CHAIN && PeerAnswer(chainAt(0), Locator(start), redact).forked
    }

    /** The peer's page is the chain itself, and the node takes nothing new for a
        duplicate. */
    ghost predicate CleanAt(i: nat, base: nat) {
      Transparent(chainAt(i), redact) && NoFalseDuplicates(judgeAt(i), chainAt(i), base, |chainAt(i)|)
    }

    /** The node's chain is, or after the reset has become, a prefix of the peer's. That
        the peer is reachable or its events are accepted is not assumed. */
    ghost predicate Clean(resets: nat) {
      (forall i: nat :: CleanAt(i, Base(resets))) && (start <= chainAt(0) || resets == 1)
    }

    /** Request i succeeds: the peer is reachable, and every event of the page is accepted
        in its place when it arrives. */
    ghost predicate PageOk(i: nat, resets: nat)
      requires resets <= i
    {
      var k := Base(resets) + (i - resets) * PAGE_LIMIT;
      up(i) && AllAccepted(judgeAt(i), chainAt(i), k, PageEnd(chainAt(i), k))
    }

    ghost predicate PagesOk(resets: nat, n: nat) {
      forall i :: resets <= i < n ==> PageOk(i, resets)
    }

    /** The event at g is the first that the peer's pages do not show as it is, and the node
        starts in front of it on a prefix of the peer's chain, or from nothing. */
    ghost predicate Blocked(g: nat, resets: nat) {
      && (forall i: nat :: BlockedAt(i, g))
      && (resets == 1 || (start <= chainAt(0) && |start| <= g))
    }

    ghost predicate BlockedAt(i: nat, g: nat) {
      Linked(chainAt(i)) && FirstHidden(judgeAt(i), chainAt(i), g, redact)
    }

    ghost predicate InFrontOf(g: nat, s: SyncState) {
      |s.chain| <= g && s.chain <= chainAt(s.requests)
    }

    /** No run gets past a hidden event. */
    ghost predicate Walled(s: SyncState) {
      forall g: nat :: Blocked(g, s.resets) ==> InFrontOf(g, s)
    }

    ghost predicate Bounded(s: SyncState) {
      match s
      case SyncState(chain, _, requests, resets) =>
        && ProperIds(chain)
        && requests <= MAX_ROUNDS + 1 && resets <= 1
        && (resets == 0 ==> start <= chain)
        && (resets == 1 ==> ForkAtStart())
    }

    function Base(resets: nat): nat {
      if resets == 0 then |start| else 0
    }

    ghost predicate Inv(s: SyncState) {
      match s
      case SyncState(chain, rounds, requests, resets) =>
        && Bounded(s) && rounds <= MAX_ROUNDS
        && requests == rounds + resets
        && (requests == 0 ==> chain == start)
        && (requests > 0 ==> Known(chain, chainAt(requests)))
        && (Clean(resets) ==> CleanInv(s))
        && Walled(s)
    }

    /** The states a run can be in between two requests. */
    ghost function States(): iset<SyncState> { iset s: SyncState | Inv(s) }

    /** The states a run can end in with this error. */
    ghost function Ends(error: SyncError): iset<SyncState> {
      iset s: SyncState | End(error, s.chain, s.requests, s.resets)
    }

    ghost predicate CleanInv(s: SyncState) {
      match s
      case SyncState(chain, rounds, requests, resets) =>
        && chain <= chainAt(requests)
        && (requests > 0 ==> chain <= chainAt(requests - 1))
        && |chain| == Base(resets) + rounds * PAGE_LIMIT
        && PagesOk(resets, requests)
    }

    /** The node holds the peer's chain as of the last request, or every round brought a
        full page. */
    ghost predicate CleanEnd(s: SyncState) {
      match s
      case SyncState(chain, _, requests, resets) =>
        && requests > 0
        && chain <= chainAt(requests - 1)
        && (chain == chainAt(requests - 1) || |chain| == Base(resets) + MAX_ROUNDS * PAGE_LIMIT)
    }

    /** What a finished clean run promises: it succeeds exactly when every request did, and
        then the node holds the peer's chain or five full pages more than before. */
    ghost predicate CleanStop(error: SyncError, s: SyncState) {
      && error != ForkDetected
      && (error == NoError <==> PagesOk(s.resets, s.requests))
      && (error == NoError ==> CleanEnd(s))
    }

    /** What a finished run promises. Termination: one reset at most, and only from a
        small chain of which the peer knows nothing that the locator names; without it
        nothing is lost. Correctness from a prefix, or after a reset: CleanStop, and
        Walled when the peer hides an event. */
    ghost predicate End(error: SyncError, chain: seq<Event>, requests: nat, resets: nat) {
      var s := SyncState(chain, 0, requests, resets);
      Bounded(s) && (Clean(resets) ==> CleanStop(error, s)) && Walled(s)
    }

    function Round(s: SyncState): RoundResult {
      SyncRound(judgeAt(s.requests), s, chainAt(s.requests), up(s.requests), redact)
    }
  }

  lemma KnownAtStart(w: Setting, s: SyncState)
    requires w.Proper() && w.Inv(s) && w.Clean(s.resets)
    ensures Known(s.chain, w.chainAt(s.requests))
  {
    if s.chain != [] {
      assert w.chainAt(s.requests)[|s.chain| - 1].eventId == Head(s.chain);
    }
  }

  /** A fork can only be reported by the first answer. */
  lemma ForkOnlyFirst(w: Setting, s: SyncState)
    requires w.Proper() && w.Inv(s)
    requires PeerAnswer(w.chainAt(s.requests), Locator(s.chain), w.redact).forked
    ensures s.requests == 0 && s.chain == w.start && s.chain != [] && !w.Clean(0)
  {
    ForkedExactly(s.chain, w.chainAt(s.requests), w.redact);
    if Known(s.chain, w.chainAt(s.requests)) {
      HeadKnown(s.chain, w.chainAt(s.requests), w.redact);
    }
    if w.Clean(s.resets) {
      KnownAtStart(w, s);
    }
  }

  /** A round of a node that holds a prefix, when every event of the page is accepted on
      arrival: it takes the next 100 events, or all that are left. */
  lemma CleanStep(judge: Judge, s: SyncState, peer: seq<Event>, redact: Redaction)
    requires ProperIds(peer) && Transparent(peer, redact) && s.chain <= peer
    requires AllAccepted(judge, peer, |s.chain|, PageEnd(peer, |s.chain|))
    ensures var b := PageEnd(peer, |s.chain|);
      var s' := s.(chain := peer[..b], requests := s.requests + 1);
      SyncRound(judge, s, peer, true, redact)
      == if b - |s.chain| < PAGE_LIMIT then Stop(NoError, s') else Again(s'.(rounds := s.rounds + 1))
  {
    var k, b := |s.chain|, PageEnd(peer, |s.chain|);
    assert s.chain == peer[..k] && |peer[k..b]| == b - k;
    PrefixRound(judge, peer, k, redact);
  }

  /** When one of them is not, and none is taken for a duplicate, it ends with a
      rejection. */
  lemma RefusedStep(judge: Judge, s: SyncState, peer: seq<Event>, redact: Redaction)
    requires ProperIds(peer) && Transparent(peer, redact) && s.chain <= peer
    requires NoFalseDuplicates(judge, peer, |s.chain|, |peer|)
    requires !AllAccepted(judge, peer, |s.chain|, PageEnd(peer, |s.chain|))
    ensures match SyncRound(judge, s, peer, true, redact)
            case Again(_) => false
            case Stop(e, _) => e == IngestRejected
  {
    var k, b := |s.chain|, PageEnd(peer, |s.chain|);
    assert s.chain == peer[..k];
    PrefixAnswer(peer, k, redact);
    OnlyRejects(judge, peer, k, b);
  }

  lemma PagesSnoc(w: Setting, resets: nat, n: nat)
    requires resets <= n
    ensures w.PagesOk(resets, n + 1) <==> w.PagesOk(resets, n) && w.PageOk(n, resets)
  {
  }

  /** The page of a request, seen from the chain the node has then. */
  lemma PageSeen(w: Setting, s: SyncState)
    requires w.Inv(s) && w.Clean(s.resets)
    ensures var k, peer := |s.chain|, w.chainAt(s.requests);
      && s.chain <= peer && Transparent(peer, w.redact)
      && NoFalseDuplicates(w.judgeAt(s.requests), peer, k, |peer|)
      && (w.PageOk(s.requests, s.resets)
          <==> w.up(s.requests) && AllAccepted(w.judgeAt(s.requests), peer, k, PageEnd(peer, k)))
  {
    assert w.CleanAt(s.requests, w.Base(s.resets));
  }

  /** What a full page leads to, and what a short one. */
  lemma CleanMore(w: Setting, s: SyncState)
    requires w.Proper() && w.Inv(s) && w.Clean(s.resets) && w.PageOk(s.requests, s.resets)
    ensures var peer := w.chainAt(s.requests);
      var b := PageEnd(peer, |s.chain|);
      b == |s.chain| + PAGE_LIMIT ==> w.CleanInv(SyncState(peer[..b], s.rounds + 1, s.requests + 1, s.resets))
  {
    PageSeen(w, s);
    PagesSnoc(w, s.resets, s.requests);
    assert w.CleanInv(s);
    assert w.chainAt(s.requests) <= w.chainAt(s.requests + 1);
  }

  lemma CleanDone(w: Setting, s: SyncState)
    requires w.Proper() && w.Inv(s) && w.Clean(s.resets) && w.PageOk(s.requests, s.resets)
    ensures w.PagesOk(s.resets, s.requests + 1)
    ensures var peer := w.chainAt(s.requests);
      PageEnd(peer, |s.chain|) < |s.chain| + PAGE_LIMIT ==>
        w.CleanEnd(SyncState(peer[..PageEnd(peer, |s.chain|)], s.rounds, s.requests + 1, s.resets))
  {
    PageSeen(w, s);
    PagesSnoc(w, s.resets, s.requests);
    assert w.CleanInv(s);
  }

  lemma CleanGoesOn(w: Setting, s: SyncState)
    requires w.Proper() && w.Inv(s) && w.Clean(s.resets) && s.rounds < MAX_ROUNDS
    requires w.PageOk(s.requests, s.resets)
    ensures match w.Round(s)
            case Again(s') => s'.resets == s.resets && w.CleanInv(s')
            case Stop(e, s') =>
              s'.resets == s.resets && e == NoError && w.PagesOk(s.resets, s'.requests) && w.CleanEnd(s')
  {
    PageSeen(w, s);
    CleanStep(w.judgeAt(s.requests), s, w.chainAt(s.requests), w.redact);
    CleanMore(w, s);
    CleanDone(w, s);
  }

  lemma CleanFails(w: Setting, s: SyncState)
    requires w.Proper() && w.Inv(s) && w.Clean(s.resets) && s.rounds < MAX_ROUNDS
    requires !w.PageOk(s.requests, s.resets)
    ensures match w.Round(s)
            case Again(_) => false
            case Stop(e, s') => s'.resets == s.resets && w.CleanStop(e, s')
  {
    var i := s.requests;
    PageSeen(w, s);
    RejectedKeeps(w.judgeAt(i), s, w.chainAt(i), w.up(i), w.redact);
    assert !w.PagesOk(s.resets, i + 1);
    if w.up(i) {
      RefusedStep(w.judgeAt(i), s, w.chainAt(i), w.redact);
    }
  }

  /** In a clean setting a round succeeds exactly when its page does. */
  lemma CleanRound(w: Setting, s: SyncState)
    requires w.Proper() && w.Inv(s) && w.Clean(s.resets) && s.rounds < MAX_ROUNDS
    ensures match w.Round(s)
            case Again(s') => s'.resets == s.resets && w.CleanInv(s')
            case Stop(e, s') => s'.resets == s.resets && w.CleanStop(e, s')
  {
    if w.PageOk(s.requests, s.resets) {
      CleanGoesOn(w, s);
    } else {
      CleanFails(w, s);
    }
  }

  /** Only a fork changes the number of resets, and every pass is one request. */
  lemma RejectedKeeps(judge: Judge, s: SyncState, peer: seq<Event>, up: bool, redact: Redaction)
    ensures match SyncRound(judge, s, peer, up, redact)
            case Again(s') => s'.requests == s.requests + 1
            case Stop(e, s') => s'.requests == s.requests + 1 && s'.resets == s.resets
  {
  }

  lemma ShortPage(judge: Judge, peer: seq<Event>, k: nat)
    requires Linked(peer) && k < |peer|
    ensures var n := |peer|;
      var r := Ingest(judge, peer[..k], peer[k..n]);
      var complete := AllAccepted(judge, peer, k, n);
      var allButLast := AllAccepted(judge, peer, k, n - 1) && DuplicateAt(judge, peer, n - 1);
      && r.chain == peer[..Reach(judge, peer, k, n)]
      && (r.rejected > 0 <==> !complete && !allButLast)
      && (complete ==> Reach(judge, peer, k, n) == n)
      && (allButLast ==> Reach(judge, peer, k, n) == n - 1)
  {
    SliceEnds(judge, peer, k, |peer|);
  }

  /** A short page to a node that holds the first k events leaves it with everything up
      to the first event that it does not accept. The run ends without error exactly when
      that is the whole chain, or all but a last event that is taken for a duplicate. */
  lemma ShortPageExactly(judge: Judge, s: SyncState, peer: seq<Event>, k: nat, redact: Redaction)
    requires Linked(peer) && Transparent(peer, redact) && k < |peer| < k + PAGE_LIMIT && s.chain == peer[..k]
    ensures var n := |peer|;
      var complete := AllAccepted(judge, peer, k, n);
      var allButLast := AllAccepted(judge, peer, k, n - 1) && DuplicateAt(judge, peer, n - 1);
      && SyncRound(judge, s, peer, true, redact)
         == Stop(if complete || allButLast then NoError else IngestRejected,
                 s.(requests := s.requests + 1, chain := peer[..Reach(judge, peer, k, n)]))
      && (complete ==> Reach(judge, peer, k, n) == n)
      && (allButLast ==> Reach(judge, peer, k, n) == n - 1)
  {
    ShortPage(judge, peer, k);
    PrefixAnswer(peer, k, redact);
  }

  /** A node that starts from nothing cannot take over a chain whose first event is
      outside the freshness bound: the sync fails and leaves it empty. */
  lemma OldChainIsRefused(checks: Judge, now: int, maxAge: int, peer: seq<Event>, redact: Redaction)
    requires Linked(peer) && Transparent(peer, redact) && peer != []
    requires !Fresh(now, maxAge, peer[0]) && !DuplicateAt(checks, peer, 0)
    ensures SyncRound(AtTime(checks, now, maxAge), SyncState([], 0, 0, 0), peer, true, redact)
         == Stop(IngestRejected, SyncState([], 0, 1, 0))
  {
    var judge, b := AtTime(checks, now, maxAge), PageEnd(peer, 0);
    FreshOnArrival(checks, now, maxAge, peer, 0);
    assert peer[..0] == [];
    PrefixAnswer(peer, 0, redact);
    IngestSlice(judge, peer, 0, 0, b);
    ReachStops(judge, peer, 0, 0, b);
  }

  lemma BlockedRound(w: Setting, s: SyncState, g: nat)
    requires w.Proper() && w.Blocked(g, s.resets) && w.InFrontOf(g, s)
    ensures After(w.Round(s)).resets == s.resets && w.InFrontOf(g, After(w.Round(s)))
  {
    var i := s.requests;
    assert w.BlockedAt(i, g);
    HiddenRound(w.judgeAt(i), s, w.chainAt(i), w.up(i), g, w.redact);
    assert w.chainAt(i) <= w.chainAt(i + 1);
  }

  /** A round that drops nothing leaves the node in front of every hidden event. */
  lemma RoundWalled(w: Setting, s: SyncState)
    requires w.Proper() && w.Walled(s)
    ensures After(w.Round(s)).resets == s.resets ==> w.Walled(After(w.Round(s)))
  {
    forall g: nat | w.Blocked(g, s.resets)
      ensures After(w.Round(s)).resets == s.resets && w.InFrontOf(g, After(w.Round(s)))
    {
      BlockedRound(w, s, g);
    }
  }

  lemma ResetRound(w: Setting, s: SyncState)
    requires w.Proper() && w.Inv(s) && s.rounds < MAX_ROUNDS && w.up(s.requests)
    requires PeerAnswer(w.chainAt(s.requests), Locator(s.chain), w.redact).forked
    ensures match w.Round(s)
            case Again(s') => w.Inv(s') && s'.rounds == s.rounds && s.requests == 0 && s'.resets == 1
            case Stop(e, s') => w.Bounded(s') && e == ForkDetected && s'.resets == 0
  {
    ForkOnlyFirst(w, s);
  }

  lemma PageRound(w: Setting, s: SyncState)
    requires w.Proper() && w.Inv(s) && s.rounds < MAX_ROUNDS && w.up(s.requests)
    requires !PeerAnswer(w.chainAt(s.requests), Locator(s.chain), w.redact).forked
    ensures match w.Round(s)
            case Again(s') => w.Inv(s') && s'.rounds == s.rounds + 1 && s'.resets == s.resets
            case Stop(e, s') => w.Bounded(s') && s'.resets == s.resets
  {
    var peer := w.chainAt(s.requests);
    PageTaken(w.judgeAt(s.requests), s, peer, w.redact);
    if w.Clean(s.resets) {
      CleanRound(w, s);
    }
    RoundWalled(w, s);
    match w.Round(s)
    case Again(s') => KnownGrows(s'.chain, peer, w.chainAt(s.requests + 1));
    case Stop(e, s') =>
  }

  /** A page that is not a fork only adds to the chain; after a full page the peer knows
      the new head. */
  lemma PageTaken(judge: Judge, s: SyncState, peer: seq<Event>, redact: Redaction)
    requires ProperIds(s.chain) && ProperIds(peer)
    requires !PeerAnswer(peer, Locator(s.chain), redact).forked
    ensures match SyncRound(judge, s, peer, true, redact)
            case Again(s') =>
              && ProperIds(s'.chain) && s.chain <= s'.chain && Known(s'.chain, peer)
              && s' == SyncState(s'.chain, s.rounds + 1, s.requests + 1, s.resets)
            case Stop(e, s') =>
              && ProperIds(s'.chain) && s.chain <= s'.chain
              && s' == SyncState(s'.chain, s.rounds, s.requests + 1, s.resets)
  {
    IngestAnswer(judge, s.chain, peer, redact);
  }

  /** What every round keeps, and what the last one leaves behind. */
  lemma RoundKeeps(w: Setting, s: SyncState)
    requires w.Proper()
    ensures w.Inv(s) && s.rounds < MAX_ROUNDS ==>
              match w.Round(s)
              case Again(s') => w.Inv(s') && s.rounds + s.resets < s'.rounds + s'.resets && s.resets <= s'.resets
              case Stop(e, s') => w.End(e, s'.chain, s'.requests, s'.resets)
    ensures w.Inv(s) && s.rounds == MAX_ROUNDS ==> w.End(NoError, s.chain, s.requests, s.resets)
  {
    if w.Inv(s) && s.rounds < MAX_ROUNDS {
      RoundWalled(w, s);
      if w.Clean(s.resets) {
        CleanRound(w, s);
      }
      if w.up(s.requests) {
        if PeerAnswer(w.chainAt(s.requests), Locator(s.chain), w.redact).forked {
          ResetRound(w, s);
        } else {
          PageRound(w, s);
        }
      }
    }
  }

  function NextState(s: SyncState, chain: seq<Event>, wiped: bool): SyncState {
    if wiped then SyncState(chain, s.rounds, s.requests + 1, s.resets + 1)
    else SyncState(chain, s.rounds + 1, s.requests + 1, s.resets)
  }

  lemma StartKeeps(w: Setting)
    requires w.Proper()
    ensures SyncState(w.start, 0, 0, 0) in w.States()
  {
  }

  lemma FullKeeps(w: Setting, s: SyncState)
    requires w.Proper() && s in w.States() && s.rounds == MAX_ROUNDS
    ensures SyncState(s.chain, 0, s.requests, s.resets) in w.Ends(NoError)
  {
    RoundKeeps(w, s);
  }

  /** The same for a pass of the loop that left the node with chain. */
  lemma PassKeeps(w: Setting, s: SyncState, chain: seq<Event>, done: bool, error: SyncError, wiped: bool)
    requires w.Proper() && w.Inv(s) && s.rounds < MAX_ROUNDS
    requires w.Round(s) == if done then Stop(error, s.(chain := chain, requests := s.requests + 1))
                           else Again(NextState(s, chain, wiped))
    ensures done ==> w.End(error, chain, s.requests + 1, s.resets)
    ensures !done ==> w.Inv(NextState(s, chain, wiped))
  {
    RoundKeeps(w, s);
  }
}

/** The two ends of the sync as the program runs them, on the chain object. */
module PublicSyncLoop {
  import opened Chain
  import opened PublicSync

  method SyncPost(peer: Infonet, locator: seq<Hash>, redact: Redaction) returns (answer: Answer)
    requires peer.Valid()
    ensures answer == PeerAnswer(peer.events, locator, redact)
  {
    var page := peer.GetEventsAfterLocator(locator, PAGE_LIMIT);
    var forked := false;
    if page.NoMatch? {
      return Answer(true, []);
    } else if page.matched == GENESIS_HASH && |locator| > 1 {
      forked := true;
    }
    answer := Answer(forked, PublicView(page.events, redact));
  }

  /** The loop body: done tells that the run returns with error, otherwise wiped
      tells whether the chain was reset instead of counting a round. */
  method OneRound(local: Infonet, ghost s: SyncState, judge: Judge, peer: seq<Event>, up: bool, redact: Redaction)
      returns (done: bool, error: SyncError, wiped: bool)
    requires local.Valid() && s.chain == local.events
    modifies local
    ensures local.Valid()
    ensures SyncRound(judge, s, peer, up, redact)
         == if done then Stop(error, s.(chain := local.events, requests := s.requests + 1))
            else Again(NextState(s, local.events, wiped))
  {
    var locator := local.GetLocator();
    if !up {
      return true, PeerFailed, false;
    }
    var answer := PeerAnswer(peer, locator, redact);
    if answer.forked {
      if |local.events| < SMALL_CHAIN {
        local.ResetChain();
        return false, NoError, true;
      }
      return true, ForkDetected, false;
    }
    if answer.events == [] {
      return true, NoError, false;
    }
    var accepted, duplicates, rejected := local.IngestEvents(answer.events, judge);
    if rejected > 0 {
      return true, IngestRejected, false;
    }
    if accepted == 0 && duplicates >= |answer.events| {
      return true, NoError, false;
    }
    return |answer.events| < PAGE_LIMIT, NoError, false;
  }

  /** One pass in a run: it keeps the invariant of the run or ends it as promised. */
  method Pass(local: Infonet, w: Setting, ghost s: SyncState, requests: nat)
      returns (done: bool, error: SyncError, wiped: bool)
    requires local.Valid() && w.Proper() && s in w.States() && s.rounds < MAX_ROUNDS
    requires s.chain == local.events && s.requests == requests
    modifies local
    ensures local.Valid()
    ensures done ==> SyncState(local.events, 0, s.requests + 1, s.resets) in w.Ends(error)
    ensures !done ==> NextState(s, local.events, wiped) in w.States()
    ensures !done ==> s.rounds + s.resets < MAX_ROUNDS + 1
  {
    done, error, wiped := OneRound(local, s, w.judgeAt(requests), w.chainAt(requests), w.up(requests), w.redact);
    PassKeeps(w, s, local.events, done, error, wiped);
  }

  method SyncFromPeer(local: Infonet, w: Setting)
      returns (ok: bool, error: SyncError, forked: bool, requests: nat, resets: nat)
    requires local.Valid() && w.start == local.events && w.Proper()
    modifies local
    ensures local.Valid() && ok == (error == NoError) && forked == (error == ForkDetected)
    ensures SyncState(local.events, 0, requests, resets) in w.Ends(error)
  {
    requests, resets := 0, 0;
    var rounds := 0;
    ghost var s := SyncState(local.events, 0, 0, 0);
    StartKeeps(w);
    while rounds < MAX_ROUNDS
      invariant local.Valid() && s in w.States() && s == SyncState(local.events, rounds, requests, resets)
      decreases MAX_ROUNDS + 1 - rounds - resets
    {
      var done, e, wiped := Pass(local, w, s, requests);
      requests := requests + 1;
      if done {
        return e == NoError, e, e == ForkDetected, requests, resets;
      }
      s := NextState(s, local.events, wiped);
      if wiped {
        resets := resets + 1;
      } else {
        rounds := rounds + 1;
      }
    }
    FullKeeps(w, s);
    return true, NoError, false, requests, resets;
  }
}
