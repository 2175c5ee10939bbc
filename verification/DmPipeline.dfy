/** Composing a direct message, and what becomes of the alias change it carries.
    (backend/main.py, compose_wormhole_dm; backend/services/mesh/
    mesh_wormhole_dead_drop.py, the pending alias commits;
    backend/services/mesh/mesh_private_release_worker.py, run_once) */
module DmPipeline {
  import opened DmSend

  const COMMIT_TTL_MS := 86400000

  // ----------------------------------------------------------------- compose

  datatype Session = NoAnswer | Exists | Missing

  /** The answer of an encryption helper. */
  datatype Sealed = Sealed(ciphertext: string) | Fault(detail: string)

  type Updates = map<string, string>

  /** What the helpers answer while one message is composed; a check that raises counts
      as passed, as in the source. */
  datatype Answers = Answers(
    session: Session, first: Sealed, bundlePinned: bool, bundleVerified: bool, contactVerified: bool,
    hasKeyPackage: bool, welcome: Option<string>, second: Sealed, tier: string, invitePinned: bool,
    legacyAllowed: bool, hasPeerKey: bool, legacy: Sealed, updates: Updates, now: nat)

  datatype Composed = Done(ciphertext: string, format: string, welcome: string) | NotDone

  function Compose(a: Answers): Composed {
    if a.session.NoAnswer? then NotDone
    else if a.session.Exists? && a.first.Sealed? then Done(a.first.ciphertext, "mls1", "")
    else if a.session.Exists? && a.first.detail != "session_expired" then NotDone
    else if a.bundlePinned && !a.bundleVerified then NotDone
    else if !a.contactVerified then NotDone
    else if a.hasKeyPackage then
      if a.welcome.None? || a.second.Fault? then NotDone
      else Done(a.second.ciphertext, "mls1", a.welcome.value)
    else if Private(a.tier) || a.invitePinned || !a.legacyAllowed || !a.hasPeerKey then NotDone
    else if a.legacy.Fault? then NotDone
    else Done(a.legacy.ciphertext, LEGACY, "")
  }

  /** The legacy format comes out only off the private tiers, with the override active,
      for a peer with no usable session, no key package and no pinned invite. */
  lemma LegacyOnlyOffPrivate(a: Answers)
    requires Compose(a).Done? && Compose(a).format == LEGACY
    ensures !Private(a.tier) && a.legacyAllowed && a.hasPeerKey && !a.invitePinned && !a.hasKeyPackage
    ensures a.session.Missing? || (a.session.Exists? && a.first == Fault("session_expired"))
    ensures a.legacy == Sealed(Compose(a).ciphertext) && Compose(a).welcome == ""
  {
  }

  // --------------------------------------------------------- pending commits

  datatype Key = Key(peer: string, format: string, ciphertext: string)

  datatype Pending = Pending(created: nat, updates: Updates)

  predicate Alive(p: Pending, now: nat) { p.created > 0 && now - p.created <= COMMIT_TTL_MS }

  function Cleanup(pending: map<Key, Pending>, now: nat): map<Key, Pending> {
    map k | k in pending && Alive(pending[k], now) :: pending[k]
  }

  function Register(pending: map<Key, Pending>, k: Key, updates: Updates, now: nat): map<Key, Pending> {
    if k.peer == "" || k.ciphertext == "" then pending else Cleanup(pending, now)[k := Pending(now, updates)]
  }

  function Consume(pending: map<Key, Pending>, k: Key, now: nat): (map<Key, Pending>, Option<Updates>) {
    if k.peer == "" || k.ciphertext == "" then (pending, None)
    else
      var alive := Cleanup(pending, now);
      (alive - {k}, if k in alive && alive[k].updates != map[] then Some(alive[k].updates) else None)
  }

  // -------------------------------------------------------------------- runs

  /** A composed message that carries an alias change, and an alias change that was
      applied to the contact. */
  datatype Carried = Carried(key: Key, updates: Updates, at: nat)

  /** The outbox, the pending alias changes, every composed message that carried one,
      and every change applied so far. */
  datatype State = State(
    outbox: seq<Item>, pending: map<Key, Pending>, carried: seq<Carried>, applied: seq<Carried>)

  datatype Event =
    | ComposeFor(peer: string, answers: Answers)
    | Post(request: Request, helpers: Helpers)
    | Retier(item: nat, atTier: string)
    | Release(index: nat, onTier: string, now: nat)

  function DoCompose(s: State, peer: string, a: Answers): State {
    var c := Compose(a);
    if c.NotDone? || a.updates == map[] then s
    else
      var k := Key(peer, c.format, c.ciphertext);
      s.(pending := Register(s.pending, k, a.updates, a.now),
         carried := s.carried + [Carried(k, a.updates, a.now)])
  }

  function KeyOf(p: DmSend.Release): Key { Key(p.recipientId, p.format, p.ciphertext) }

  /** The worker has delivered an item; its alias change, if any, is applied. */
  function DoRelease(s: State, i: nat, tier: string, now: nat): State {
    if i < |s.outbox| && !s.outbox[i].delivered && ReleaseAllowed(tier) then
      var k := KeyOf(s.outbox[i].payload);
      var (pending, updates) := Consume(s.pending, k, now);
      State(Next(s.outbox, Deliver(i, tier)), pending, s.carried,
            if updates.Some? then s.applied + [Carried(k, updates.value, now)] else s.applied)
    else s
  }

  function Step(s: State, e: Event): State {
    match e
    case ComposeFor(peer, a) => DoCompose(s, peer, a)
    case Post(r, h) => s.(outbox := Next(s.outbox, Submit(r, h)))
    case Retier(i, tier) => s.(outbox := Next(s.outbox, Report(i, tier)))
    case Release(i, tier, now) => DoRelease(s, i, tier, now)
  }

  const Start := State([], map[], [], [])

  function Run(events: seq<Event>): State {
    if events == [] then Start else Step(Run(events[..|events| - 1]), events[|events| - 1])
  }

  // --------------------------------------------------------------- invariant

  /** The pending change was carried by a composed message to that peer. */
  ghost predicate FromCompose(carried: seq<Carried>, k: Key, updates: Updates, at: nat) {
    exists i :: 0 <= i < |carried| && carried[i] == Carried(k, updates, at)
  }

  /** A delivered item holds the ciphertext, for that peer and in that format. */
  ghost predicate WasDelivered(box: seq<Item>, k: Key) {
    exists i :: 0 <= i < |box| && IsDelivered(box[i], k)
  }

  predicate IsDelivered(item: Item, k: Key) { item.delivered && KeyOf(item.payload) == k }

  /** The applied change was carried by a message composed at most a day before. */
  ghost predicate Timely(carried: seq<Carried>, c: Carried) {
    exists i :: 0 <= i < |carried| && Matches(carried[i], c)
  }

  predicate Matches(from: Carried, c: Carried) {
    from.key == c.key && from.updates == c.updates && c.at - from.at <= COMMIT_TTL_MS
  }

  function Count(cs: seq<Carried>, k: Key): nat {
    if cs == [] then 0 else Count(cs[..|cs| - 1], k) + if cs[|cs| - 1].key == k then 1 else 0
  }

  ghost predicate PendingOk(s: State) {
    forall k :: k in s.pending ==>
      FromCompose(s.carried, k, s.pending[k].updates, s.pending[k].created) && s.pending[k].updates != map[]
  }

  ghost predicate AppliedOk(s: State) {
    forall i :: 0 <= i < |s.applied| ==>
      Timely(s.carried, s.applied[i]) && WasDelivered(s.outbox, s.applied[i].key)
  }

  /** Changes applied and still pending, against the messages that carried one. */
  ghost predicate CountedAt(s: State, k: Key) {
    Count(s.applied, k) + (if k in s.pending then 1 else 0) <= Count(s.carried, k)
  }

  ghost predicate Counted(s: State) { forall k :: CountedAt(s, k) }

  ghost predicate Good(s: State) { PendingOk(s) && AppliedOk(s) && Counted(s) }

  lemma CountSnoc(cs: seq<Carried>, c: Carried, k: Key)
    ensures Count(cs + [c], k) == Count(cs, k) + if c.key == k then 1 else 0
  {
    assert (cs + [c])[..|cs|] == cs;
  }

  lemma ComposeKeepsPending(s: State, peer: string, a: Answers)
    requires PendingOk(s)
    ensures PendingOk(DoCompose(s, peer, a))
  {
    var s' := DoCompose(s, peer, a);
    if s' != s {
      forall k | k in s'.pending
        ensures FromCompose(s'.carried, k, s'.pending[k].updates, s'.pending[k].created)
        ensures s'.pending[k].updates != map[]
      {
        if k in s.pending && s'.pending[k] == s.pending[k] {
          var i :| 0 <= i < |s.carried| && s.carried[i] == Carried(k, s.pending[k].updates, s.pending[k].created);
          assert s'.carried[i] == s.carried[i];
        } else {
          assert s'.carried[|s.carried|] == Carried(k, s'.pending[k].updates, s'.pending[k].created);
        }
      }
    }
  }

  lemma ComposeKeepsApplied(s: State, peer: string, a: Answers)
    requires AppliedOk(s)
    ensures AppliedOk(DoCompose(s, peer, a))
  {
    var s' := DoCompose(s, peer, a);
    forall i | 0 <= i < |s'.applied|
      ensures Timely(s'.carried, s'.applied[i])
    {
      assert Timely(s.carried, s.applied[i]);
      var j :| 0 <= j < |s.carried| && Matches(s.carried[j], s.applied[i]);
      assert s'.carried[j] == s.carried[j];
    }
  }

  lemma ComposeKeepsCount(s: State, peer: string, a: Answers)
    requires Counted(s)
    ensures Counted(DoCompose(s, peer, a))
  {
    var s' := DoCompose(s, peer, a);
    forall k
      ensures CountedAt(s', k)
    {
      assert CountedAt(s, k);
      if s' != s {
        CountSnoc(s.carried, s'.carried[|s.carried|], k);
      }
    }
  }

  lemma DeliveredStays(box: seq<Item>, step: DmSend.Step, k: Key)
    requires WasDelivered(box, k)
    ensures WasDelivered(Next(box, step), k)
  {
    var i :| 0 <= i < |box| && IsDelivered(box[i], k);
    var box' := Next(box, step);
    assert box'[i] == box[i];
  }

  lemma OutboxKeeps(s: State, step: DmSend.Step)
    requires Good(s)
    ensures Good(s.(outbox := Next(s.outbox, step)))
  {
    var s' := s.(outbox := Next(s.outbox, step));
    forall i | 0 <= i < |s.applied|
      ensures Timely(s.carried, s.applied[i]) && WasDelivered(s'.outbox, s.applied[i].key)
    {
      DeliveredStays(s.outbox, step, s.applied[i].key);
    }
    assert forall k :: CountedAt(s, k) ==> CountedAt(s', k);
  }

  lemma ReleaseKeepsApplied(s: State, i: nat, tier: string, now: nat)
    requires PendingOk(s) && AppliedOk(s) && i < |s.outbox| && !s.outbox[i].delivered && ReleaseAllowed(tier)
    ensures AppliedOk(DoRelease(s, i, tier, now))
  {
    var s' := DoRelease(s, i, tier, now);
    var k := KeyOf(s.outbox[i].payload);
    assert IsDelivered(s'.outbox[i], k);
    forall j | 0 <= j < |s'.applied|
      ensures Timely(s'.carried, s'.applied[j]) && WasDelivered(s'.outbox, s'.applied[j].key)
    {
      if j < |s.applied| {
        DeliveredStays(s.outbox, Deliver(i, tier), s.applied[j].key);
      } else {
        var p := s.pending[k];
        var m :| 0 <= m < |s.carried| && s.carried[m] == Carried(k, p.updates, p.created);
        assert Matches(s.carried[m], s'.applied[j]);
      }
    }
  }

  lemma ReleaseKeepsCount(s: State, i: nat, tier: string, now: nat)
    requires Counted(s)
    ensures Counted(DoRelease(s, i, tier, now))
  {
    var s' := DoRelease(s, i, tier, now);
    forall k
      ensures CountedAt(s', k)
    {
      assert CountedAt(s, k);
      if |s'.applied| > |s.applied| {
        CountSnoc(s.applied, s'.applied[|s.applied|], k);
      }
    }
  }

  lemma StepKeeps(s: State, e: Event)
    requires Good(s)
    ensures Good(Step(s, e))
  {
    match e
    case ComposeFor(peer, a) =>
      ComposeKeepsPending(s, peer, a);
      ComposeKeepsApplied(s, peer, a);
      ComposeKeepsCount(s, peer, a);
    case Post(r, h) => OutboxKeeps(s, Submit(r, h));
    case Retier(i, tier) => OutboxKeeps(s, Report(i, tier));
    case Release(i, tier, now) =>
      if i < |s.outbox| && !s.outbox[i].delivered && ReleaseAllowed(tier) {
        ReleaseKeepsApplied(s, i, tier, now);
      }
      ReleaseKeepsCount(s, i, tier, now);
  }

  /** In every run: an alias change is applied only for a message that was delivered to
      that peer with the very ciphertext that was composed with the change, at most a
      day earlier, and no composed message has its change applied twice. */
  lemma {:induction false} RunIsGood(events: seq<Event>)
    ensures Good(Run(events))
  {
    if events != [] {
      RunIsGood(events[..|events| - 1]);
      StepKeeps(Run(events[..|events| - 1]), events[|events| - 1]);
    } else {
      assert forall k :: CountedAt(Start, k);
    }
  }

  /** In every run a composed message that carried a change stems from an event of the run
      that composed exactly it, and one in the legacy format from one off the private
      tiers. */
  lemma {:induction false} RunCarried(events: seq<Event>, i: nat) returns (j: nat)
    requires i < |Run(events).carried|
    ensures j < |events| && events[j].ComposeFor?
    ensures var c, m := Run(events).carried[i], Compose(events[j].answers);
      && m.Done? && c.key == Key(events[j].peer, m.format, m.ciphertext)
      && c.updates == events[j].answers.updates && c.at == events[j].answers.now
    ensures Run(events).carried[i].key.format == LEGACY ==> !Private(events[j].answers.tier)
  {
    var front := events[..|events| - 1];
    if i < |Run(front).carried| {
      j := RunCarried(front, i);
    } else {
      j := |events| - 1;
    }
    if Run(events).carried[i].key.format == LEGACY {
      LegacyOnlyOffPrivate(events[j].answers);
    }
  }

  /** Composing registers a change exactly when it succeeds with updates, for the very
      ciphertext and format it returns; a blank peer or ciphertext is skipped. */
  lemma RegisteredExactly(s: State, peer: string, a: Answers, k: Key)
    ensures var pending := DoCompose(s, peer, a).pending;
      (k in pending && pending[k] == Pending(a.now, a.updates) && (k !in s.pending || s.pending[k] != pending[k]))
      <==> (Compose(a).Done? && a.updates != map[] && peer != "" && Compose(a).ciphertext != ""
            && k == Key(peer, Compose(a).format, Compose(a).ciphertext)
            && (k !in s.pending || s.pending[k] != Pending(a.now, a.updates)))
  {
  }

  /** A composed message that is queued under a new message id, in the format it was
      composed in, and delivered at the floor within a day has its change applied exactly when no
      legacy signature rewrote that format on the way. */
  lemma ComposeSendDeliver(s: State, peer: string, a: Answers, r: Request, h: Helpers, tier: string, now: nat)
    requires Good(s) && DmSend.Inv(s.outbox)
    requires Compose(a).Done? && a.updates != map[] && peer != "" && Compose(a).ciphertext != ""
    requires r.recipientId == peer && r.ciphertext == Compose(a).ciphertext && r.format == Compose(a).format
    requires Send(s.outbox, r, h).1.Queued? && !HasKey(s.outbox, r.msgId)
    requires 0 < a.now <= now <= a.now + COMMIT_TTL_MS && ReleaseAllowed(tier)
    ensures var s1 := Step(DoCompose(s, peer, a), Post(r, h));
      && |s1.outbox| == |s.outbox| + 1
      && (DoRelease(s1, |s.outbox|, tier, now).applied
          == s.applied + [Carried(Key(peer, r.format, r.ciphertext), a.updates, now)]
          <==> (h.signature != LEGACY_SIGNATURE || r.format == LEGACY))
  {
    var s0 := DoCompose(s, peer, a);
    var s1 := Step(s0, Post(r, h));
    PreparedIsSound(r, h);
    var p := Prepare(r, h).release;
    assert s1.outbox[|s.outbox|].payload == p;
    var k := Key(peer, r.format, r.ciphertext);
    assert s1.pending[k] == Pending(a.now, a.updates);
    var s2 := DoRelease(s1, |s.outbox|, tier, now);
    assert |s2.applied| > |s.applied| ==> s2.applied[|s.applied|].key == KeyOf(p);
    assert (s.applied + [Carried(k, a.updates, now)])[|s.applied|].key == k;
    if KeyOf(p) == k {
      assert k in Cleanup(s1.pending, now);
    }
  }

  // ---------------------------------------------------------------- the code

  class Composer {
    var pending: map<Key, Pending>
    var applied: seq<Carried>

    method RegisterCommit(k: Key, updates: Updates, now: nat)
      modifies this`pending
      ensures pending == Register(old(pending), k, updates, now)
    {
      if k.peer == "" || k.ciphertext == "" {
        return;
      }
      pending := Cleanup(pending, now);
      pending := pending[k := Pending(now, updates)];
    }

    method ConsumeCommit(k: Key, now: nat) returns (updates: Option<Updates>)
      modifies this`pending
      ensures (pending, updates) == Consume(old(pending), k, now)
    {
      if k.peer == "" || k.ciphertext == "" {
        return None;
      }
      pending := Cleanup(pending, now);
      if k !in pending {
        assert pending - {k} == pending;
        return None;
      }
      var found := pending[k].updates;
      pending := pending - {k};
      return if found != map[] then Some(found) else None;
    }

    /** Called by the worker for a delivered payload. */
    method CommitIfPresent(p: DmSend.Release, now: nat) returns (done: bool)
      modifies this
      ensures var s := DoRelease(State([Item(p, RELEASE_FLOOR, false)], old(pending), [], old(applied)), 0, RELEASE_FLOOR, now);
        pending == s.pending && applied == s.applied && done == (applied != old(applied))
    {
      var k := KeyOf(p);
      var updates := ConsumeCommit(k, now);
      if updates.None? {
        return false;
      }
      applied := applied + [Carried(k, updates.value, now)];
      return true;
    }

    method ComposeDm(peer: string, a: Answers) returns (c: Composed)
      modifies this`pending
      ensures c == Compose(a)
      ensures pending == DoCompose(State([], old(pending), [], []), peer, a).pending
    {
      if a.session.NoAnswer? {
        return NotDone;
      }
      if a.session.Exists? {
        if a.first.Sealed? {
          if a.updates != map[] {
            RegisterCommit(Key(peer, "mls1", a.first.ciphertext), a.updates, a.now);
          }
          return Done(a.first.ciphertext, "mls1", "");
        }
        if a.first.detail != "session_expired" {
          return NotDone;
        }
      }
      if (a.bundlePinned && !a.bundleVerified) || !a.contactVerified {
        return NotDone;
      }
      if a.hasKeyPackage {
        if a.welcome.None? || a.second.Fault? {
          return NotDone;
        }
        if a.updates != map[] {
          RegisterCommit(Key(peer, "mls1", a.second.ciphertext), a.updates, a.now);
        }
        return Done(a.second.ciphertext, "mls1", a.welcome.value);
      }
      if Private(a.tier) || a.invitePinned || !a.legacyAllowed || !a.hasPeerKey || a.legacy.Fault? {
        return NotDone;
      }
      if a.updates != map[] {
        RegisterCommit(Key(peer, LEGACY, a.legacy.ciphertext), a.updates, a.now);
      }
      return Done(a.legacy.ciphertext, LEGACY, "");
    }
  }
}
