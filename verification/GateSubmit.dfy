/** Submitting an encrypted gate message: checks, cooldown, sequence, local store,
    then the release queue. (backend/main.py, _submit_gate_message_envelope and the
    cooldown pair; backend/services/mesh/mesh_hashchain.py, GateMessageStore.append
    and validate_and_set_sequence; backend/services/mesh/mesh_private_outbox.py,
    enqueue) */
module GateSubmit {
  const COOLDOWN := 30.0
  const REQUIRED_LOCK := "private_strong"
  const HASH_LENGTH := 64

  /** The fields of a request; senderKey and gateKey are the sender and the gate with
      blanks stripped, the gate also lower-cased. */
  datatype Request = Request(
    sender: string, senderKey: string, gateKey: string, hasPlaintext: bool, transportLock: string,
    envelope: string, envelopeHash: string, replyTo: string, epoch: int, sequence: int)

  /** What the helpers answer: policy lookup, payload and signature checks, epoch
      state, gate access, and whether recording and persisting work. */
  datatype Helpers = Helpers(
    envelopeAlways: bool, payloadOk: bool, prepared: bool, signatureOk: bool, verifiedReplyTo: string,
    legacyEpoch: bool, epochOk: bool, canEnter: bool, sequencesWork: bool, buildWorks: bool,
    persistWorks: bool, remembersReplay: bool, fingerprint: nat, eventId: nat,
    checkedAt: real, recordedAt: real)

  /** The digest of an envelope, and whether it can be taken. */
  datatype Digest = Digest(hash: string -> string, encodable: string -> bool)

  datatype Event = Event(
    eventId: nat, fingerprint: nat, sender: string, gateKey: string, sequence: int, envelope: string,
    envelopeHash: string, transportLock: string, replyTo: string, epoch: int)

  /** A post that passed every check, with the times of check and stamp. */
  datatype Post = Post(sender: string, senderKey: string, gateKey: string, sequence: int, checkedAt: real, recordedAt: real)

  /** What has happened to the two tables: a post was written into them, the chain was
      reset and took the sequences with it, or cooldown stamps were lost. */
  datatype Entry = Posted(post: Post) | SequencesCleared | StampsDropped(keys: set<(string, string)>)

  datatype State = State(
    store: seq<Event>,
    cooldown: map<(string, string), real>,
    sequences: map<string, int>,
    outbox: seq<Event>,
    history: seq<Entry>)

  datatype Reason =
    | MissingSender | PlaintextRefused | LockRequired | WrongLock | EnvelopeRequired | HashRequired
    | EnvelopeMissing | BadHash | BadEnvelope | HashMismatch | BadPayload | BadSignature | StaleEpoch
    | AccessDenied | CoolingDown | SequenceRefused | RecordFailed

  datatype Outcome = Rejected(reason: Reason) | Queued(eventId: nat)

  predicate LowerHex(s: string) {
    forall i :: 0 <= i < |s| ==> '0' <= s[i] <= '9' || 'a' <= s[i] <= 'f'
  }

  /** The checks up to the cooldown, in order. */
  function Screen(d: Digest, r: Request, h: Helpers): seq<Reason> {
    if r.sender == "" then [MissingSender]
    else if r.hasPlaintext then [PlaintextRefused]
    else if r.transportLock == "" then [LockRequired]
    else if r.transportLock != REQUIRED_LOCK then [WrongLock]
    else if h.envelopeAlways && r.envelope == "" then [EnvelopeRequired]
    else if r.envelope != "" && r.envelopeHash == "" then [HashRequired]
    else if r.envelopeHash != "" && r.envelope == "" then [EnvelopeMissing]
    else if r.envelopeHash != "" && (|r.envelopeHash| != HASH_LENGTH || !LowerHex(r.envelopeHash)) then [BadHash]
    else if r.envelopeHash != "" && !d.encodable(r.envelope) then [BadEnvelope]
    else if r.envelopeHash != "" && d.hash(r.envelope) != r.envelopeHash then [HashMismatch]
    else if r.gateKey == "" || !h.payloadOk then [BadPayload]
    else if !h.signatureOk then [BadSignature]
    else if r.epoch > 0 && !h.epochOk then [StaleEpoch]
    else if !h.canEnter then [AccessDenied]
    else []
  }

  function LastStampOf(s: State, key: (string, string)): real {
    if key in s.cooldown then s.cooldown[key] else 0.0
  }

  predicate CooldownOk(s: State, r: Request, now: real) {
    var last := LastStampOf(s, (r.senderKey, r.gateKey));
    r.senderKey == "" || r.gateKey == "" || last <= 0.0 || now - last >= COOLDOWN
  }

  function LastSequence(s: State, sender: string): int {
    if sender in s.sequences then s.sequences[sender] else 0
  }

  /** The reply target that goes into the event. */
  function ReplyTarget(r: Request, h: Helpers): string {
    if h.prepared && h.verifiedReplyTo == "" then r.replyTo else h.verifiedReplyTo
  }

  function BuildEvent(r: Request, h: Helpers): Event {
    Event(h.eventId, h.fingerprint, r.sender, r.gateKey, r.sequence, r.envelope, r.envelopeHash,
          r.transportLock, ReplyTarget(r, h), if r.epoch > 0 && !h.legacyEpoch then r.epoch else 0)
  }

  /** Append to the gate store: an event it has seen before is answered with the
      stored one; the id that is returned is the one the event is queued under. */
  function Append(store: seq<Event>, e: Event, remembersReplay: bool): (seq<Event>, nat) {
    if remembersReplay && HasFingerprint(store, e.fingerprint) then (store, store[Find(store, e.fingerprint)].eventId)
    else if HasId(store, e.eventId) then (store, e.eventId)
    else (store + [e], e.eventId)
  }

  /** The release queue files an event under its id and keeps what is filed there. */
  function Enqueue(outbox: seq<Event>, e: Event): seq<Event> {
    if HasId(outbox, e.eventId) then outbox else outbox + [e]
  }

  predicate HasId(store: seq<Event>, eventId: nat) {
    exists i :: 0 <= i < |store| && store[i].eventId == eventId
  }

  predicate HasFingerprint(store: seq<Event>, fingerprint: nat) {
    exists i :: 0 <= i < |store| && store[i].fingerprint == fingerprint
  }

  function Find(store: seq<Event>, fingerprint: nat): (i: nat)
    requires HasFingerprint(store, fingerprint)
    ensures i < |store| && store[i].fingerprint == fingerprint
  {
    var front := store[..|store| - 1];
    if store[|store| - 1].fingerprint == fingerprint then |store| - 1
    else
      assert HasFingerprint(front, fingerprint) by {
        var i :| 0 <= i < |store| && store[i].fingerprint == fingerprint;
        assert front[i].fingerprint == fingerprint;
      }
      Find(front, fingerprint)
  }

  /** The sequence table and the cooldown stamp are written before the event is built
      and persisted. */
  function Stamp(s: State, r: Request, h: Helpers): State {
    s.(sequences := s.sequences[r.sender := r.sequence],
       cooldown := if r.senderKey != "" && r.gateKey != "" then s.cooldown[(r.senderKey, r.gateKey) := h.recordedAt]
                   else s.cooldown,
       history := s.history + [Posted(Post(r.sender, r.senderKey, r.gateKey, r.sequence, h.checkedAt, h.recordedAt))])
  }

  function Submit(d: Digest, s: State, r: Request, h: Helpers): (State, Outcome) {
    var screened := Screen(d, r, h);
    if screened != [] then (s, Rejected(screened[0]))
    else if !CooldownOk(s, r, h.checkedAt) then (s, Rejected(CoolingDown))
    else if !h.sequencesWork then (s, Rejected(RecordFailed))
    else if r.sequence <= 0 || r.sequence <= LastSequence(s, r.sender) then (s, Rejected(SequenceRefused))
    else
      var stamped := Stamp(s, r, h);
      if !h.buildWorks || !h.persistWorks then (stamped, Rejected(RecordFailed))
      else
        var e := BuildEvent(r, h);
        var (store, id) := Append(s.store, e, h.remembersReplay);
        (stamped.(store := store, outbox := Enqueue(s.outbox, e.(eventId := id))), Queued(id))
  }

  // -------------------------------------------------------------- invariant

  /** The queued event is in the gate store under its id, is locked to the private
      lane, and carries an envelope exactly when it carries that envelope's hash. */
  ghost predicate QueuedOk(d: Digest, store: seq<Event>, q: Event) {
    && HasId(store, q.eventId)
    && q.transportLock == REQUIRED_LOCK
    && (q.envelope != "" <==> q.envelopeHash != "")
    && (q.envelope != "" ==> q.envelopeHash == d.hash(q.envelope) && |q.envelopeHash| == HASH_LENGTH)
    && q.gateKey != ""
  }

  ghost predicate Inv(d: Digest, s: State) {
    && (forall i :: 0 <= i < |s.outbox| ==> QueuedOk(d, s.store, s.outbox[i]))
    && (forall i, j :: 0 <= i < j < |s.outbox| ==> s.outbox[i].eventId != s.outbox[j].eventId)
  }

  const Empty := State([], map[], map[], [], [])

  lemma AppendStores(store: seq<Event>, e: Event, remembersReplay: bool)
    ensures var (store', id) := Append(store, e, remembersReplay);
            store <= store' && HasId(store', id)
  {
    var (store', id) := Append(store, e, remembersReplay);
    if store' != store {
      assert store'[|store|].eventId == id;
    }
  }

  /** What was queued stays backed by the store as the store grows. */
  lemma StoreGrows(d: Digest, store: seq<Event>, store': seq<Event>, q: Event)
    requires QueuedOk(d, store, q) && store <= store'
    ensures QueuedOk(d, store', q)
  {
    var k :| 0 <= k < |store| && store[k].eventId == q.eventId;
    assert store'[k].eventId == q.eventId;
  }

  lemma EnqueueKeeps(outbox: seq<Event>, e: Event)
    ensures outbox <= Enqueue(outbox, e) <= outbox + [e] && HasId(Enqueue(outbox, e), e.eventId)
    ensures |Enqueue(outbox, e)| > |outbox| ==> !HasId(outbox, e.eventId)
  {
    if !HasId(outbox, e.eventId) {
      assert Enqueue(outbox, e)[|outbox|].eventId == e.eventId;
    }
  }

  /** A request that passed the screening is fit for the queue once it is in the store. */
  lemma ScreenedIsFit(d: Digest, s: State, r: Request, h: Helpers)
    requires Screen(d, r, h) == []
    ensures var (store, id) := Append(s.store, BuildEvent(r, h), h.remembersReplay);
      s.store <= store && QueuedOk(d, store, BuildEvent(r, h).(eventId := id))
  {
    AppendStores(s.store, BuildEvent(r, h), h.remembersReplay);
  }

  /** One submission keeps the invariant and never takes anything out of the store; one
      that is answered as queued has an item under its id in the queue. */
  lemma SubmitKeeps(d: Digest, s: State, r: Request, h: Helpers)
    requires Inv(d, s)
    ensures Inv(d, Submit(d, s, r, h).0) && s.store <= Submit(d, s, r, h).0.store
    ensures Submit(d, s, r, h).1.Queued? ==> HasId(Submit(d, s, r, h).0.outbox, Submit(d, s, r, h).1.eventId)
  {
    var (s', outcome) := Submit(d, s, r, h);
    if outcome.Queued? {
      ScreenedIsFit(d, s, r, h);
      var e := BuildEvent(r, h).(eventId := outcome.eventId);
      EnqueueKeeps(s.outbox, e);
      forall i | 0 <= i < |s'.outbox|
        ensures QueuedOk(d, s'.store, s'.outbox[i])
      {
        if i < |s.outbox| {
          StoreGrows(d, s.store, s'.store, s.outbox[i]);
        }
      }
    }
  }

  // ------------------------------------------------------------------- runs

  /** A submission; a peer brings an event; the fork recovery resets the chain and its
      sequence tables; the cache of the cooldown drops entries, all of them at a restart. */
  datatype Step =
    | Call(request: Request, helpers: Helpers)
    | PeerEvent(event: Event)
    | ChainReset
    | DropStamps(keys: set<(string, string)>)

  function Next(d: Digest, s: State, step: Step): State {
    match step
    case Call(r, h) => Submit(d, s, r, h).0
    case PeerEvent(e) => if HasId(s.store, e.eventId) then s else s.(store := s.store + [e])
    case ChainReset => s.(sequences := map[], history := s.history + [SequencesCleared])
    case DropStamps(keys) => s.(cooldown := s.cooldown - keys, history := s.history + [StampsDropped(keys)])
  }

  function Run(d: Digest, s: State, steps: seq<Step>): State {
    if steps == [] then s else Next(d, Run(d, s, steps[..|steps| - 1]), steps[|steps| - 1])
  }

  lemma OtherStepKeeps(d: Digest, s: State, step: Step)
    requires Inv(d, s) && !step.Call?
    ensures Inv(d, Next(d, s, step)) && s.store <= Next(d, s, step).store
  {
    var s' := Next(d, s, step);
    forall i | 0 <= i < |s'.outbox| ensures QueuedOk(d, s'.store, s'.outbox[i]) {
      StoreGrows(d, s.store, s'.store, s.outbox[i]);
    }
  }

  /** In every reachable state, whatever the helpers answered along the way. */
  lemma {:induction false} RunKeeps(d: Digest, steps: seq<Step>)
    ensures Inv(d, Run(d, Empty, steps))
  {
    if steps != [] {
      var front, last := steps[..|steps| - 1], steps[|steps| - 1];
      RunKeeps(d, front);
      if last.Call? {
        SubmitKeeps(d, Run(d, Empty, front), last.request, last.helpers);
      } else {
        OtherStepKeeps(d, Run(d, Empty, front), last);
      }
    }
  }

  // ------------------------------------------- the two tables and the history

  /** The sequence of the sender's last post since the chain was last reset, 0 if none. */
  function LastPosted(history: seq<Entry>, sender: string): int {
    if history == [] then 0
    else
      var front := history[..|history| - 1];
      match history[|history| - 1]
      case Posted(p) => if p.sender == sender then p.sequence else LastPosted(front, sender)
      case SequencesCleared => 0
      case StampsDropped(_) => LastPosted(front, sender)
  }

  predicate Stamps(p: Post, key: (string, string)) {
    (p.senderKey, p.gateKey) == key && key.0 != "" && key.1 != ""
  }

  /** The stamp of the last post under the key since the key was last dropped. */
  function LastStamp(history: seq<Entry>, key: (string, string)): real {
    if history == [] then 0.0
    else
      var front := history[..|history| - 1];
      match history[|history| - 1]
      case Posted(p) => if Stamps(p, key) then p.recordedAt else LastStamp(front, key)
      case SequencesCleared => LastStamp(front, key)
      case StampsDropped(keys) => if key in keys then 0.0 else LastStamp(front, key)
  }

  ghost predicate Matches(s: State, sender: string, key: (string, string)) {
    LastSequence(s, sender) == LastPosted(s.history, sender) && LastStampOf(s, key) == LastStamp(s.history, key)
  }

  /** The tables hold exactly what the history says. */
  lemma {:induction false} RunMatches(d: Digest, steps: seq<Step>, sender: string, key: (string, string))
    ensures Matches(Run(d, Empty, steps), sender, key)
  {
    if steps != [] {
      RunMatches(d, steps[..|steps| - 1], sender, key);
      StepMatches(d, Run(d, Empty, steps[..|steps| - 1]), steps[|steps| - 1], sender, key);
    }
  }

  lemma StepMatches(d: Digest, s: State, step: Step, sender: string, key: (string, string))
    requires Matches(s, sender, key)
    ensures Matches(Next(d, s, step), sender, key)
  {
    var s' := Next(d, s, step);
    if |s'.history| > |s.history| {
      assert s'.history[..|s'.history| - 1] == s.history;
    }
  }

  /** No reset between two entries of the history, or between one and its end. */
  ghost predicate NoReset(history: seq<Entry>, i: nat, j: nat) {
    forall k :: i < k < j <= |history| ==> history[k] != SequencesCleared
  }

  ghost predicate NoDrop(history: seq<Entry>, i: nat, j: nat, key: (string, string)) {
    forall k :: i < k < j <= |history| && history[k].StampsDropped? ==> key !in history[k].keys
  }

  predicate PostBy(history: seq<Entry>, i: nat, sender: string) {
    i < |history| && history[i].Posted? && history[i].post.sender == sender
  }

  predicate PostUnder(history: seq<Entry>, i: nat, key: (string, string)) {
    i < |history| && history[i].Posted? && Stamps(history[i].post, key)
  }

  /** Each post was above the last of its sender at its time. */
  ghost predicate Ordered(history: seq<Entry>) {
    forall i :: 0 <= i < |history| && history[i].Posted? ==>
      0 < history[i].post.sequence && LastPosted(history[..i], history[i].post.sender) < history[i].post.sequence
  }

  lemma OrderedFront(history: seq<Entry>)
    requires Ordered(history) && history != []
    ensures Ordered(history[..|history| - 1])
  {
    var front := history[..|history| - 1];
    forall i | 0 <= i < |front| && front[i].Posted?
      ensures 0 < front[i].post.sequence && LastPosted(front[..i], front[i].post.sender) < front[i].post.sequence
    {
      assert front[i] == history[i] && front[..i] == history[..i];
    }
  }

  lemma {:induction false} RunOrdered(d: Digest, steps: seq<Step>)
    ensures Ordered(Run(d, Empty, steps).history)
  {
    if steps != [] {
      var front, last := steps[..|steps| - 1], steps[|steps| - 1];
      var s, s' := Run(d, Empty, front), Run(d, Empty, steps);
      RunOrdered(d, front);
      if last.Call? {
        RunMatches(d, front, last.request.sender, ("", ""));
      }
      forall i | 0 <= i < |s'.history| && s'.history[i].Posted?
        ensures 0 < s'.history[i].post.sequence
        ensures LastPosted(s'.history[..i], s'.history[i].post.sender) < s'.history[i].post.sequence
      {
        assert s'.history[..i] == s.history[..i];
      }
    }
  }

  /** The sequence is positive and above those of all posts of the sender since the chain
      was last reset. */
  ghost predicate AbovePosts(history: seq<Entry>, sender: string, n: int) {
    && 0 < n
    && forall i: nat :: PostBy(history, i, sender) && NoReset(history, i, |history|) ==>
      history[i].post.sequence < n
  }

  /** The stamps under the key that were not dropped are all 30 s old. */
  ghost predicate AfterStamps(history: seq<Entry>, key: (string, string), now: real) {
    forall i: nat :: PostUnder(history, i, key) && NoDrop(history, i, |history|, key) ==>
      now - history[i].post.recordedAt >= COOLDOWN
  }

  lemma NoResetFront(history: seq<Entry>, i: nat)
    requires i < |history| - 1
    ensures var m := |history| - 1;
      NoReset(history, i, |history|) <==> NoReset(history[..m], i, m) && history[m] != SequencesCleared
  {
    var m := |history| - 1;
    assert forall k :: 0 <= k < m ==> history[..m][k] == history[k];
  }

  lemma NoDropFront(history: seq<Entry>, i: nat, key: (string, string))
    requires i < |history| - 1
    ensures var m := |history| - 1;
      NoDrop(history, i, |history|, key) <==>
        NoDrop(history[..m], i, m, key) && !(history[m].StampsDropped? && key in history[m].keys)
  {
    var m := |history| - 1;
    assert forall k :: 0 <= k < m ==> history[..m][k] == history[k];
  }

  lemma AboveFront(history: seq<Entry>, sender: string, n: int)
    requires history != []
    ensures var m := |history| - 1;
      AbovePosts(history, sender, n) <==>
        if history[m] == SequencesCleared then 0 < n
        else AbovePosts(history[..m], sender, n) && (PostBy(history, m, sender) ==> history[m].post.sequence < n)
  {
    var m := |history| - 1;
    var front := history[..m];
    forall i: nat | i < m
      ensures NoReset(history, i, |history|) <==> NoReset(front, i, m) && history[m] != SequencesCleared
      ensures PostBy(history, i, sender) <==> PostBy(front, i, sender)
    {
      NoResetFront(history, i);
    }
    assert NoReset(history, m, |history|);
    if AbovePosts(history, sender, n) {
      forall i: nat | PostBy(front, i, sender) && NoReset(front, i, m) && history[m] != SequencesCleared
        ensures front[i].post.sequence < n
      {
        assert PostBy(history, i, sender);
      }
    }
  }

  /** What the table refuses is what the history refuses. */
  lemma {:induction false} AboveLast(history: seq<Entry>, sender: string, n: int)
    requires Ordered(history)
    ensures AbovePosts(history, sender, n) <==> 0 < n && LastPosted(history, sender) < n
    decreases |history|
  {
    if history != [] {
      var m := |history| - 1;
      var front := history[..m];
      OrderedFront(history);
      AboveFront(history, sender, n);
      AboveLast(front, sender, n);
      if PostBy(history, m, sender) && history[m].post.sequence < n {
        AboveLast(front, sender, history[m].post.sequence);
      }
    }
  }

  /** In every run, across resets of the chain and losses of stamps, the posts of one
      sender between two resets carry rising sequences. */
  lemma RunRises(d: Digest, steps: seq<Step>, i: nat, j: nat, sender: string)
    requires var history := Run(d, Empty, steps).history;
      i < j && PostBy(history, i, sender) && PostBy(history, j, sender) && NoReset(history, i, j)
    ensures Run(d, Empty, steps).history[i].post.sequence < Run(d, Empty, steps).history[j].post.sequence
  {
    var history := Run(d, Empty, steps).history;
    RunOrdered(d, steps);
    OrderedPrefix(history, j);
    var n := history[j].post.sequence;
    AboveLast(history[..j], sender, n);
    assert PostBy(history[..j], i, sender);
    assert NoReset(history[..j], i, j) by {
      assert forall k :: 0 <= k < j ==> history[..j][k] == history[k];
    }
  }

  lemma {:induction false} OrderedPrefix(history: seq<Entry>, j: nat)
    requires Ordered(history) && j <= |history|
    ensures Ordered(history[..j])
    decreases |history| - j
  {
    if j < |history| {
      OrderedPrefix(history, j + 1);
      OrderedFront(history[..j + 1]);
      assert history[..j + 1][..j] == history[..j];
    } else {
      assert history[..j] == history;
    }
  }

  // ----------------------------------------------------------- the cooldown

  /** The clock does not run backwards between submissions, nor between check and stamp. */
  ghost predicate InTime(history: seq<Entry>, checkedAt: real, recordedAt: real) {
    && 0.0 < checkedAt <= recordedAt
    && forall i :: 0 <= i < |history| && history[i].Posted? ==> history[i].post.recordedAt <= checkedAt
  }

  ghost predicate Timely(d: Digest, steps: seq<Step>) {
    steps == []
    || (var front, last := steps[..|steps| - 1], steps[|steps| - 1];
        Timely(d, front)
        && (last.Call? ==> InTime(Run(d, Empty, front).history, last.helpers.checkedAt, last.helpers.recordedAt)))
  }

  ghost predicate CooledAt(history: seq<Entry>, p: Post) {
    var key := (p.senderKey, p.gateKey);
    && InTime(history, p.checkedAt, p.recordedAt)
    && (key.0 == "" || key.1 == "" || LastStamp(history, key) <= 0.0
        || p.checkedAt - LastStamp(history, key) >= COOLDOWN)
  }

  /** Each post was checked after the stamps before it, and cooled down. */
  ghost predicate Cooled(history: seq<Entry>) {
    forall i :: 0 <= i < |history| && history[i].Posted? ==> CooledAt(history[..i], history[i].post)
  }

  lemma CooledFront(history: seq<Entry>)
    requires Cooled(history) && history != []
    ensures Cooled(history[..|history| - 1])
  {
    var front := history[..|history| - 1];
    forall i | 0 <= i < |front| && front[i].Posted?
      ensures CooledAt(front[..i], front[i].post)
    {
      assert front[i] == history[i] && front[..i] == history[..i];
    }
  }

  lemma {:induction false} CooledPrefix(history: seq<Entry>, j: nat)
    requires Cooled(history) && j <= |history|
    ensures Cooled(history[..j])
    decreases |history| - j
  {
    if j < |history| {
      CooledPrefix(history, j + 1);
      CooledFront(history[..j + 1]);
      assert history[..j + 1][..j] == history[..j];
    } else {
      assert history[..j] == history;
    }
  }

  lemma {:induction false} RunCooled(d: Digest, steps: seq<Step>)
    requires Timely(d, steps)
    ensures Cooled(Run(d, Empty, steps).history)
  {
    if steps != [] {
      var front, last := steps[..|steps| - 1], steps[|steps| - 1];
      var s, s' := Run(d, Empty, front), Run(d, Empty, steps);
      RunCooled(d, front);
      if last.Call? {
        RunMatches(d, front, "", (last.request.senderKey, last.request.gateKey));
      }
      forall i | 0 <= i < |s'.history| && s'.history[i].Posted?
        ensures CooledAt(s'.history[..i], s'.history[i].post)
      {
        assert s'.history[..i] == s.history[..i] && s.history[..|s.history|] == s.history;
      }
    }
  }

  lemma AfterFront(history: seq<Entry>, key: (string, string), now: real)
    requires history != []
    ensures var m := |history| - 1;
      AfterStamps(history, key, now) <==>
        (history[m].StampsDropped? && key in history[m].keys)
        || (AfterStamps(history[..m], key, now)
            && (PostUnder(history, m, key) ==> now - history[m].post.recordedAt >= COOLDOWN))
  {
    var m := |history| - 1;
    var front := history[..m];
    var dropped := history[m].StampsDropped? && key in history[m].keys;
    forall i: nat | i < m
      ensures NoDrop(history, i, |history|, key) <==> NoDrop(front, i, m, key) && !dropped
      ensures PostUnder(history, i, key) <==> PostUnder(front, i, key)
    {
      NoDropFront(history, i, key);
    }
    assert NoDrop(history, m, |history|, key);
    if AfterStamps(history, key, now) && !dropped {
      forall i: nat | PostUnder(front, i, key) && NoDrop(front, i, m, key)
        ensures now - front[i].post.recordedAt >= COOLDOWN
      {
        assert PostUnder(history, i, key);
      }
    }
  }

  /** What the cooldown table lets through is what all stamps that were not dropped do. */
  lemma {:induction false} AfterLast(history: seq<Entry>, key: (string, string), now: real)
    requires Cooled(history) && key.0 != "" && key.1 != ""
    ensures AfterStamps(history, key, now) <==>
      LastStamp(history, key) <= 0.0 || now - LastStamp(history, key) >= COOLDOWN
    decreases |history|
  {
    if history != [] {
      var m := |history| - 1;
      var front := history[..m];
      CooledFront(history);
      AfterFront(history, key, now);
      AfterLast(front, key, now);
      if PostUnder(history, m, key) {
        assert CooledAt(front, history[m].post);
        assert forall i :: 0 <= i < m && front[i].Posted? ==> front[i].post.recordedAt <= history[m].post.recordedAt;
      }
    }
  }

  /** In every run the posts under one key, a sender and a gate, are checked at least 30 s
      after each earlier stamp that was not dropped, also across resets of the chain. */
  lemma RunSpaces(d: Digest, steps: seq<Step>, i: nat, j: nat, key: (string, string))
    requires Timely(d, steps)
    requires var history := Run(d, Empty, steps).history;
      i < j && PostUnder(history, i, key) && PostUnder(history, j, key) && NoDrop(history, i, j, key)
    ensures var history := Run(d, Empty, steps).history;
      history[j].post.checkedAt - history[i].post.recordedAt >= COOLDOWN
  {
    var history := Run(d, Empty, steps).history;
    RunCooled(d, steps);
    CooledPrefix(history, j);
    AfterLast(history[..j], key, history[j].post.checkedAt);
    assert PostUnder(history[..j], i, key);
    assert NoDrop(history[..j], i, j, key) by {
      assert forall k :: 0 <= k < j ==> history[..j][k] == history[k];
    }
  }

  /** The tables refine the history: after any run a request is let through to recording
      exactly when it passes the screening, the table can be written, its sequence is
      positive and above those of all the sender's posts since the chain was last reset,
      and every stamp under its key that was not dropped is 30 s old. */
  lemma AdmittedExactly(d: Digest, steps: seq<Step>, r: Request, h: Helpers)
    requires Timely(d, steps)
    ensures var s := Run(d, Empty, steps);
      Submit(d, s, r, h).0.history != s.history <==>
        && Screen(d, r, h) == [] && h.sequencesWork
        && AbovePosts(s.history, r.sender, r.sequence)
        && AfterStamps(s.history, (r.senderKey, r.gateKey), h.checkedAt)
  {
    var s, key := Run(d, Empty, steps), (r.senderKey, r.gateKey);
    RunMatches(d, steps, r.sender, key);
    RunOrdered(d, steps);
    RunCooled(d, steps);
    AboveLast(s.history, r.sender, r.sequence);
    if key.0 != "" && key.1 != "" {
      AfterLast(s.history, key, h.checkedAt);
    } else {
      assert forall i: nat :: !PostUnder(s.history, i, key);
    }
  }

  /** A sequence that is spent stays spent until the chain is reset: in no run without a
      reset is a request with it let through, whatever else happens. */
  lemma {:induction false} SpentUntilReset(d: Digest, s: State, steps: seq<Step>, r: Request, h: Helpers)
    requires r.sequence <= LastSequence(s, r.sender) && ChainReset !in steps
    ensures var s' := Run(d, s, steps);
            && r.sequence <= LastSequence(s', r.sender)
            && Submit(d, s', r, h).0 == s' && Submit(d, s', r, h).1.Rejected?
  {
    if steps != [] {
      SpentUntilReset(d, s, steps[..|steps| - 1], r, h);
    }
  }

  /** The reset opens the way for a replay: the very request is refused half a minute after
      it was accepted, and accepted once more when the chain is reset in between. */
  lemma ReplayAfterReset(d: Digest, s: State, r: Request, h: Helpers, again: Helpers)
    requires Screen(d, r, h) == [] == Screen(d, r, again) && h.sequencesWork && again.sequencesWork
    requires CooldownOk(s, r, h.checkedAt) && r.sequence > LastSequence(s, r.sender) && r.sequence > 0
    requires again.checkedAt - h.recordedAt >= COOLDOWN && again.buildWorks && again.persistWorks
    requires r.senderKey != ""
    ensures var once := Submit(d, s, r, h).0;
            var reset := Next(d, once, ChainReset);
            var twice := Submit(d, reset, r, again);
            && Submit(d, once, r, again).1 == Rejected(SequenceRefused)
            && twice.1.Queued?
            && twice.0.history == once.history + [SequencesCleared, twice.0.history[|s.history| + 2]]
            && PostBy(twice.0.history, |s.history|, r.sender) && PostBy(twice.0.history, |s.history| + 2, r.sender)
            && twice.0.history[|s.history|].post.sequence == r.sequence
            && twice.0.history[|s.history| + 2].post.sequence == r.sequence
  {
  }

  /** The reply target of a queued event is the one the signature covers, except when
      a prepared request comes with an empty verified target and a body that still
      names one: then the body's is kept. */
  lemma ReplyIsVerified(d: Digest, s: State, r: Request, h: Helpers)
    requires Submit(d, s, r, h).1.Queued? && |Submit(d, s, r, h).0.outbox| > |s.outbox|
    ensures var q := Submit(d, s, r, h).0.outbox[|s.outbox|];
            q.replyTo == h.verifiedReplyTo <==> !(h.prepared && h.verifiedReplyTo == "" && r.replyTo != "")
  {
  }

  /** When the event cannot be built or persisted the sender is told that nothing was
      recorded, yet the sequence number is spent and the cooldown runs: the same message
      is refused in every run until the chain is reset, a new one for 30 s. */
  lemma FailedRecordIsSpent(d: Digest, s: State, r: Request, h: Helpers, steps: seq<Step>, retry: Helpers)
    requires Screen(d, r, h) == [] == Screen(d, r, retry) && r.senderKey != "" && r.sequence > 0
    requires CooldownOk(s, r, h.checkedAt) && h.sequencesWork && r.sequence > LastSequence(s, r.sender)
    requires !h.persistWorks && 0.0 < h.recordedAt <= retry.checkedAt && retry.sequencesWork
    requires ChainReset !in steps
    ensures var (s', outcome) := Submit(d, s, r, h);
            && outcome == Rejected(RecordFailed) && s'.store == s.store && s'.outbox == s.outbox
            && Submit(d, s', r, retry).1
               == Rejected(if retry.checkedAt - h.recordedAt < COOLDOWN then CoolingDown else SequenceRefused)
            && Submit(d, Run(d, s', steps), r, retry).1.Rejected?
  {
    SpentUntilReset(d, Submit(d, s, r, h).0, steps, r, retry);
  }

  // ------------------------------------------------------------- the service

  class GateService {
    var store: seq<Event>
    var cooldown: map<(string, string), real>
    var sequences: map<string, int>
    var outbox: seq<Event>
    ghost var history: seq<Entry>

    ghost function Snapshot(): State
      reads this
    {
      State(store, cooldown, sequences, outbox, history)
    }

    method CheckCooldown(senderKey: string, gateKey: string, now: real) returns (ok: bool)
      ensures forall r: Request :: r.senderKey == senderKey && r.gateKey == gateKey ==> ok == CooldownOk(Snapshot(), r, now)
    {
      if gateKey == "" || senderKey == "" {
        return true;
      }
      var lastPost := if (senderKey, gateKey) in cooldown then cooldown[(senderKey, gateKey)] else 0.0;
      if lastPost > 0.0 {
        var elapsed := now - lastPost;
        if elapsed < COOLDOWN {
          return false;
        }
      }
      return true;
    }

    method RecordCooldown(senderKey: string, gateKey: string, now: real)
      modifies this`cooldown
      ensures cooldown == if gateKey != "" && senderKey != "" then old(cooldown)[(senderKey, gateKey) := now] else old(cooldown)
    {
      if gateKey != "" && senderKey != "" {
        cooldown := cooldown[(senderKey, gateKey) := now];
      }
    }

    method ValidateAndSetSequence(sender: string, sequence: int) returns (ok: bool)
      modifies this`sequences
      ensures ok == (sequence > 0 && sequence > LastSequence(old(Snapshot()), sender))
      ensures sequences == if ok then old(sequences)[sender := sequence] else old(sequences)
    {
      if sequence <= 0 {
        return false;
      }
      var last := if sender in sequences then sequences[sender] else 0;
      if sequence <= last {
        return false;
      }
      sequences := sequences[sender := sequence];
      return true;
    }

    /** What resetting the chain does to the gate side: its table of sequences goes too. */
    method ResetChain(d: Digest)
      modifies this`sequences, this`history
      ensures Snapshot() == Next(d, old(Snapshot()), ChainReset)
    {
      sequences := map[];
      history := history + [SequencesCleared];
    }

    method SubmitEnvelope(d: Digest, r: Request, h: Helpers) returns (outcome: Outcome)
      modifies this
      ensures (Snapshot(), outcome) == Submit(d, old(Snapshot()), r, h)
    {
      var screened := Screen(d, r, h);
      if screened != [] {
        return Rejected(screened[0]);
      }
      var cool := CheckCooldown(r.senderKey, r.gateKey, h.checkedAt);
      if !cool {
        return Rejected(CoolingDown);
      }
      if !h.sequencesWork {
        return Rejected(RecordFailed);
      }
      var advanced := ValidateAndSetSequence(r.sender, r.sequence);
      if !advanced {
        return Rejected(SequenceRefused);
      }
      RecordCooldown(r.senderKey, r.gateKey, h.recordedAt);
      history := history + [Posted(Post(r.sender, r.senderKey, r.gateKey, r.sequence, h.checkedAt, h.recordedAt))];
      if !h.buildWorks {
        return Rejected(RecordFailed);
      }
      var event := BuildEvent(r, h);
      if !h.persistWorks {
        return Rejected(RecordFailed);
      }
      var (stored, id) := Append(store, event, h.remembersReplay);
      store := stored;
      outbox := Enqueue(outbox, event.(eventId := id));
      return Queued(id);
    }
  }
}
