/** Queueing a signed direct message for private delivery.
    (backend/main.py, _apply_legacy_dm_signature_compat, _dm_send_from_signed_request;
    backend/services/mesh/mesh_private_outbox.py, enqueue and the mark methods;
    backend/services/mesh/mesh_privacy_policy.py and mesh_private_release_worker.py,
    the tier at which the worker delivers) */
module DmSend {
  const LEGACY := "dm1"
  const LEGACY_SIGNATURE := "legacy_dm_signature_compat"
  const MAX_SKEW := 604800

  datatype Option<T> = None | Some(value: T)

  predicate Private(tier: string) { "private_" <= tier }

  /** The tiers in rising order; anything else counts as the lowest. */
  function TierRank(tier: string): nat {
    if tier == "private_strong" then 3
    else if tier == "private_transitional" then 2
    else if tier == "private_control_only" then 1
    else 0
  }

  const RELEASE_FLOOR := "private_strong"

  /** The worker delivers direct messages only at the floor of their lane. */
  predicate ReleaseAllowed(tier: string) { TierRank(tier) >= TierRank(RELEASE_FLOOR) }

  lemma FloorIsPrivate(tier: string)
    ensures ReleaseAllowed(tier) <==> tier == RELEASE_FLOOR
    ensures ReleaseAllowed(tier) ==> Private(tier)
  {
  }

  predicate IsHex(c: char) { '0' <= c <= '9' || 'a' <= c <= 'f' }

  predicate IsSalt(s: string) { |s| == 32 && forall i :: 0 <= i < 32 ==> IsHex(s[i]) }

  /** Sixteen random bytes in hexadecimal. */
  type Salt = s: string | IsSalt(s) witness "00000000000000000000000000000000"

  /** The fields of the body, stripped, and lower-cased where the endpoint does so. */
  datatype Request = Request(
    senderId: string, tokenHash: string, recipientId: string, deliveryClass: string, recipientToken: string,
    ciphertext: string, format: string, welcome: string, seal: string, salt: string, msgId: string, timestamp: int)

  /** What the surroundings answer while one request is handled. */
  datatype Helpers = Helpers(
    tier: string, upgradePending: bool, signature: string, now: int, firstContactOk: bool, requireSeal: bool,
    nonceOk: bool, sequenceOk: bool, blocked: bool, fresh32: Salt, saves: bool)

  datatype Release = Release(
    senderId: string, tokenHash: string, recipientId: string, deliveryClass: string, recipientToken: string,
    ciphertext: string, format: string, welcome: string, msgId: string, timestamp: int, seal: string, salt: string)

  datatype Reason =
    | LegacyBlocked | MissingField | BadTimestamp | BadClass | Unverified | SealRequired | TokenRequired
    | SenderTokenRequired | NonceRefused | SequenceRefused | SenderBlocked | BadSalt

  // ------------------------------------------------------ the legacy downgrade

  datatype Compat = Compat(ok: bool, status: int, format: string, welcome: string, seal: string, salt: string)

  function SignatureCompat(r: Request, h: Helpers): Compat {
    if h.signature != LEGACY_SIGNATURE then Compat(true, 0, r.format, r.welcome, r.seal, r.salt)
    else
      var stripped := Compat(true, 0, LEGACY, "", "", "");
      if Private(h.tier) && stripped.format == LEGACY then stripped.(ok := false, status := 403)
      else if Private(h.tier) && r.deliveryClass == "shared" && h.requireSeal then stripped.(ok := false)
      else stripped
  }

  // ---------------------------------------------------------------- screening

  datatype Prepared = Refuse(reason: Reason) | Ready(release: Release)

  function Skew(r: Request, h: Helpers): int {
    if r.timestamp < h.now then h.now - r.timestamp else r.timestamp - h.now
  }

  /** The checks on the body as it was sent. */
  function Screen(r: Request, h: Helpers): Option<Reason> {
    if Private(h.tier) && r.format == LEGACY then Some(LegacyBlocked)
    else if r.senderId == "" || r.recipientId == "" || r.ciphertext == "" || r.msgId == "" || r.timestamp == 0
      then Some(MissingField)
    else if Skew(r, h) > MAX_SKEW then Some(BadTimestamp)
    else if r.deliveryClass != "request" && r.deliveryClass != "shared" then Some(BadClass)
    else if r.deliveryClass == "request" && !h.firstContactOk then Some(Unverified)
    else if Private(h.tier) && r.deliveryClass == "shared" && h.requireSeal && r.seal == "" then Some(SealRequired)
    else if r.deliveryClass == "shared" && r.recipientToken == "" then Some(TokenRequired)
    else if r.tokenHash == "" then Some(SenderTokenRequired)
    else None
  }

  function Prepare(r: Request, h: Helpers): Prepared {
    var screened := Screen(r, h);
    var c := SignatureCompat(r, h);
    if screened.Some? then Refuse(screened.value)
    else if !c.ok then Refuse(if c.status > 0 then LegacyBlocked else SealRequired)
    else if Private(h.tier) && c.format == LEGACY then Refuse(LegacyBlocked)
    else if !h.nonceOk then Refuse(NonceRefused)
    else if !h.sequenceOk then Refuse(SequenceRefused)
    else if h.blocked then Refuse(SenderBlocked)
    else if c.seal != "" && c.salt != "" && !IsSalt(c.salt) then Refuse(BadSalt)
    else
      var salt := if c.seal != "" && c.salt == "" then h.fresh32 else c.salt;
      Ready(Release(r.senderId, r.tokenHash, r.recipientId, r.deliveryClass,
                    if r.deliveryClass == "shared" then r.recipientToken else "",
                    r.ciphertext, c.format, c.welcome, r.msgId, r.timestamp, c.seal, salt))
  }

  /** What may be queued while the transport is at the given tier. */
  predicate Sound(tier: string, p: Release) { (Private(tier) ==> p.format != LEGACY) && Complete(p) }

  predicate Complete(p: Release) {
    && (p.seal != "" ==> IsSalt(p.salt))
    && p.msgId != "" && p.senderId != "" && p.recipientId != "" && p.ciphertext != "" && p.tokenHash != ""
    && (p.deliveryClass == "shared" <==> p.recipientToken != "")
  }

  /** Whatever the helpers answer, a release that is ready may be queued; it carries the
      sender's own message; and it is in the legacy format exactly when the body asked
      for it or only the legacy signature held. */
  lemma PreparedIsSound(r: Request, h: Helpers)
    requires Prepare(r, h).Ready?
    ensures var p := Prepare(r, h).release;
      && Sound(h.tier, p)
      && p.ciphertext == r.ciphertext && p.msgId == r.msgId && p.senderId == r.senderId && p.recipientId == r.recipientId
      && (p.format == LEGACY <==> r.format == LEGACY || h.signature == LEGACY_SIGNATURE)
      && (h.signature == LEGACY_SIGNATURE ==> p.seal == "" && p.salt == "" && p.welcome == "")
      && (h.signature != LEGACY_SIGNATURE ==> p.format == r.format && p.seal == r.seal && p.welcome == r.welcome)
  {
  }

  /** A downgraded signature never gets through on a private tier, and then always with
      the legacy answer: the second check of the downgrade and the format check after it
      cannot decide anything. */
  lemma DowngradeOnPrivate(r: Request, h: Helpers)
    requires Private(h.tier) && h.signature == LEGACY_SIGNATURE
    ensures Prepare(r, h) == Refuse(if Screen(r, h).Some? then Screen(r, h).value else LegacyBlocked)
    ensures !SignatureCompat(r, h).ok && SignatureCompat(r, h).status == 403
  {
  }

  // ---------------------------------------------------------------- the outbox

  /** An item of the outbox, filed under the message id of its payload. The tier is
      the latest one reported. */
  datatype Item = Item(payload: Release, tier: string, delivered: bool)

  predicate HasKey(box: seq<Item>, msgId: string) {
    exists i :: 0 <= i < |box| && box[i].payload.msgId == msgId
  }

  function Find(box: seq<Item>, msgId: string): (i: nat)
    requires HasKey(box, msgId)
    ensures i < |box| && box[i].payload.msgId == msgId
  {
    if box[|box| - 1].payload.msgId == msgId then |box| - 1
    else
      var front := box[..|box| - 1];
      assert HasKey(front, msgId) by {
        var i :| 0 <= i < |box| && box[i].payload.msgId == msgId;
        assert front[i].payload.msgId == msgId;
      }
      Find(front, msgId)
  }

  /** A message id that is already filed keeps its item; only the tier is reported anew. */
  function Enqueue(box: seq<Item>, p: Release, tier: string): (r: seq<Item>)
    ensures HasKey(r, p.msgId)
  {
    if HasKey(box, p.msgId) then
      var i := Find(box, p.msgId);
      if box[i].delivered then box
      else
        var r := box[i := box[i].(tier := tier)];
        assert r[i].payload.msgId == p.msgId;
        r
    else
      var r := box + [Item(p, tier, false)];
      assert r[|box|].payload.msgId == p.msgId;
      r
  }

  datatype Outcome = Refused(reason: Reason) | Failed | Queued(transportPending: bool)

  function Send(box: seq<Item>, r: Request, h: Helpers): (seq<Item>, Outcome) {
    match Prepare(r, h)
    case Refuse(reason) => (box, Refused(reason))
    case Ready(p) => if h.saves then (Enqueue(box, p, h.tier), Queued(h.upgradePending)) else (box, Failed)
  }

  // ------------------------------------------------------------------- runs

  /** Requests, and the release worker reporting a tier for a pending item or delivering
      it. The worker looks at the tier and not at the payload. */
  datatype Step =
    | Submit(request: Request, helpers: Helpers)
    | Report(item: nat, tier: string)
    | Deliver(item: nat, tier: string)

  function Next(box: seq<Item>, step: Step): seq<Item> {
    match step
    case Submit(r, h) => Send(box, r, h).0
    case Report(i, tier) => if i < |box| && !box[i].delivered then box[i := box[i].(tier := tier)] else box
    case Deliver(i, tier) =>
      if i < |box| && !box[i].delivered && ReleaseAllowed(tier)
      then box[i := box[i].(tier := tier, delivered := true)] else box
  }

  function Run(steps: seq<Step>): seq<Item> {
    if steps == [] then [] else Next(Run(steps[..|steps| - 1]), steps[|steps| - 1])
  }

  predicate Inv(box: seq<Item>) {
    && (forall i :: 0 <= i < |box| ==> Complete(box[i].payload))
    && (forall i, j :: 0 <= i < j < |box| ==> box[i].payload.msgId != box[j].payload.msgId)
  }

  lemma EnqueueKeeps(box: seq<Item>, p: Release, tier: string)
    requires Inv(box) && Complete(p)
    ensures Inv(Enqueue(box, p, tier))
  {
  }

  /** In every run every item is complete, a sealed one with its salt, and no message id
      is filed twice. */
  lemma {:induction false} RunKeeps(steps: seq<Step>)
    ensures Inv(Run(steps))
  {
    if steps != [] {
      var box, step := Run(steps[..|steps| - 1]), steps[|steps| - 1];
      RunKeeps(steps[..|steps| - 1]);
      if step.Submit? && Prepare(step.request, step.helpers).Ready? {
        PreparedIsSound(step.request, step.helpers);
        EnqueueKeeps(box, Prepare(step.request, step.helpers).release, step.helpers.tier);
      }
    }
  }

  /** A request that was made into this payload. */
  predicate Made(step: Step, p: Release) {
    step.Submit? && Prepare(step.request, step.helpers) == Ready(p)
  }

  /** In every run the payload of every item stems from a request of the run; if it is in
      the legacy format that request came in on a tier that was not private. */
  lemma {:induction false} RunOrigin(steps: seq<Step>, i: nat) returns (j: nat)
    requires i < |Run(steps)|
    ensures j < |steps| && Made(steps[j], Run(steps)[i].payload)
    ensures Run(steps)[i].payload.format == LEGACY ==> !Private(steps[j].helpers.tier)
  {
    var front, step := steps[..|steps| - 1], steps[|steps| - 1];
    var box := Run(front);
    if i < |box| {
      j := RunOrigin(front, i);
      assert Run(steps)[i].payload == box[i].payload;
    } else {
      j := |steps| - 1;
    }
    PreparedIsSound(steps[j].request, steps[j].helpers);
  }

  /** In every run: what is delivered is delivered at the floor and stays as it was, so a
      delivered legacy message always stands under a private tier. */
  lemma {:induction false} RunDelivers(steps: seq<Step>, i: nat)
    requires i < |Run(steps)| && Run(steps)[i].delivered
    ensures Run(steps)[i].tier == RELEASE_FLOOR
    ensures Agrees(Run(steps)[i]) <==> Run(steps)[i].payload.format != LEGACY
  {
    var front, step := steps[..|steps| - 1], steps[|steps| - 1];
    var box := Run(front);
    FloorIsPrivate(RELEASE_FLOOR);
    if i < |box| && box[i].delivered {
      RunDelivers(front, i);
      assert Run(steps)[i] == box[i];
    } else {
      assert step.Deliver? && step.item == i;
      FloorIsPrivate(step.tier);
    }
  }

  /** An accepted message is in the outbox under its id exactly when the id was new, or
      was filed before with the very same payload; otherwise the sender is told that it
      is queued and the outbox still holds the earlier payload, whoever sent that. */
  lemma AcceptedIsFiled(box: seq<Item>, r: Request, h: Helpers)
    requires Inv(box) && Send(box, r, h).1.Queued?
    ensures var box', p := Send(box, r, h).0, Prepare(r, h).release;
      Holds(box', p) <==> !HasKey(box, r.msgId) || Holds(box, p)
  {
    var box', p := Send(box, r, h).0, Prepare(r, h).release;
    PreparedIsSound(r, h);
    if !HasKey(box, r.msgId) {
      assert box'[|box|].payload == p;
    } else {
      assert |box'| == |box|;
      assert forall i :: 0 <= i < |box| ==> box'[i].payload == box[i].payload;
      if Holds(box, p) {
        var i :| 0 <= i < |box| && box[i].payload == p;
        assert box'[i].payload == p;
      }
    }
  }

  predicate Holds(box: seq<Item>, p: Release) { exists i :: 0 <= i < |box| && box[i].payload == p }

  // ------------------------------------------------ the tier that is reported

  predicate Agrees(item: Item) { Private(item.tier) ==> item.payload.format != LEGACY }

  predicate AllAgree(box: seq<Item>) { forall i :: 0 <= i < |box| ==> Agrees(box[i]) }

  /** A pending item of the id holds a legacy payload. */
  predicate LegacyWaits(box: seq<Item>, msgId: string) {
    HasKey(box, msgId) && !box[Find(box, msgId)].delivered && box[Find(box, msgId)].payload.format == LEGACY
  }

  /** What must not happen to a legacy message: another request with its id on a private
      tier while it waits, a private tier reported for it, and its delivery. */
  predicate Safe(box: seq<Item>, step: Step) {
    match step
    case Submit(r, h) => Send(box, r, h).1.Queued? && Private(h.tier) ==> !LegacyWaits(box, r.msgId)
    case Report(i, tier) => i < |box| && !box[i].delivered && Private(tier) ==> box[i].payload.format != LEGACY
    case Deliver(i, tier) =>
      i < |box| && !box[i].delivered && ReleaseAllowed(tier) ==> box[i].payload.format != LEGACY
  }

  lemma SubmitAgrees(box: seq<Item>, r: Request, h: Helpers)
    requires AllAgree(box) && Send(box, r, h).1.Queued?
    ensures AllAgree(Send(box, r, h).0) <==> !(Private(h.tier) && LegacyWaits(box, r.msgId))
  {
    var box' := Send(box, r, h).0;
    PreparedIsSound(r, h);
    if HasKey(box, r.msgId) {
      var k := Find(box, r.msgId);
      if box[k].delivered {
        assert box' == box;
      } else {
        assert box' == box[k := box[k].(tier := h.tier)];
        OneChanged(box, k, box'[k]);
      }
    } else {
      assert Agrees(box'[|box|]);
      assert forall i :: 0 <= i < |box| ==> Agrees(box[i]) && box'[i] == box[i];
    }
  }

  lemma OneChanged(box: seq<Item>, k: nat, item: Item)
    requires AllAgree(box) && k < |box|
    ensures AllAgree(box[k := item]) <==> Agrees(item)
  {
    var box' := box[k := item];
    assert box'[k] == item;
    assert forall i :: 0 <= i < |box| && i != k ==> Agrees(box[i]) && box'[i] == box[i];
  }

  /** One step, of a request or of the worker, leaves every item in agreement with its
      tier exactly when it is safe. */
  lemma StepAgrees(box: seq<Item>, step: Step)
    requires AllAgree(box)
    ensures AllAgree(Next(box, step)) <==> Safe(box, step)
  {
    match step
    case Submit(r, h) =>
      if Send(box, r, h).1.Queued? {
        SubmitAgrees(box, r, h);
      }
    case Report(i, tier) =>
      if i < |box| && !box[i].delivered {
        OneChanged(box, i, box[i].(tier := tier));
      }
    case Deliver(i, tier) =>
      if i < |box| && !box[i].delivered && ReleaseAllowed(tier) {
        FloorIsPrivate(tier);
        OneChanged(box, i, box[i].(tier := tier, delivered := true));
      }
  }

  predicate AlwaysAgrees(steps: seq<Step>) {
    AllAgree(Run(steps)) && (steps == [] || AlwaysAgrees(steps[..|steps| - 1]))
  }

  predicate AlwaysSafe(steps: seq<Step>) {
    steps == []
    || (AlwaysSafe(steps[..|steps| - 1]) && Safe(Run(steps[..|steps| - 1]), steps[|steps| - 1]))
  }

  /** Over every run: no legacy message ever stands under a private tier exactly when
      every step was safe. */
  lemma {:induction false} RunAgreesExactly(steps: seq<Step>)
    ensures AlwaysAgrees(steps) <==> AlwaysSafe(steps)
  {
    if steps != [] {
      RunAgreesExactly(steps[..|steps| - 1]);
      if AlwaysAgrees(steps[..|steps| - 1]) {
        StepAgrees(Run(steps[..|steps| - 1]), steps[|steps| - 1]);
      }
    }
  }

  /** So a run in which the worker delivers a legacy message is never such a run. */
  lemma {:induction false} LegacyDeliveredDisagrees(steps: seq<Step>, i: nat)
    requires i < |Run(steps)| && Run(steps)[i].delivered && Run(steps)[i].payload.format == LEGACY
    ensures !AlwaysAgrees(steps)
  {
    RunDelivers(steps, i);
    assert !Agrees(Run(steps)[i]);
  }

  function Sample(format: string): Request {
    Request("alice", "token", "bob", "request", "", "c", format, "", "", "", "m", 1)
  }

  function At(tier: string): Helpers {
    Helpers(tier, false, "ok", 1, true, false, true, true, false, "00000000000000000000000000000000", true)
  }

  lemma RunTwo(first: Step, second: Step)
    ensures Run([first, second]) == Next(Next([], first), second)
  {
    var steps := [first, second];
    assert steps[..1] == [first] && [first][..0] == [];
    assert Run([first]) == Next([], first);
  }

  lemma FirstFiled(public: string)
    requires !Private(public)
    ensures Next([], Submit(Sample(LEGACY), At(public)))
         == [Item(Prepare(Sample(LEGACY), At(public)).release, public, false)]
    ensures Prepare(Sample(LEGACY), At(public)).release.format == LEGACY
    ensures Prepare(Sample(LEGACY), At(public)).release.msgId == "m"
  {
    assert Prepare(Sample(LEGACY), At(public)).Ready?;
    PreparedIsSound(Sample(LEGACY), At(public));
    assert !HasKey([], "m");
    var item := Item(Prepare(Sample(LEGACY), At(public)).release, public, false);
    assert [] + [item] == [item];
  }

  /** The ordinary way: a legacy message queued on a public tier waits for the private
      lane and is delivered there. */
  lemma LegacyDelivered(public: string)
    requires !Private(public)
    ensures var box := Run([Submit(Sample(LEGACY), At(public)), Deliver(0, RELEASE_FLOOR)]);
      |box| == 1 && box[0].delivered && box[0].tier == RELEASE_FLOOR && box[0].payload.format == LEGACY && !AllAgree(box)
  {
    RunTwo(Submit(Sample(LEGACY), At(public)), Deliver(0, RELEASE_FLOOR));
    FirstFiled(public);
    FloorIsPrivate(RELEASE_FLOOR);
    var box := Run([Submit(Sample(LEGACY), At(public)), Deliver(0, RELEASE_FLOOR)]);
    assert !Agrees(box[0]);
  }

  /** Two requests with one message id: the first in the legacy format on a public tier,
      the second on a private tier. The outbox ends with a legacy payload under the
      private tier, and the second message is not in it. */
  lemma LegacyUnderPrivate(public: string, private_: string)
    requires !Private(public) && Private(private_)
    ensures var box := Run([Submit(Sample(LEGACY), At(public)), Submit(Sample("mls1"), At(private_))]);
      |box| == 1 && box[0].tier == private_ && box[0].payload.format == LEGACY
  {
    var second := Submit(Sample("mls1"), At(private_));
    RunTwo(Submit(Sample(LEGACY), At(public)), second);
    FirstFiled(public);
    assert Prepare(second.request, second.helpers).Ready?;
    PreparedIsSound(second.request, second.helpers);
    var box := Next([], Submit(Sample(LEGACY), At(public)));
    assert box[0].payload.msgId == "m" && Find(box, "m") == 0;
  }

  // ------------------------------------------------------------- the endpoint

  class DmService {
    var outbox: seq<Item>

    method EnqueueItem(p: Release, tier: string)
      modifies this
      ensures outbox == Enqueue(old(outbox), p, tier)
    {
      if HasKey(outbox, p.msgId) {
        var i := Find(outbox, p.msgId);
        if !outbox[i].delivered {
          outbox := outbox[i := outbox[i].(tier := tier)];
        }
      } else {
        outbox := outbox + [Item(p, tier, false)];
      }
    }

    method SendSigned(r: Request, h: Helpers) returns (outcome: Outcome)
      modifies this
      ensures (outbox, outcome) == Send(old(outbox), r, h)
    {
      if Private(h.tier) && r.format == LEGACY {
        return Refused(LegacyBlocked);
      }
      var screened := Screen(r, h);
      if screened.Some? {
        return Refused(screened.value);
      }
      var c := SignatureCompat(r, h);
      if !c.ok {
        return Refused(if c.status > 0 then LegacyBlocked else SealRequired);
      }
      var format, welcome, seal, salt := c.format, c.welcome, c.seal, c.salt;
      if Private(h.tier) && format == LEGACY {
        return Refused(LegacyBlocked);
      }
      if !h.nonceOk {
        return Refused(NonceRefused);
      }
      if !h.sequenceOk {
        return Refused(SequenceRefused);
      }
      if h.blocked {
        return Refused(SenderBlocked);
      }
      if seal != "" {
        if salt != "" {
          if !IsSalt(salt) {
            return Refused(BadSalt);
          }
        } else {
          salt := h.fresh32;
        }
      }
      var p := Release(r.senderId, r.tokenHash, r.recipientId, r.deliveryClass,
                       if r.deliveryClass == "shared" then r.recipientToken else "",
                       r.ciphertext, format, welcome, r.msgId, r.timestamp, seal, salt);
      if !h.saves {
        return Failed;
      }
      EnqueueItem(p, h.tier);
      return Queued(h.upgradePending);
    }
  }
}
