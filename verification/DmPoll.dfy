/** Polling two destructive mailboxes under one batch budget.
    (backend/main.py, _dm_poll_secure_from_signed_request and dm_poll;
     backend/services/mesh/mesh_dm_relay.py, _collect_from_keys;
     backend/services/mesh/mesh_rns.py, collect_private_dm) */
module DmPoll {
  import opened DmMerge

  const BATCH_LIMIT := 8
  const TOKEN_LIMIT := 32

  type Boxes = map<string, seq<Message>>

  // ---------------------------------------------------------- the collector

  function Box(boxes: Boxes, key: string): seq<Message> {
    if key in boxes then boxes[key] else []
  }

  function All(boxes: Boxes, keys: seq<string>): seq<Message> {
    if keys == [] then [] else All(boxes, keys[..|keys| - 1]) + Box(boxes, keys[|keys| - 1])
  }

  predicate HasMessage(ms: seq<Message>, id: string) {
    exists i :: 0 <= i < |ms| && ms[i].msgId == id
  }

  /** The first copy of every id; the direct lane skips messages without an id. */
  function FirstCopies(ms: seq<Message>, skipBlank: bool): seq<Message> {
    if ms == [] then []
    else
      var first, m := FirstCopies(ms[..|ms| - 1], skipBlank), ms[|ms| - 1];
      if (skipBlank && m.msgId == "") || HasMessage(first, m.msgId) then first else first + [m]
  }

  function Ids(ms: seq<Message>): set<string> {
    set m | m in ms :: m.msgId
  }

  /** The ids waiting under some keys. */
  function Pending(boxes: Boxes, keys: seq<string>, skipBlank: bool): set<string> {
    Ids(All(boxes, keys)) - if skipBlank then {""} else {}
  }

  function Without(ms: seq<Message>, ids: set<string>): seq<Message> {
    if ms == [] then []
    else Without(ms[..|ms| - 1], ids) + if ms[|ms| - 1].msgId in ids then [] else [ms[|ms| - 1]]
  }

  function Remaining(boxes: Boxes, keys: seq<string>, taken: set<string>): Boxes {
    map k | k in boxes && (k in keys ==> Without(boxes[k], taken) != [])
      :: if k in keys then Without(boxes[k], taken) else boxes[k]
  }

  datatype Collected = Collected(boxes: Boxes, messages: seq<Message>, more: bool)

  /** Empty the mailboxes, keep the first copies in time order, and put back all
      that does not fit the limit; a limit of 0 means none. */
  function Collect(boxes: Boxes, keys: seq<string>, limit: nat, skipBlank: bool): Collected {
    var sorted := SortByTime(FirstCopies(All(boxes, keys), skipBlank));
    if limit > 0 && |sorted| > limit then
      Collected(Remaining(boxes, keys, Ids(sorted[..limit])), sorted[..limit], true)
    else Collected(boxes - (set k | k in keys), sorted, false)
  }

  predicate AllDistinct(ms: seq<Message>) {
    forall i, j :: 0 <= i < j < |ms| ==> ms[i].msgId != ms[j].msgId
  }

  lemma {:induction false} FirstCopiesSpec(ms: seq<Message>, skipBlank: bool)
    ensures var first := FirstCopies(ms, skipBlank);
            && AllDistinct(first)
            && Ids(first) == Ids(ms) - (if skipBlank then {""} else {})
            && (forall m :: m in first ==> m in ms)
  {
    if ms != [] {
      var front, m := ms[..|ms| - 1], ms[|ms| - 1];
      FirstCopiesSpec(front, skipBlank);
      assert ms == front + [m];
      var first := FirstCopies(front, skipBlank);
      assert HasMessage(first, m.msgId) <==> m.msgId in Ids(first);
      assert Ids(front + [m]) == Ids(front) + {m.msgId};
      assert Ids(first + [m]) == Ids(first) + {m.msgId};
    }
  }

  lemma {:induction false} DistinctCount(ms: seq<Message>)
    requires AllDistinct(ms)
    ensures |Ids(ms)| == |ms|
  {
    if ms != [] {
      var front, m := ms[..|ms| - 1], ms[|ms| - 1];
      DistinctCount(front);
      assert ms == front + [m];
      assert Ids(ms) == Ids(front) + {m.msgId};
      assert m.msgId !in Ids(front) by {
        assert forall x :: x in front ==> x.msgId != m.msgId;
      }
    }
  }

  lemma SortedIds(ms: seq<Message>)
    requires AllDistinct(ms)
    ensures Ids(SortByTime(ms)) == Ids(ms) && AllDistinct(SortByTime(ms)) && |SortByTime(ms)| == |ms|
  {
    SortKeeps(ms);
    var out := SortByTime(ms);
    forall m ensures m in out <==> m in ms {
      assert m in multiset(out) <==> m in multiset(ms);
    }
    DistinctCount(ms);
    CountDistinct(out);
  }

  /** As many ids as messages means that no id repeats. */
  lemma {:induction false} CountDistinct(ms: seq<Message>)
    ensures |Ids(ms)| <= |ms|
    ensures |Ids(ms)| == |ms| ==> AllDistinct(ms)
  {
    if ms != [] {
      var front, m := ms[..|ms| - 1], ms[|ms| - 1];
      CountDistinct(front);
      IdsSnoc(front, m);
      assert ms == front + [m];
      if |Ids(ms)| == |ms| {
        assert m.msgId !in Ids(front);
        DistinctSnoc(front, m);
      }
    }
  }

  lemma IdsSnoc(front: seq<Message>, m: Message)
    ensures Ids(front + [m]) == Ids(front) + {m.msgId}
  {
    assert m in front + [m] && forall x :: x in front ==> x in front + [m];
  }

  lemma DistinctSnoc(front: seq<Message>, m: Message)
    requires AllDistinct(front) && m.msgId !in Ids(front)
    ensures AllDistinct(front + [m])
  {
    forall i | 0 <= i < |front|
      ensures front[i].msgId != m.msgId
    {
      assert front[i] in front;
    }
  }

  lemma {:induction false} InAll(boxes: Boxes, keys: seq<string>, m: Message)
    ensures m in All(boxes, keys) <==> exists k :: k in keys && m in Box(boxes, k)
  {
    if keys != [] {
      var front, last := keys[..|keys| - 1], keys[|keys| - 1];
      InAll(boxes, front, m);
      assert keys == front + [last];
    }
  }

  lemma {:induction false} InWithout(ms: seq<Message>, ids: set<string>, m: Message)
    ensures m in Without(ms, ids) <==> m in ms && m.msgId !in ids
  {
    if ms != [] {
      InWithout(ms[..|ms| - 1], ids, m);
      assert ms == ms[..|ms| - 1] + [ms[|ms| - 1]];
    }
  }

  lemma RemainingPending(boxes: Boxes, keys: seq<string>, taken: set<string>)
    ensures Ids(All(Remaining(boxes, keys, taken), keys)) == Ids(All(boxes, keys)) - taken
  {
    var boxes' := Remaining(boxes, keys, taken);
    forall m ensures m in All(boxes', keys) <==> m in All(boxes, keys) && m.msgId !in taken {
      InAll(boxes, keys, m);
      InAll(boxes', keys, m);
      forall k | k in keys ensures m in Box(boxes', k) <==> m in Box(boxes, k) && m.msgId !in taken {
        InWithout(Box(boxes, k), taken, m);
      }
    }
  }

  lemma EmptiedPending(boxes: Boxes, keys: seq<string>)
    ensures All(boxes - (set k | k in keys), keys) == []
  {
    var boxes' := boxes - (set k | k in keys);
    if All(boxes', keys) != [] {
      InAll(boxes', keys, All(boxes', keys)[0]);
    }
  }

  /** A collect returns min(limit, waiting) distinct ids, leaves exactly the others
      waiting, and says truthfully whether any are left. */
  lemma CollectSpec(boxes: Boxes, keys: seq<string>, limit: nat, skipBlank: bool)
    requires limit > 0
    ensures var r := Collect(boxes, keys, limit, skipBlank);
            var waiting := Pending(boxes, keys, skipBlank);
            && AllDistinct(r.messages) && Ids(r.messages) <= waiting
            && Pending(r.boxes, keys, skipBlank) == waiting - Ids(r.messages)
            && (r.more <==> |waiting| > limit)
            && |r.messages| == (if r.more then limit else |waiting|)
  {
    var sorted := Candidates(boxes, keys, skipBlank);
    if |sorted| > limit {
      var kept := sorted[..limit];
      PrefixDistinct(sorted, limit);
      RemainingPending(boxes, keys, Ids(kept));
    } else {
      EmptiedPending(boxes, keys);
    }
  }

  lemma Candidates(boxes: Boxes, keys: seq<string>, skipBlank: bool) returns (sorted: seq<Message>)
    ensures sorted == SortByTime(FirstCopies(All(boxes, keys), skipBlank))
    ensures AllDistinct(sorted) && Ids(sorted) == Pending(boxes, keys, skipBlank)
    ensures |sorted| == |Pending(boxes, keys, skipBlank)|
  {
    var first := FirstCopies(All(boxes, keys), skipBlank);
    FirstCopiesSpec(All(boxes, keys), skipBlank);
    DistinctCount(first);
    SortedIds(first);
    sorted := SortByTime(first);
  }

  lemma PrefixDistinct(ms: seq<Message>, n: nat)
    requires AllDistinct(ms) && n <= |ms|
    ensures AllDistinct(ms[..n]) && Ids(ms[..n]) <= Ids(ms)
  {
    assert forall m :: m in ms[..n] ==> m in ms;
  }

  /** No message is lost: it stays where it was, or its id is handed out. The direct
      lane alone drops messages without an id. Other mailboxes are left alone. */
  lemma CollectKeeps(boxes: Boxes, keys: seq<string>, limit: nat, skipBlank: bool, key: string, m: Message)
    requires m in Box(boxes, key)
    ensures var r := Collect(boxes, keys, limit, skipBlank);
            && (m in Box(r.boxes, key) || m.msgId in Ids(r.messages) || (skipBlank && m.msgId == ""))
            && (key !in keys ==> m in Box(r.boxes, key))
  {
    var sorted := Candidates(boxes, keys, skipBlank);
    if key in keys {
      InAll(boxes, keys, m);
      if limit > 0 && |sorted| > limit {
        InWithout(boxes[key], Ids(sorted[..limit]), m);
      }
    }
  }

  lemma CollectEmpties(boxes: Boxes, keys: seq<string>, limit: nat, skipBlank: bool, key: string)
    ensures var r := Collect(boxes, keys, limit, skipBlank);
            && (!r.more && key in keys ==> Box(r.boxes, key) == [])
            && |Box(r.boxes, key)| <= |Box(boxes, key)|
  {
    var sorted := SortByTime(FirstCopies(All(boxes, keys), skipBlank));
    if limit > 0 && |sorted| > limit && key in boxes {
      WithoutShrinks(boxes[key], Ids(sorted[..limit]));
    }
  }

  lemma {:induction false} WithoutShrinks(ms: seq<Message>, ids: set<string>)
    ensures |Without(ms, ids)| <= |ms|
  {
    if ms != [] {
      WithoutShrinks(ms[..|ms| - 1], ids);
    }
  }

  predicate DistinctKeys(keys: seq<string>) {
    forall i, j :: 0 <= i < j < |keys| ==> keys[i] != keys[j]
  }

  lemma CollectedBoxes(before: Boxes, keys: seq<string>, limit: nat, skipBlank: bool, after: Boxes)
    requires var sorted := SortByTime(FirstCopies(All(before, keys), skipBlank));
             if limit > 0 && |sorted| > limit then
               var taken := Ids(sorted[..limit]);
               && (forall k :: k in after <==> k in before && (k in keys ==> Without(before[k], taken) != []))
               && (forall k :: k in after ==> after[k] == if k in keys then Without(before[k], taken) else before[k])
             else
               && (forall k :: k in after <==> k in before && k !in keys)
               && (forall k :: k in after ==> after[k] == before[k])
    ensures after == Collect(before, keys, limit, skipBlank).boxes
  {
  }

  function Others(boxes: Boxes, keys: seq<string>): Boxes {
    if keys == [] then boxes else Others(boxes, keys[..|keys| - 1]) - {keys[|keys| - 1]}
  }

  function Taken(boxes: Boxes, keys: seq<string>): Boxes {
    if keys == [] then map[]
    else Taken(boxes, keys[..|keys| - 1])[keys[|keys| - 1] := Box(boxes, keys[|keys| - 1])]
  }

  lemma {:induction false} OthersSpec(boxes: Boxes, keys: seq<string>, k: string)
    ensures k in Others(boxes, keys) <==> k in boxes && k !in keys
    ensures k in Others(boxes, keys) ==> Others(boxes, keys)[k] == boxes[k]
    ensures k in Taken(boxes, keys) <==> k in keys
    ensures k in keys ==> Taken(boxes, keys)[k] == Box(boxes, k)
  {
    if keys != [] {
      OthersSpec(boxes, keys[..|keys| - 1], k);
      assert keys == keys[..|keys| - 1] + [keys[|keys| - 1]];
    }
  }

  lemma OthersAll(boxes: Boxes, keys: seq<string>)
    ensures forall k :: k in Others(boxes, keys) <==> k in boxes && k !in keys
    ensures forall k :: k in Others(boxes, keys) ==> Others(boxes, keys)[k] == boxes[k]
    ensures forall k :: k in Taken(boxes, keys) <==> k in keys
    ensures forall k :: k in keys ==> Taken(boxes, keys)[k] == Box(boxes, k)
  {
    forall k
      ensures k in Others(boxes, keys) <==> k in boxes && k !in keys
      ensures k in Others(boxes, keys) ==> Others(boxes, keys)[k] == boxes[k]
      ensures k in Taken(boxes, keys) <==> k in keys
      ensures k in keys ==> Taken(boxes, keys)[k] == Box(boxes, k)
    {
      OthersSpec(boxes, keys, k);
    }
  }

  /** A key that comes later has not been touched yet. */
  lemma StillThere(boxes: Boxes, keys: seq<string>, i: nat)
    requires DistinctKeys(keys) && i < |keys|
    ensures Box(Others(boxes, keys[..i]), keys[i]) == Box(boxes, keys[i])
  {
    OthersSpec(boxes, keys[..i], keys[i]);
    assert keys[i] !in keys[..i];
  }

  class Mailboxes {
    var boxes: Boxes

    /** The callers remove duplicate keys. */
    method CollectFromKeys(keys: seq<string>, limit: nat, skipBlank: bool)
        returns (messages: seq<Message>, more: bool)
      requires DistinctKeys(keys)
      modifies this
      ensures Collected(boxes, messages, more) == Collect(old(boxes), keys, limit, skipBlank)
    {
      var popped: Boxes;
      messages, popped := PopAll(keys, skipBlank);
      OthersAll(old(boxes), keys);
      messages := SortByTime(messages);
      more := limit > 0 && |messages| > limit;
      if more {
        messages := messages[..limit];
        PutBack(keys, popped, Ids(messages));
      }
      CollectedBoxes(old(boxes), keys, limit, skipBlank, boxes);
    }

    method PopAll(keys: seq<string>, skipBlank: bool) returns (messages: seq<Message>, popped: Boxes)
      requires DistinctKeys(keys)
      modifies this
      ensures messages == FirstCopies(All(old(boxes), keys), skipBlank)
      ensures boxes == Others(old(boxes), keys) && popped == Taken(old(boxes), keys)
    {
      messages, popped := [], map[];
      for i := 0 to |keys|
        invariant messages == FirstCopies(All(old(boxes), keys[..i]), skipBlank)
        invariant boxes == Others(old(boxes), keys[..i]) && popped == Taken(old(boxes), keys[..i])
      {
        var raw := Box(boxes, keys[i]);
        assert keys[..i + 1][..i] == keys[..i];
        StillThere(old(boxes), keys, i);
        popped := popped[keys[i] := raw];
        boxes := boxes - {keys[i]};
        messages := AddFirst(All(old(boxes), keys[..i]), messages, raw, skipBlank);
      }
      assert keys[..|keys|] == keys;
    }

    method PutBack(keys: seq<string>, popped: Boxes, taken: set<string>)
      requires DistinctKeys(keys) && (forall k :: k in keys ==> k in popped && k !in boxes)
      modifies this
      ensures forall k :: k in boxes <==> k in old(boxes) || (k in keys && Without(popped[k], taken) != [])
      ensures forall k :: k in boxes ==> boxes[k] == if k in keys then Without(popped[k], taken) else old(boxes)[k]
    {
      for i := 0 to |keys|
        invariant forall k :: k in boxes <==> k in old(boxes) || (k in keys[..i] && Without(popped[k], taken) != [])
        invariant forall k :: k in boxes ==> boxes[k] == if k in keys[..i] then Without(popped[k], taken) else old(boxes)[k]
      {
        assert keys[..i + 1] == keys[..i] + [keys[i]] && keys[i] !in keys[..i];
        var remaining := Without(popped[keys[i]], taken);
        if remaining != [] {
          boxes := boxes[keys[i] := Box(boxes, keys[i]) + remaining];
        }
      }
      assert keys[..|keys|] == keys;
    }
  }

  method AddFirst(ghost before: seq<Message>, first: seq<Message>, raw: seq<Message>, skipBlank: bool)
      returns (messages: seq<Message>)
    requires first == FirstCopies(before, skipBlank)
    ensures messages == FirstCopies(before + raw, skipBlank)
  {
    messages := first;
    assert before + raw[..0] == before;
    for j := 0 to |raw|
      invariant messages == FirstCopies(before + raw[..j], skipBlank)
    {
      assert (before + raw[..j + 1])[..|before| + j] == before + raw[..j];
      if !(skipBlank && raw[j].msgId == "") && !HasMessage(messages, raw[j].msgId) {
        messages := messages + [raw[j]];
      }
    }
    assert raw[..|raw|] == raw;
  }

  // --------------------------------------------------------------- one poll

  /** The direct lane: switched off by anonymous mode, failing, or in use. */
  datatype Lane = Off | Broken | On

  function AnnotateAll(ms: seq<Message>): seq<Message> {
    seq(|ms|, i requires 0 <= i < |ms| => Annotate(ms[i]))
  }

  lemma AnnotateIds(ms: seq<Message>)
    ensures Ids(AnnotateAll(ms)) == Ids(ms)
  {
    var out := AnnotateAll(ms);
    forall id ensures id in Ids(out) <==> id in Ids(ms) {
      if id in Ids(ms) {
        var i :| 0 <= i < |ms| && ms[i].msgId == id;
        assert out[i] in out && out[i].msgId == id;
      }
    }
  }

  /** What one poll takes from the two mailboxes: the relay first, the direct lane
      with what is left of the budget. */
  datatype Both = Both(relay: Collected, direct: Collected) {
    predicate HasMore() { relay.more || direct.more }
  }

  function CollectBoth(relay: Boxes, direct: Boxes, keys: seq<string>, blinded: seq<string>, lane: Lane): Both {
    var fromRelay := Collect(relay, keys, BATCH_LIMIT, false);
    if |fromRelay.messages| >= BATCH_LIMIT then Both(fromRelay, Collected(direct, [], lane != Off))
    else if lane == On then
      Both(fromRelay, Collect(direct, blinded, BATCH_LIMIT - |fromRelay.messages|, true))
    else Both(fromRelay, Collected(direct, [], false))
  }

  function Waiting(relay: Boxes, direct: Boxes, keys: seq<string>, blinded: seq<string>): nat {
    |Pending(relay, keys, false)| + |Pending(direct, blinded, true)|
  }

  /** The two lanes together never exceed the batch; with the direct lane in use,
      no more means that nothing waits; and more means that something was handed out. */
  lemma BothSpec(relay: Boxes, direct: Boxes, keys: seq<string>, blinded: seq<string>, lane: Lane)
    ensures var b := CollectBoth(relay, direct, keys, blinded, lane);
            && |b.relay.messages| + |b.direct.messages| <= BATCH_LIMIT
            && (!b.HasMore() ==> Pending(b.relay.boxes, keys, false) == {}
                                 && (lane == On ==> Pending(b.direct.boxes, blinded, true) == {}))
            && (b.HasMore() ==> Waiting(b.relay.boxes, b.direct.boxes, keys, blinded)
                                < Waiting(relay, direct, keys, blinded))
            && (lane != On ==> b.direct.boxes == direct)
  {
    var r := Collect(relay, keys, BATCH_LIMIT, false);
    CollectProgress(relay, keys, BATCH_LIMIT, false);
    if |r.messages| < BATCH_LIMIT && lane == On {
      CollectProgress(direct, blinded, BATCH_LIMIT - |r.messages|, true);
    }
  }

  /** Collecting from one mailbox with some budget left: what waits shrinks by what is
      handed out, and no more means that nothing waits. */
  lemma CollectProgress(boxes: Boxes, keys: seq<string>, limit: nat, skipBlank: bool)
    requires limit > 0
    ensures var r := Collect(boxes, keys, limit, skipBlank);
      && |Pending(r.boxes, keys, skipBlank)| == |Pending(boxes, keys, skipBlank)| - |r.messages|
      && |r.messages| <= limit && (r.more ==> |r.messages| == limit)
      && (!r.more ==> Pending(r.boxes, keys, skipBlank) == {})
  {
    CollectSpec(boxes, keys, limit, skipBlank);
    Leftover(Pending(boxes, keys, skipBlank), Collect(boxes, keys, limit, skipBlank).messages);
  }

  lemma Leftover(waiting: set<string>, taken: seq<Message>)
    requires AllDistinct(taken) && Ids(taken) <= waiting
    ensures |waiting - Ids(taken)| == |waiting| - |taken|
  {
    DistinctCount(taken);
  }

  /** Every message of either mailbox is still there or its id is handed out; the
      direct lane alone discards messages without an id. */
  ghost predicate NothingLost(was: Boxes, now: Boxes, out: set<string>, skipBlank: bool) {
    forall k, m :: m in Box(was, k) ==>
      m in Box(now, k) || m.msgId in out || (skipBlank && m.msgId == "")
  }

  lemma CollectLosesNothing(boxes: Boxes, keys: seq<string>, limit: nat, skipBlank: bool)
    ensures NothingLost(boxes, Collect(boxes, keys, limit, skipBlank).boxes,
                        Ids(Collect(boxes, keys, limit, skipBlank).messages), skipBlank)
  {
    var r := Collect(boxes, keys, limit, skipBlank);
    forall k, m | m in Box(boxes, k)
      ensures m in Box(r.boxes, k) || m.msgId in Ids(r.messages) || (skipBlank && m.msgId == "")
    {
      CollectKeeps(boxes, keys, limit, skipBlank, k, m);
    }
  }

  lemma BothLoseNothing(relay: Boxes, direct: Boxes, keys: seq<string>, blinded: seq<string>, lane: Lane)
    ensures var b := CollectBoth(relay, direct, keys, blinded, lane);
            && NothingLost(relay, b.relay.boxes, Ids(b.relay.messages), false)
            && NothingLost(direct, b.direct.boxes, Ids(b.direct.messages), true)
  {
    var b := CollectBoth(relay, direct, keys, blinded, lane);
    CollectLosesNothing(relay, keys, BATCH_LIMIT, false);
    if |b.relay.messages| < BATCH_LIMIT && lane == On {
      CollectLosesNothing(direct, blinded, BATCH_LIMIT - |b.relay.messages|, true);
    }
  }

  /** Merging keeps every id. */
  lemma MergedIds(relay: seq<Message>, direct: seq<Message>, out: seq<Message>)
    requires var copies := Tagged(relay, Relay) + Tagged(direct, Reticulum);
             && (forall m :: m in out && m.msgId != "" ==>
                   var w := Winner(copies, m.msgId); w >= 0 && m == copies[w].message)
             && (forall c :: c in copies && c.message.msgId != "" ==>
                   exists m :: m in out && m.msgId == c.message.msgId)
             && multiset(BlanksOf(out)) == multiset(Blanks(copies))
    ensures Ids(out) == Ids(relay) + Ids(direct)
  {
    var copies := Tagged(relay, Relay) + Tagged(direct, Reticulum);
    forall id ensures id in Ids(out) <==> id in Ids(relay) + Ids(direct) {
      CopyIds(relay, direct, id);
      if id == "" {
        BlankIds(copies, out);
      } else if id in Ids(out) {
        assert copies[Winner(copies, id)] in copies;
      }
    }
  }

  lemma CopyIds(relay: seq<Message>, direct: seq<Message>, id: string)
    ensures (exists c :: c in Tagged(relay, Relay) + Tagged(direct, Reticulum) && c.message.msgId == id)
            <==> id in Ids(relay) + Ids(direct)
  {
    var copies := Tagged(relay, Relay) + Tagged(direct, Reticulum);
    if id in Ids(relay) {
      var i :| 0 <= i < |relay| && relay[i].msgId == id;
      assert copies[i] in copies;
    } else if id in Ids(direct) {
      var i :| 0 <= i < |direct| && direct[i].msgId == id;
      assert copies[|relay| + i] in copies;
    } else {
      forall c | c in copies ensures c.message.msgId != id {
        assert c.message in relay || c.message in direct;
      }
    }
  }

  lemma BlankIds(copies: seq<Copy>, out: seq<Message>)
    requires multiset(BlanksOf(out)) == multiset(Blanks(copies))
    ensures "" in Ids(out) <==> exists c :: c in copies && c.message.msgId == ""
  {
    BlankIn(out);
    BlankInCopies(copies);
    assert |multiset(BlanksOf(out))| == |BlanksOf(out)| && |multiset(Blanks(copies))| == |Blanks(copies)|;
  }

  lemma {:induction false} BlankIn(ms: seq<Message>)
    ensures "" in Ids(ms) <==> BlanksOf(ms) != []
  {
    if ms != [] {
      BlankIn(ms[..|ms| - 1]);
      assert ms == ms[..|ms| - 1] + [ms[|ms| - 1]];
    }
  }

  lemma {:induction false} BlankInCopies(copies: seq<Copy>)
    ensures (exists c :: c in copies && c.message.msgId == "") <==> Blanks(copies) != []
  {
    if copies != [] {
      BlankInCopies(copies[..|copies| - 1]);
      assert copies == copies[..|copies| - 1] + [copies[|copies| - 1]];
    }
  }

  // ------------------------------------------------------------ the endpoint

  /** Slicing as the source does it: a slice past the end is the whole list. */
  function AtMost(ms: seq<Message>, n: nat): seq<Message> {
    if |ms| > n then ms[..n] else ms
  }

  class DmEndpoint {
    const relay: Mailboxes
    const direct: Mailboxes

    constructor (relay: Mailboxes, direct: Mailboxes)
      ensures this.relay == relay && this.direct == direct
    {
      this.relay, this.direct := relay, direct;
    }

    /** One secure poll: the ids handed out are exactly those taken from the two
        mailboxes, so the final cut to the batch limit removes nothing. */
    method Poll(keys: seq<string>, blinded: seq<string>, lane: Lane) returns (messages: seq<Message>, hasMore: bool)
      requires relay != direct && DistinctKeys(keys) && DistinctKeys(blinded)
      modifies relay, direct
      ensures var b := CollectBoth(old(relay.boxes), old(direct.boxes), keys, blinded, lane);
              && relay.boxes == b.relay.boxes && direct.boxes == b.direct.boxes && hasMore == b.HasMore()
              && Ids(messages) == Ids(b.relay.messages) + Ids(b.direct.messages)
              && |messages| <= BATCH_LIMIT && Sorted(messages)
    {
      BothSpec(relay.boxes, direct.boxes, keys, blinded, lane);
      var relayMsgs, relayMore := relay.CollectFromKeys(keys, BATCH_LIMIT, false);
      AnnotateIds(relayMsgs);
      var directMsgs: seq<Message>, directMore := [], false;
      var budget := BATCH_LIMIT - |relayMsgs|;
      if budget > 0 {
        if lane == On {
          directMsgs, directMore := direct.CollectFromKeys(blinded, budget, true);
        }
      } else {
        directMore := lane != Off;
      }
      AnnotateIds(directMsgs);
      var merged := MergeMessages(AnnotateAll(relayMsgs), AnnotateAll(directMsgs));
      MergedIds(AnnotateAll(relayMsgs), AnnotateAll(directMsgs), merged);
      hasMore := relayMore || directMore;
      messages := AtMost(merged, BATCH_LIMIT);
    }

    /** A client that polls until has_more is false: it stops, and by then every id
        that was waiting has been returned and both mailboxes are empty for its keys. */
    method PollUntilDone(keys: seq<string>, blinded: seq<string>) returns (ids: set<string>)
      requires relay != direct && DistinctKeys(keys) && DistinctKeys(blinded)
      modifies relay, direct
      ensures Pending(relay.boxes, keys, false) == {} && Pending(direct.boxes, blinded, true) == {}
      ensures NothingLost(old(relay.boxes), relay.boxes, ids, false)
      ensures NothingLost(old(direct.boxes), direct.boxes, ids, true)
      ensures Pending(old(relay.boxes), keys, false) + Pending(old(direct.boxes), blinded, true) <= ids
    {
      ids := {};
      var hasMore := true;
      while hasMore
        invariant NothingLost(old(relay.boxes), relay.boxes, ids, false)
        invariant NothingLost(old(direct.boxes), direct.boxes, ids, true)
        invariant !hasMore ==> Pending(relay.boxes, keys, false) == {} && Pending(direct.boxes, blinded, true) == {}
        decreases hasMore, Waiting(relay.boxes, direct.boxes, keys, blinded)
      {
        BothSpec(relay.boxes, direct.boxes, keys, blinded, On);
        BothLoseNothing(relay.boxes, direct.boxes, keys, blinded, On);
        var messages;
        messages, hasMore := Poll(keys, blinded, On);
        ids := ids + Ids(messages);
      }
      DrainedIds(old(relay.boxes), relay.boxes, keys, ids, false);
      DrainedIds(old(direct.boxes), direct.boxes, blinded, ids, true);
    }

    /** The legacy poll by tokens: each token's mailboxes are collected with what is
        left of the batch, so nothing collected is cut off; unless more is announced
        every visited mailbox is empty. */
    method PollLegacy(tokens: seq<seq<string>>) returns (messages: seq<Message>, hasMore: bool)
      requires forall t :: t in tokens ==> DistinctKeys(t)
      modifies relay
      ensures |messages| <= BATCH_LIMIT && NothingLost(old(relay.boxes), relay.boxes, Ids(messages), false)
      ensures !hasMore ==> Emptied(relay.boxes, tokens, if |tokens| > TOKEN_LIMIT then TOKEN_LIMIT else |tokens|)
    {
      messages, hasMore := [], false;
      for i := 0 to if |tokens| > TOKEN_LIMIT then TOKEN_LIMIT else |tokens|
        invariant |messages| < BATCH_LIMIT
        invariant NothingLost(old(relay.boxes), relay.boxes, Ids(messages), false)
        invariant !hasMore ==> Emptied(relay.boxes, tokens, i)
      {
        var limit := BATCH_LIMIT - |messages|;
        CollectSpec(relay.boxes, tokens[i], limit, false);
        TokenLosesNothing(old(relay.boxes), relay.boxes, tokens[i], limit, messages);
        EmptiedGrows(relay.boxes, tokens, i, limit);
        var batch, more := relay.CollectFromKeys(tokens[i], limit, false);
        messages := messages + batch;
        if more {
          hasMore := true;
        }
        if |messages| >= BATCH_LIMIT {
          return messages[..BATCH_LIMIT], true;
        }
      }
    }
  }

  lemma TokenLosesNothing(start: Boxes, was: Boxes, keys: seq<string>, limit: nat, taken: seq<Message>)
    requires NothingLost(start, was, Ids(taken), false)
    ensures var r := Collect(was, keys, limit, false);
            NothingLost(start, r.boxes, Ids(taken + r.messages), false)
  {
    var r := Collect(was, keys, limit, false);
    assert Ids(taken + r.messages) == Ids(taken) + Ids(r.messages);
    forall k, m | m in Box(start, k) ensures m in Box(r.boxes, k) || m.msgId in Ids(taken + r.messages) {
      if m in Box(was, k) {
        CollectKeeps(was, keys, limit, false, k, m);
      }
    }
  }

  lemma TokenEmpties(was: Boxes, keys: seq<string>, limit: nat)
    ensures var r := Collect(was, keys, limit, false);
            && (forall k :: !r.more && k in keys ==> Box(r.boxes, k) == [])
            && (forall k :: Box(was, k) == [] ==> Box(r.boxes, k) == [])
  {
    forall k ensures var r := Collect(was, keys, limit, false);
                     (!r.more && k in keys ==> Box(r.boxes, k) == []) && |Box(r.boxes, k)| <= |Box(was, k)|
    {
      CollectEmpties(was, keys, limit, false, k);
    }
  }

  ghost predicate KeysEmpty(boxes: Boxes, keys: seq<string>) {
    forall k :: k in keys ==> Box(boxes, k) == []
  }

  /** The mailboxes of the first n tokens are empty. */
  ghost predicate Emptied(boxes: Boxes, tokens: seq<seq<string>>, n: nat)
    requires n <= |tokens|
  {
    forall i :: 0 <= i < n ==> KeysEmpty(boxes, tokens[i])
  }

  lemma EmptiedGrows(was: Boxes, tokens: seq<seq<string>>, n: nat, limit: nat)
    requires n < |tokens|
    ensures var r := Collect(was, tokens[n], limit, false);
      Emptied(was, tokens, n) && !r.more ==> Emptied(r.boxes, tokens, n + 1)
  {
    TokenEmpties(was, tokens[n], limit);
  }

  lemma DrainedIds(was: Boxes, now: Boxes, keys: seq<string>, ids: set<string>, skipBlank: bool)
    requires NothingLost(was, now, ids, skipBlank) && Pending(now, keys, skipBlank) == {}
    ensures Pending(was, keys, skipBlank) <= ids
  {
    forall id | id in Pending(was, keys, skipBlank) ensures id in ids {
      var m :| m in All(was, keys) && m.msgId == id;
      InAll(was, keys, m);
      var k :| k in keys && m in Box(was, k);
      InAll(now, keys, m);
    }
  }
}
