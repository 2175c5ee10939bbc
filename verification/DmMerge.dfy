/** Merging the messages of two mailboxes into one poll answer.
    (backend/main.py, _merge_dm_poll_messages and its rank functions) */
module DmMerge {
  datatype Source = Relay | Reticulum

  /** A message with its text fields already stripped and lower-cased. */
  datatype Message = Message(
    msgId: string,
    timestamp: real,
    deliveryClass: string,
    contractVersion: string,
    recoveryRequired: bool,
    recoveryState: string,
    senderId: string,
    senderSeal: string,
    body: string)

  const REDUCED_VERSION := "request-v2-reduced-v3"

  predicate IsCanonicalReducedRequest(m: Message) {
    m.deliveryClass == "request" && m.contractVersion == REDUCED_VERSION && m.recoveryRequired
  }

  predicate StartsWith(s: string, prefix: string) {
    prefix <= s
  }

  predicate IsBlinded(m: Message) {
    StartsWith(m.senderId, "sealed:") || StartsWith(m.senderId, "sender_token:")
  }

  function Annotate(m: Message): Message {
    if m.deliveryClass != "request" || !IsBlinded(m) || !StartsWith(m.senderSeal, "v3:") then m
    else m.(
      contractVersion := if m.contractVersion == "" then REDUCED_VERSION else m.contractVersion,
      recoveryRequired := true,
      recoveryState := if m.recoveryState in {"pending", "verified", "failed"} then m.recoveryState else "pending")
  }

  function AuthorityRank(m: Message): nat {
    if m.deliveryClass != "request" then 0
    else if IsCanonicalReducedRequest(m) then 3
    else if IsBlinded(m) then 1
    else if m.senderId != "" then 2
    else 0
  }

  function RecoveryRank(m: Message): nat {
    if !IsCanonicalReducedRequest(m) then 0
    else if m.recoveryState == "verified" then 2
    else if m.recoveryState == "pending" then 1
    else 0
  }

  function SourceRank(source: Source): nat {
    match source
    case Relay => 2
    case Reticulum => 1
  }

  datatype Copy = Copy(message: Message, source: Source)

  predicate ShouldReplace(existing: Copy, candidate: Copy) {
    var (ca, ea) := (AuthorityRank(candidate.message), AuthorityRank(existing.message));
    if ca != ea then ca > ea
    else
      var (cr, er) := (RecoveryRank(candidate.message), RecoveryRank(existing.message));
      if cr != er then cr > er
      else
        var (cs, es) := (SourceRank(candidate.source), SourceRank(existing.source));
        if cs != es then cs > es
        else candidate.message.timestamp > existing.message.timestamp
  }

  /** A blinded v3 request that carries no contract of its own is raised to the top
      rank by annotation and may only be outranked within it; a contract of another
      version keeps it below every plainly named sender. */
  lemma AnnotationRank(m: Message)
    requires m.deliveryClass == "request" && IsBlinded(m) && StartsWith(m.senderSeal, "v3:")
    ensures Annotate(Annotate(m)) == Annotate(m)
    ensures AuthorityRank(Annotate(m)) == 3 <==> m.contractVersion in {"", REDUCED_VERSION}
    ensures AuthorityRank(Annotate(m)) == 1 <==> m.contractVersion !in {"", REDUCED_VERSION}
    ensures AuthorityRank(Annotate(m)) == 3 ==>
              (RecoveryRank(Annotate(m)) == 0 <==> m.recoveryState == "failed")
  {
  }

  /** Replacement follows a strict order in which being unordered is transitive. */
  lemma ReplaceIsStrictWeakOrder(a: Copy, b: Copy, c: Copy)
    ensures !ShouldReplace(a, a)
    ensures ShouldReplace(a, b) && ShouldReplace(b, c) ==> ShouldReplace(a, c)
    ensures !ShouldReplace(a, b) && !ShouldReplace(b, c) ==> !ShouldReplace(a, c)
  {
  }

  // ------------------------------------------------------------ the winner

  /** Position of the copy that survives for an id, or -1 when there is none. */
  function Winner(copies: seq<Copy>, id: string): (w: int)
    ensures -1 <= w < |copies|
    ensures w >= 0 ==> copies[w].message.msgId == id
    ensures w == -1 ==> forall i :: 0 <= i < |copies| ==> copies[i].message.msgId != id
  {
    if copies == [] then -1
    else
      var n := |copies| - 1;
      var w := Winner(copies[..n], id);
      if copies[n].message.msgId == id && (w == -1 || ShouldReplace(copies[w], copies[n])) then n else w
  }

  /** The survivor is beaten by no copy of its id and beats every earlier one. */
  lemma {:induction false} WinnerIsBest(copies: seq<Copy>, id: string)
    ensures var w := Winner(copies, id);
            w >= 0 ==>
              && (forall i :: 0 <= i < |copies| && copies[i].message.msgId == id ==> !ShouldReplace(copies[w], copies[i]))
              && (forall i :: 0 <= i < w && copies[i].message.msgId == id ==> ShouldReplace(copies[i], copies[w]))
  {
    if copies != [] {
      var n := |copies| - 1;
      var front := copies[..n];
      WinnerIsBest(front, id);
      var v, w := Winner(front, id), Winner(copies, id);
      if w >= 0 {
        forall i | 0 <= i < |copies| && copies[i].message.msgId == id ensures !ShouldReplace(copies[w], copies[i]) {
          if i < n && w == n && v >= 0 {
            assert front[i] == copies[i];
            ReplaceIsStrictWeakOrder(copies[v], copies[n], copies[i]);
            ReplaceIsStrictWeakOrder(copies[n], copies[i], copies[n]);
            ReplaceIsStrictWeakOrder(copies[n], copies[i], copies[v]);
            ReplaceIsStrictWeakOrder(copies[v], copies[i], copies[n]);
          } else if i < n {
            assert front[i] == copies[i];
          }
          ReplaceIsStrictWeakOrder(copies[n], copies[n], copies[n]);
        }
        forall i | 0 <= i < w && copies[i].message.msgId == id ensures ShouldReplace(copies[i], copies[w]) {
          assert front[i] == copies[i];
          if w == n {
            ReplaceIsStrictWeakOrder(copies[i], copies[v], copies[n]);
            ReplaceIsStrictWeakOrder(copies[v], copies[i], copies[n]);
          }
        }
      }
    }
  }

  // ----------------------------------------------------------- the sorting

  predicate Sorted(ms: seq<Message>) {
    forall i, j :: 0 <= i < j < |ms| ==> ms[i].timestamp <= ms[j].timestamp
  }

  /** No id but the blank one occurs twice. */
  predicate DistinctIds(ms: seq<Message>) {
    forall i, j :: 0 <= i < j < |ms| && ms[i].msgId != "" ==> ms[i].msgId != ms[j].msgId
  }

  function Insert(ms: seq<Message>, m: Message): seq<Message> {
    if ms != [] && m.timestamp < ms[|ms| - 1].timestamp then Insert(ms[..|ms| - 1], m) + [ms[|ms| - 1]]
    else ms + [m]
  }

  /** Stable sort by timestamp. */
  function SortByTime(ms: seq<Message>): seq<Message> {
    if ms == [] then [] else Insert(SortByTime(ms[..|ms| - 1]), ms[|ms| - 1])
  }

  lemma {:induction false} InsertSplits(ms: seq<Message>, m: Message) returns (p: nat)
    ensures p <= |ms| && Insert(ms, m) == ms[..p] + [m] + ms[p..]
    ensures forall i :: p <= i < |ms| ==> m.timestamp < ms[i].timestamp
    ensures p > 0 ==> ms[p - 1].timestamp <= m.timestamp
  {
    if ms != [] && m.timestamp < ms[|ms| - 1].timestamp {
      p := InsertSplits(ms[..|ms| - 1], m);
    } else {
      p := |ms|;
    }
  }

  lemma InsertKeeps(ms: seq<Message>, m: Message)
    requires Sorted(ms)
    ensures Sorted(Insert(ms, m))
  {
    var p := InsertSplits(ms, m);
  }

  lemma InsertSameMessages(ms: seq<Message>, m: Message)
    ensures multiset(Insert(ms, m)) == multiset(ms + [m])
  {
    var p := InsertSplits(ms, m);
    SameMessages(ms, p, m);
  }

  lemma SameMessages(ms: seq<Message>, p: nat, m: Message)
    requires p <= |ms|
    ensures multiset(ms[..p] + [m] + ms[p..]) == multiset(ms + [m])
  {
    assert ms == ms[..p] + ms[p..];
    assert multiset(ms[..p] + ms[p..]) == multiset(ms[..p]) + multiset(ms[p..]);
  }

  lemma InsertDistinct(ms: seq<Message>, m: Message)
    requires DistinctIds(ms) && (m.msgId != "" ==> forall i :: 0 <= i < |ms| ==> ms[i].msgId != m.msgId)
    ensures DistinctIds(Insert(ms, m))
  {
    var p := InsertSplits(ms, m);
    var ms' := Insert(ms, m);
    forall i, j | 0 <= i < j < |ms'| && ms'[i].msgId != "" ensures ms'[i].msgId != ms'[j].msgId {
      assert i < p ==> ms'[i] == ms[i];
      assert i > p ==> ms'[i] == ms[i - 1];
      assert j < p ==> ms'[j] == ms[j];
      assert j > p ==> ms'[j] == ms[j - 1];
    }
  }

  lemma {:induction false} SortKeeps(ms: seq<Message>)
    ensures Sorted(SortByTime(ms)) && multiset(SortByTime(ms)) == multiset(ms)
    ensures |SortByTime(ms)| == |ms|
    ensures DistinctIds(ms) ==> DistinctIds(SortByTime(ms))
  {
    if ms != [] {
      var front, m := ms[..|ms| - 1], ms[|ms| - 1];
      SortKeeps(front);
      var sorted := SortByTime(front);
      InsertKeeps(sorted, m);
      InsertSameMessages(sorted, m);
      assert ms == front + [m];
      if DistinctIds(ms) {
        NewIdStaysNew(front, sorted, m);
        InsertDistinct(sorted, m);
      }
      assert |multiset(ms)| == |ms| && |multiset(SortByTime(ms))| == |SortByTime(ms)|;
    }
  }

  lemma NewIdStaysNew(front: seq<Message>, sorted: seq<Message>, m: Message)
    requires DistinctIds(front + [m]) && multiset(front) == multiset(sorted)
    ensures m.msgId != "" ==> forall i :: 0 <= i < |sorted| ==> sorted[i].msgId != m.msgId
  {
    forall i | 0 <= i < |sorted| && m.msgId != "" ensures sorted[i].msgId != m.msgId {
      assert sorted[i] in multiset(sorted);
      var j :| 0 <= j < |front| && front[j] == sorted[i];
      assert (front + [m])[j] == front[j] && (front + [m])[|front|] == m;
    }
  }

  // ------------------------------------------------------------- the merge

  function Tagged(ms: seq<Message>, source: Source): seq<Copy> {
    seq(|ms|, i requires 0 <= i < |ms| => Copy(ms[i], source))
  }

  function Blanks(copies: seq<Copy>): seq<Message> {
    if copies == [] then []
    else
      var n := |copies| - 1;
      Blanks(copies[..n]) + if copies[n].message.msgId == "" then [copies[n].message] else []
  }

  function BlanksOf(ms: seq<Message>): seq<Message> {
    if ms == [] then []
    else
      var n := |ms| - 1;
      BlanksOf(ms[..n]) + if ms[n].msgId == "" then [ms[n]] else []
  }

  /** What the two loops have built from the copies seen so far. */
  ghost predicate Merged(copies: seq<Copy>, merged: seq<Message>, index: map<string, (nat, Source)>) {
    && "" !in index
    && |merged| <= |copies|
    && BlanksOf(merged) == Blanks(copies)
    && (forall id :: id in index ==> IndexEntry(copies, merged, index, id))
    && (forall id :: id != "" && Winner(copies, id) >= 0 ==> id in index)
    && (forall p :: 0 <= p < |merged| && merged[p].msgId != "" ==>
          merged[p].msgId in index && index[merged[p].msgId].0 == p)
  }

  ghost predicate IndexEntry(copies: seq<Copy>, merged: seq<Message>, index: map<string, (nat, Source)>, id: string)
    requires id in index
  {
    var (p, source) := index[id];
    var w := Winner(copies, id);
    0 <= w < |copies| && p < |merged| && copies[w] == Copy(merged[p], source)
  }

  lemma BlanksAfterReplace(ms: seq<Message>, p: nat, m: Message)
    requires p < |ms| && ms[p].msgId != "" && m.msgId != ""
    ensures BlanksOf(ms[p := m]) == BlanksOf(ms)
  {
    var n := |ms| - 1;
    if p < n {
      BlanksAfterReplace(ms[..n], p, m);
      assert ms[p := m][..n] == ms[..n][p := m];
    } else {
      assert ms[p := m][..n] == ms[..n];
    }
  }

  method AddMessages(items: seq<Message>, source: Source, merged: seq<Message>,
                     index: map<string, (nat, Source)>, ghost before: seq<Copy>)
      returns (merged': seq<Message>, index': map<string, (nat, Source)>)
    requires Merged(before, merged, index)
    ensures Merged(before + Tagged(items, source), merged', index')
  {
    merged', index' := merged, index;
    ghost var copies := before + Tagged(items, source);
    assert copies[..|before|] == before;
    for i := 0 to |items|
      invariant Merged(copies[..|before| + i], merged', index')
    {
      var item := items[i];
      ghost var seen := copies[..|before| + i];
      assert copies[..|before| + i + 1] == seen + [Copy(item, source)];
      merged', index' := AddOne(item, source, merged', index', seen);
    }
    assert copies[..|before| + |items|] == copies;
  }

  lemma WinnerSnoc(seen: seq<Copy>, c: Copy, id: string)
    ensures Winner(seen + [c], id)
         == var w := Winner(seen, id);
            if c.message.msgId == id && (w == -1 || ShouldReplace(seen[w], c)) then |seen| else w
  {
    assert (seen + [c])[..|seen|] == seen;
  }

  /** A copy that is appended: without an id, or the first of its id. */
  lemma AppendKeeps(seen: seq<Copy>, merged: seq<Message>, index: map<string, (nat, Source)>, c: Copy)
    requires Merged(seen, merged, index) && c.message.msgId !in index
    ensures var id := c.message.msgId;
            Merged(seen + [c], merged + [c.message], if id == "" then index else index[id := (|merged|, c.source)])
  {
    var copies, merged', id := seen + [c], merged + [c.message], c.message.msgId;
    var index' := if id == "" then index else index[id := (|merged|, c.source)];
    assert copies[..|seen|] == seen && merged'[..|merged|] == merged;
    forall x | x != "" ensures Winner(copies, x) == if x == id then |seen| else Winner(seen, x) {
      WinnerSnoc(seen, c, x);
    }
    forall x | x in index' ensures IndexEntry(copies, merged', index', x) {
      if x != id {
        assert IndexEntry(seen, merged, index, x);
      }
    }
  }

  /** A further copy of a known id that does not beat the survivor is dropped. */
  lemma DropKeeps(seen: seq<Copy>, merged: seq<Message>, index: map<string, (nat, Source)>, c: Copy)
    requires Merged(seen, merged, index) && c.message.msgId in index && Winner(seen, c.message.msgId) >= 0
    requires !ShouldReplace(seen[Winner(seen, c.message.msgId)], c)
    ensures Merged(seen + [c], merged, index)
  {
    assert (seen + [c])[..|seen|] == seen;
    forall x ensures Winner(seen + [c], x) == Winner(seen, x) {
      WinnerSnoc(seen, c, x);
    }
    forall x | x in index ensures IndexEntry(seen + [c], merged, index, x) {
      assert IndexEntry(seen, merged, index, x);
    }
  }

  /** One that does takes its place. */
  lemma ReplaceKeeps(seen: seq<Copy>, merged: seq<Message>, index: map<string, (nat, Source)>, c: Copy, p: nat)
    requires Merged(seen, merged, index) && c.message.msgId in index && p == index[c.message.msgId].0 < |merged|
    requires merged[p].msgId == c.message.msgId && Winner(seen, c.message.msgId) >= 0
    requires ShouldReplace(seen[Winner(seen, c.message.msgId)], c)
    ensures Merged(seen + [c], merged[p := c.message], index[c.message.msgId := (p, c.source)])
  {
    var copies, id := seen + [c], c.message.msgId;
    assert copies[..|seen|] == seen;
    forall x ensures Winner(copies, x) == if x == id then |seen| else Winner(seen, x) {
      WinnerSnoc(seen, c, x);
    }
    BlanksAfterReplace(merged, p, c.message);
    var merged', index' := merged[p := c.message], index[id := (p, c.source)];
    forall x | x in index'
      ensures IndexEntry(copies, merged', index', x)
    {
      assert IndexEntry(seen, merged, index, x);
      if x != id {
        OtherEntryStays(seen, merged, index, c, p, x);
      }
    }
  }

  lemma OtherEntryStays(seen: seq<Copy>, merged: seq<Message>, index: map<string, (nat, Source)>, c: Copy, p: nat, x: string)
    requires x in index && x != c.message.msgId && IndexEntry(seen, merged, index, x)
    requires p < |merged| && merged[p].msgId == c.message.msgId
    requires Winner(seen + [c], x) == Winner(seen, x)
    ensures IndexEntry(seen + [c], merged[p := c.message], index[c.message.msgId := (p, c.source)], x)
  {
    assert merged[index[x].0].msgId == x;
  }

  /** One pass of the loop body. */
  method AddOne(item: Message, source: Source, merged: seq<Message>,
                index: map<string, (nat, Source)>, ghost seen: seq<Copy>)
      returns (merged': seq<Message>, index': map<string, (nat, Source)>)
    requires Merged(seen, merged, index)
    ensures Merged(seen + [Copy(item, source)], merged', index')
  {
    var msgId := item.msgId;
    if msgId !in index {
      AppendKeeps(seen, merged, index, Copy(item, source));
      return merged + [item], if msgId == "" then index else index[msgId := (|merged|, source)];
    }
    assert IndexEntry(seen, merged, index, msgId);
    var (p, existingSource) := index[msgId];
    if ShouldReplace(Copy(merged[p], existingSource), Copy(item, source)) {
      ReplaceKeeps(seen, merged, index, Copy(item, source), p);
      return merged[p := item], index[msgId := (p, source)];
    }
    DropKeeps(seen, merged, index, Copy(item, source));
    return merged, index;
  }

  /** The answer is sorted by time; every id occurs once, as the winning copy; the
      messages without an id are all kept. */
  method MergeMessages(relay: seq<Message>, direct: seq<Message>) returns (out: seq<Message>)
    ensures var copies := Tagged(relay, Relay) + Tagged(direct, Reticulum);
            && Sorted(out) && DistinctIds(out) && |out| <= |copies|
            && (forall m :: m in out && m.msgId != "" ==>
                  var w := Winner(copies, m.msgId); w >= 0 && m == copies[w].message)
            && (forall c :: c in copies && c.message.msgId != "" ==>
                  exists m :: m in out && m.msgId == c.message.msgId)
            && multiset(BlanksOf(out)) == multiset(Blanks(copies))
  {
    var merged, index := AddMessages(relay, Relay, [], map[], []);
    assert [] + Tagged(relay, Relay) == Tagged(relay, Relay);
    merged, index := AddMessages(direct, Reticulum, merged, index, Tagged(relay, Relay));
    out := SortByTime(merged);
    MergedSorted(Tagged(relay, Relay) + Tagged(direct, Reticulum), merged, index);
  }

  lemma MergedSorted(copies: seq<Copy>, merged: seq<Message>, index: map<string, (nat, Source)>)
    requires Merged(copies, merged, index)
    ensures var out := SortByTime(merged);
            && Sorted(out) && DistinctIds(out) && |out| <= |copies|
            && (forall m :: m in out && m.msgId != "" ==>
                  var w := Winner(copies, m.msgId); w >= 0 && m == copies[w].message)
            && (forall c :: c in copies && c.message.msgId != "" ==>
                  exists m :: m in out && m.msgId == c.message.msgId)
            && multiset(BlanksOf(out)) == multiset(Blanks(copies))
  {
    var out := SortByTime(merged);
    SortKeeps(merged);
    forall m | m in out && m.msgId != ""
      ensures var w := Winner(copies, m.msgId); w >= 0 && m == copies[w].message
    {
      assert m in multiset(out);
      var p :| 0 <= p < |merged| && merged[p] == m;
      assert IndexEntry(copies, merged, index, m.msgId);
    }
    forall c | c in copies && c.message.msgId != ""
      ensures exists m :: m in out && m.msgId == c.message.msgId
    {
      var id := c.message.msgId;
      assert Winner(copies, id) >= 0;
      assert IndexEntry(copies, merged, index, id);
      var m := merged[index[id].0];
      assert m in multiset(merged);
      assert m in out;
    }
    BlanksFollowEvents(merged, out);
  }

  /** The blank-id messages of a list, as a multiset, depend on its multiset only. */
  lemma {:induction false} BlanksCount(ms: seq<Message>, m: Message)
    ensures multiset(BlanksOf(ms))[m] == if m.msgId == "" then multiset(ms)[m] else 0
  {
    if ms != [] {
      var n := |ms| - 1;
      BlanksCount(ms[..n], m);
      assert ms == ms[..n] + [ms[n]];
    }
  }

  lemma BlanksFollowEvents(a: seq<Message>, b: seq<Message>)
    requires multiset(a) == multiset(b)
    ensures multiset(BlanksOf(a)) == multiset(BlanksOf(b))
  {
    forall m ensures multiset(BlanksOf(a))[m] == multiset(BlanksOf(b))[m] {
      BlanksCount(a, m);
      BlanksCount(b, m);
    }
  }
}
