/** The replay cache behind the signed agent requests.
    (backend/auth.py, _prune_nonce_cache and _verify_openclaw_hmac) */
module ReplayCache {
  const NONCE_MAX := 16384
  const NONCE_TTL := 300.0
  const REQUEST_MAX_AGE := 60
  const GRACE_MAX_AGE := 10
  const STARTUP_GRACE := 120.0
  const NONCE_MIN_LENGTH := 16

  datatype Option<T> = None | Some(value: T)

  /** A remembered nonce and the time it was recorded. */
  datatype Entry = Entry(nonce: string, time: real)

  /** What the signature covers. */
  datatype Signed = Signed(verb: string, path: string, timestampText: string, nonce: string, bodyDigest: string)

  /** timestamp is the integer the text denotes, if it denotes one. */
  datatype Request = Request(signed: Signed, timestamp: Option<int>, signature: string)

  /** The keyed hash, left uninterpreted; None when no secret is configured. */
  type Mac = Option<Signed -> string>

  // ---------------------------------------------------------------- pruning

  function Live(cache: seq<Entry>, now: real): seq<Entry> {
    if cache == [] then []
    else
      var e := cache[|cache| - 1];
      Live(cache[..|cache| - 1], now) + if now - e.time > NONCE_TTL then [] else [e]
  }

  function Insert(es: seq<Entry>, e: Entry): seq<Entry> {
    if es != [] && e.time < es[|es| - 1].time then Insert(es[..|es| - 1], e) + [es[|es| - 1]]
    else es + [e]
  }

  /** Stable sort by recording time. */
  function SortByTime(es: seq<Entry>): seq<Entry> {
    if es == [] then [] else Insert(SortByTime(es[..|es| - 1]), es[|es| - 1])
  }

  lemma {:induction false} SortLength(es: seq<Entry>)
    ensures |SortByTime(es)| == |es|
  {
    if es != [] {
      SortLength(es[..|es| - 1]);
      InsertLength(SortByTime(es[..|es| - 1]), es[|es| - 1]);
    }
  }

  lemma {:induction false} InsertLength(es: seq<Entry>, e: Entry)
    ensures |Insert(es, e)| == |es| + 1
  {
    if es != [] && e.time < es[|es| - 1].time {
      InsertLength(es[..|es| - 1], e);
    }
  }

  function Dropping(es: seq<Entry>, nonces: set<string>): seq<Entry> {
    if es == [] then []
    else Dropping(es[..|es| - 1], nonces) + if es[|es| - 1].nonce in nonces then [] else [es[|es| - 1]]
  }

  function NoncesOf(es: seq<Entry>): set<string> {
    set e | e in es :: e.nonce
  }

  function Prune(cache: seq<Entry>, now: real): seq<Entry> {
    Cap(Live(cache, now))
  }

  /** Beyond the cap the oldest entries go. */
  function Cap(live: seq<Entry>): seq<Entry> {
    SortLength(live);
    if |live| > NONCE_MAX then Dropping(live, NoncesOf(SortByTime(live)[..|live| - NONCE_MAX])) else live
  }

  /** The keys of a dictionary. */
  ghost predicate DistinctNonces(es: seq<Entry>) {
    forall i, j :: 0 <= i < j < |es| ==> es[i].nonce != es[j].nonce
  }

  ghost predicate Ordered(es: seq<Entry>) {
    forall i, j :: 0 <= i < j < |es| ==> es[i].time <= es[j].time
  }

  /** The position of the first entry that is still remembered, in an ordered cache. */
  function FirstLive(es: seq<Entry>, now: real): (d: nat)
    ensures d <= |es|
  {
    if es == [] || now - es[|es| - 1].time > NONCE_TTL then |es| else FirstLive(es[..|es| - 1], now)
  }

  lemma {:induction false} LiveOfOrdered(es: seq<Entry>, now: real)
    requires Ordered(es)
    ensures Live(es, now) == es[FirstLive(es, now)..]
  {
    if es != [] {
      var front, d := es[..|es| - 1], FirstLive(es, now);
      OrderedFront(es);
      LiveOfOrdered(front, now);
      if d < |es| {
        assert es[d..] == front[d..] + [es[|es| - 1]];
      }
    }
  }

  lemma {:induction false} FirstLiveSpec(es: seq<Entry>, now: real, i: nat)
    requires Ordered(es) && i < |es|
    ensures now - es[i].time > NONCE_TTL <==> i < FirstLive(es, now)
  {
    assert es[i].time <= es[|es| - 1].time;
    if now - es[|es| - 1].time <= NONCE_TTL && i < |es| - 1 {
      OrderedFront(es);
      FirstLiveSpec(es[..|es| - 1], now, i);
    }
  }

  lemma OrderedFront(es: seq<Entry>)
    requires Ordered(es) && es != []
    ensures Ordered(es[..|es| - 1])
    ensures |es| > 1 ==> es[|es| - 2].time <= es[|es| - 1].time
  {
  }

  lemma {:induction false} SortOfOrdered(es: seq<Entry>)
    requires Ordered(es)
    ensures SortByTime(es) == es
  {
    if es != [] {
      var front := es[..|es| - 1];
      OrderedFront(es);
      SortOfOrdered(front);
      assert es == front + [es[|es| - 1]];
      assert front != [] ==> front[|front| - 1].time <= es[|es| - 1].time;
    }
  }

  lemma {:induction false} DroppingPrefix(es: seq<Entry>, n: nat)
    requires DistinctNonces(es) && n <= |es|
    ensures Dropping(es, NoncesOf(es[..n])) == es[n..]
  {
    forall k | 0 <= k < |es|
      ensures es[k].nonce in NoncesOf(es[..n]) <==> k < n
    {
      NonceAmong(es, n, k);
    }
    DroppingSome(es, NoncesOf(es[..n]), n);
  }

  lemma NonceAmong(es: seq<Entry>, n: nat, k: nat)
    requires DistinctNonces(es) && n <= |es| && k < |es|
    ensures es[k].nonce in NoncesOf(es[..n]) <==> k < n
  {
    if k < n {
      assert es[..n][k] in es[..n];
    } else {
      forall e | e in es[..n]
        ensures e.nonce != es[k].nonce
      {
        var i :| 0 <= i < n && es[i] == e;
      }
    }
  }

  /** Dropping a set of nonces that are exactly those of the first n entries. */
  lemma {:induction false} DroppingSome(es: seq<Entry>, nonces: set<string>, n: nat)
    requires forall k :: 0 <= k < |es| ==> (es[k].nonce in nonces <==> k < n)
    ensures Dropping(es, nonces) == if |es| <= n then [] else es[n..]
  {
    if es != [] {
      var front := es[..|es| - 1];
      DroppingSome(front, nonces, n);
      if n < |es| {
        assert es[n..] == front[n..] + [es[|es| - 1]];
      }
    }
  }

  /** Pruning a cache whose entries were recorded in time order keeps exactly the
      newest unexpired entries, at most 16384 of them. */
  lemma PruneKeepsNewest(cache: seq<Entry>, now: real) returns (d: nat)
    requires Ordered(cache) && DistinctNonces(cache)
    ensures d <= |cache| && Prune(cache, now) == cache[d..]
    ensures forall i :: 0 <= i < |cache| ==>
              (i >= d <==> now - cache[i].time <= NONCE_TTL && |cache| - i <= NONCE_MAX)
  {
    LiveOfOrdered(cache, now);
    d := FirstLive(cache, now);
    if |cache| - d > NONCE_MAX {
      d := CapCuts(cache, d);
    }
    forall i | 0 <= i < |cache|
      ensures i >= d <==> now - cache[i].time <= NONCE_TTL && |cache| - i <= NONCE_MAX
    {
      FirstLiveSpec(cache, now, i);
    }
  }

  lemma CapCuts(cache: seq<Entry>, d: nat) returns (n: nat)
    requires Ordered(cache) && DistinctNonces(cache) && d <= |cache| && |cache| - d > NONCE_MAX
    ensures n == |cache| - NONCE_MAX > d && Cap(cache[d..]) == cache[n..]
  {
    n := |cache| - NONCE_MAX;
    SuffixOrdered(cache, d);
    SuffixDistinct(cache, d);
    CapOf(cache[d..]);
    DropTwice(cache, d, n - d);
  }

  lemma DropTwice(es: seq<Entry>, d: nat, n: nat)
    requires d + n <= |es|
    ensures es[d..][n..] == es[d + n..]
  {
  }

  lemma CapOf(live: seq<Entry>)
    requires Ordered(live) && DistinctNonces(live) && |live| > NONCE_MAX
    ensures Cap(live) == live[|live| - NONCE_MAX..]
  {
    CapKeepsNewest(live, |live| - NONCE_MAX);
  }

  lemma CapKeepsNewest(live: seq<Entry>, n: nat)
    requires Ordered(live) && DistinctNonces(live) && n <= |live|
    ensures SortByTime(live) == live && Dropping(live, NoncesOf(live[..n])) == live[n..]
  {
    SortOfOrdered(live);
    DroppingPrefix(live, n);
  }

  // ------------------------------------------------------------ verification

  function MaxAge(now: real, startup: real): int {
    if now - startup < STARTUP_GRACE then GRACE_MAX_AGE else REQUEST_MAX_AGE
  }

  function Abs(x: int): int { if x < 0 then -x else x }

  /** The checks before the cache is looked at. */
  predicate Fresh(mac: Mac, startup: real, request: Request, now: real) {
    && mac.Some?
    && request.signed.timestampText != "" && request.signed.nonce != "" && request.signature != ""
    && |request.signed.nonce| >= NONCE_MIN_LENGTH
    && request.timestamp.Some?
    && Abs(now.Floor - request.timestamp.value) <= MaxAge(now, startup)
  }

  predicate Remembers(cache: seq<Entry>, nonce: string) {
    exists i :: 0 <= i < |cache| && cache[i].nonce == nonce
  }

  /** One verification as a single step: the new cache and the verdict. */
  function Verify(mac: Mac, startup: real, cache: seq<Entry>, request: Request, now: real): (seq<Entry>, bool) {
    if !Fresh(mac, startup, request, now) then (cache, false)
    else
      var pruned := Prune(cache, now);
      if Remembers(pruned, request.signed.nonce) then (pruned, false)
      else if mac.value(request.signed) != request.signature then (pruned, false)
      else (pruned + [Entry(request.signed.nonce, now)], true)
  }

  // ------------------------------------------------------------------- runs

  datatype Call = Call(request: Request, now: real)

  /** The cache after some calls, and the full list of what was accepted. */
  datatype Past = Past(cache: seq<Entry>, accepted: seq<Entry>)

  function After(mac: Mac, startup: real, past: Past, c: Call): Past {
    var (cache, ok) := Verify(mac, startup, past.cache, c.request, c.now);
    Past(cache, if ok then past.accepted + [Entry(c.request.signed.nonce, c.now)] else past.accepted)
  }

  function Run(mac: Mac, startup: real, calls: seq<Call>): Past {
    if calls == [] then Past([], []) else After(mac, startup, Run(mac, startup, calls[..|calls| - 1]), calls[|calls| - 1])
  }

  predicate Accepts(mac: Mac, startup: real, calls: seq<Call>, i: nat)
    requires i < |calls|
  {
    Verify(mac, startup, Run(mac, startup, calls[..i]).cache, calls[i].request, calls[i].now).1
  }

  ghost predicate Monotone(startup: real, calls: seq<Call>) {
    && (forall i :: 0 <= i < |calls| ==> startup <= calls[i].now)
    && (forall i, j :: 0 <= i < j < |calls| ==> calls[i].now <= calls[j].now)
  }

  /** The cache is the tail of the accepted list; what fell off has expired or has
      16384 later acceptances behind it. */
  ghost predicate Tail(past: Past, now: real) {
    var d := |past.accepted| - |past.cache|;
    && 0 <= d
    && past.cache == past.accepted[d..]
    && DistinctNonces(past.cache)
    && Ordered(past.accepted)
    && (forall i :: 0 <= i < |past.accepted| ==> past.accepted[i].time <= now)
    && (forall i :: 0 <= i < d ==>
          now - past.accepted[i].time > NONCE_TTL || |past.accepted| - i > NONCE_MAX)
  }

  /** Pruning cuts the accepted list at one place. */
  lemma PruneCuts(past: Past, was: real, now: real) returns (e: nat)
    requires Tail(past, was)
    ensures CutAt(past, now, e) && Prune(past.cache, now) == past.accepted[e..]
  {
    var d := |past.accepted| - |past.cache|;
    SuffixOrdered(past.accepted, d);
    var n := PruneKeepsNewest(past.cache, now);
    assert past.cache[n..] == past.accepted[d + n..];
    e := d + n;
    forall i | d <= i < |past.accepted|
      ensures i >= e <==> now - past.accepted[i].time <= NONCE_TTL && |past.accepted| - i <= NONCE_MAX
    {
      assert past.cache[i - d] == past.accepted[i];
    }
  }

  /** The cache holds exactly the newest accepted entries that are neither expired nor
      beyond the cap. */
  ghost predicate NewestKept(accepted: seq<Entry>, cache: seq<Entry>, now: real) {
    && |cache| <= |accepted| && cache == accepted[|accepted| - |cache|..]
    && (forall i :: 0 <= i < |accepted| ==>
          (i >= |accepted| - |cache| <==> now - accepted[i].time <= NONCE_TTL && |accepted| - i <= NONCE_MAX))
  }

  lemma TailPrune(past: Past, was: real, now: real)
    requires Tail(past, was) && was <= now
    ensures var cache := Prune(past.cache, now);
            && Tail(past.(cache := cache), now)
            && |cache| <= |past.cache|
            && NewestKept(past.accepted, cache, now)
  {
    var e := PruneCuts(past, was, now);
    CutKeepsTail(past, was, now, e);
    CutKeepsNewest(past, was, now, e);
  }

  ghost predicate CutAt(past: Past, now: real, e: nat) {
    && |past.accepted| - |past.cache| <= e <= |past.accepted|
    && forall i :: 0 <= i < |past.accepted| && |past.accepted| - |past.cache| <= i ==>
         (i >= e <==> now - past.accepted[i].time <= NONCE_TTL && |past.accepted| - i <= NONCE_MAX)
  }

  lemma CutKeepsTail(past: Past, was: real, now: real, e: nat)
    requires Tail(past, was) && was <= now && CutAt(past, now, e)
    ensures Tail(past.(cache := past.accepted[e..]), now)
  {
    var d := |past.accepted| - |past.cache|;
    SuffixDistinct(past.cache, e - d);
    assert past.cache[e - d..] == past.accepted[e..];
  }

  lemma CutKeepsNewest(past: Past, was: real, now: real, e: nat)
    requires Tail(past, was) && was <= now && CutAt(past, now, e)
    ensures NewestKept(past.accepted, past.accepted[e..], now)
  {
  }

  lemma SuffixDistinct(es: seq<Entry>, d: nat)
    requires DistinctNonces(es) && d <= |es|
    ensures DistinctNonces(es[d..])
  {
  }

  lemma SuffixOrdered(es: seq<Entry>, d: nat)
    requires Ordered(es) && d <= |es|
    ensures Ordered(es[d..])
  {
  }

  /** Nothing is forgotten by time passing alone. */
  lemma TailLater(past: Past, was: real, now: real)
    requires Tail(past, was) && was <= now
    ensures Tail(past, now)
  {
  }

  lemma TailAppend(past: Past, now: real, nonce: string)
    requires Tail(past, now) && !Remembers(past.cache, nonce)
    ensures Tail(Past(past.cache + [Entry(nonce, now)], past.accepted + [Entry(nonce, now)]), now)
  {
  }

  lemma AfterTail(mac: Mac, startup: real, past: Past, was: real, c: Call)
    requires Tail(past, was) && was <= c.now
    ensures Tail(After(mac, startup, past, c), c.now)
  {
    if Fresh(mac, startup, c.request, c.now) {
      TailPrune(past, was, c.now);
      var pruned := past.(cache := Prune(past.cache, c.now));
      if !Remembers(pruned.cache, c.request.signed.nonce) {
        TailAppend(pruned, c.now, c.request.signed.nonce);
      }
    } else {
      TailLater(past, was, c.now);
    }
  }

  /** The time of the latest call, or of the start. */
  function LastTime(startup: real, calls: seq<Call>): real {
    if calls == [] then startup else calls[|calls| - 1].now
  }

  lemma MonotoneFront(startup: real, calls: seq<Call>)
    requires Monotone(startup, calls) && calls != []
    ensures Monotone(startup, calls[..|calls| - 1])
    ensures LastTime(startup, calls[..|calls| - 1]) <= calls[|calls| - 1].now
  {
  }

  lemma {:induction false} RunTail(mac: Mac, startup: real, calls: seq<Call>)
    requires Monotone(startup, calls)
    ensures Tail(Run(mac, startup, calls), LastTime(startup, calls))
  {
    if calls != [] {
      var front := calls[..|calls| - 1];
      MonotoneFront(startup, calls);
      RunTail(mac, startup, front);
      AfterTail(mac, startup, Run(mac, startup, front), LastTime(startup, front), calls[|calls| - 1]);
    }
  }

  /** The accepted list only grows, and acceptance number q belongs to some call. */
  lemma {:induction false} AcceptedGrows(mac: Mac, startup: real, calls: seq<Call>, i: nat)
    requires i <= |calls|
    ensures Run(mac, startup, calls[..i]).accepted <= Run(mac, startup, calls).accepted
  {
    if i < |calls| {
      AcceptedGrows(mac, startup, calls[..|calls| - 1], i);
      assert calls[..|calls| - 1][..i] == calls[..i];
    } else {
      assert calls[..i] == calls;
    }
  }

  lemma {:induction false} CallOfAcceptance(mac: Mac, startup: real, calls: seq<Call>, q: nat) returns (k: nat)
    requires q < |Run(mac, startup, calls).accepted|
    ensures k < |calls| && Accepts(mac, startup, calls, k)
    ensures |Run(mac, startup, calls[..k]).accepted| == q
    ensures Run(mac, startup, calls).accepted[q].nonce == calls[k].request.signed.nonce
  {
    var front := calls[..|calls| - 1];
    if q < |Run(mac, startup, front).accepted| {
      k := CallOfAcceptance(mac, startup, front, q);
      assert front[..k] == calls[..k];
    } else {
      k := |calls| - 1;
    }
  }

  /** Number of acceptances strictly between calls i and j. */
  function Between(mac: Mac, startup: real, calls: seq<Call>, i: nat, j: nat): int
    requires i < j <= |calls|
  {
    |Run(mac, startup, calls[..j]).accepted| - |Run(mac, startup, calls[..i + 1]).accepted|
  }

  /** Two requests that are fresh with the same timestamp are less than 121 s apart,
      well inside the 300 s for which nonces are remembered. */
  lemma FreshSpan(mac: Mac, startup: real, r: Request, s: Request, a: real, b: real)
    requires Fresh(mac, startup, r, a) && Fresh(mac, startup, s, b) && r.timestamp == s.timestamp
    ensures b - a < 121.0 < NONCE_TTL
  {
    assert a.Floor as real <= a && b < b.Floor as real + 1.0;
  }

  /** The place of call i's acceptance in the accepted list as of call j. */
  lemma AcceptedAt(mac: Mac, startup: real, calls: seq<Call>, i: nat, j: nat) returns (q: nat)
    requires i < j <= |calls| && Accepts(mac, startup, calls, i)
    ensures var accepted := Run(mac, startup, calls[..j]).accepted;
            && q == |Run(mac, startup, calls[..i]).accepted| < |accepted|
            && accepted[q] == Entry(calls[i].request.signed.nonce, calls[i].now)
            && |accepted| - q == Between(mac, startup, calls, i, j) + 1
  {
    var front := calls[..j];
    q := |Run(mac, startup, calls[..i]).accepted|;
    assert calls[..i + 1][..i] == calls[..i] && front[..i + 1] == calls[..i + 1];
    AcceptedGrows(mac, startup, front, i + 1);
  }

  /** The cache that call j looks into, pruned. */
  function CacheAt(mac: Mac, startup: real, calls: seq<Call>, j: nat): seq<Entry>
    requires j < |calls|
  {
    Prune(Run(mac, startup, calls[..j]).cache, calls[j].now)
  }

  lemma CacheAtIsTail(mac: Mac, startup: real, calls: seq<Call>, j: nat)
    requires Monotone(startup, calls) && j < |calls|
    ensures NewestKept(Run(mac, startup, calls[..j]).accepted, CacheAt(mac, startup, calls, j), calls[j].now)
  {
    MonotonePrefix(startup, calls, j);
    RunTail(mac, startup, calls[..j]);
    TailPrune(Run(mac, startup, calls[..j]), LastTime(startup, calls[..j]), calls[j].now);
  }

  lemma MonotonePrefix(startup: real, calls: seq<Call>, j: nat)
    requires Monotone(startup, calls) && j < |calls|
    ensures Monotone(startup, calls[..j]) && LastTime(startup, calls[..j]) <= calls[j].now
  {
  }

  /** Where an accepted nonce stands when a later call looks for it. */
  lemma AcceptedThenSought(mac: Mac, startup: real, calls: seq<Call>, i: nat, j: nat) returns (q: nat)
    requires Monotone(startup, calls) && i < j < |calls|
    requires Accepts(mac, startup, calls, i) && Fresh(mac, startup, calls[j].request, calls[j].now)
    requires calls[i].request.timestamp == calls[j].request.timestamp
    ensures var accepted, cache := Run(mac, startup, calls[..j]).accepted, CacheAt(mac, startup, calls, j);
            && q == |Run(mac, startup, calls[..i]).accepted| < |accepted|
            && accepted[q].nonce == calls[i].request.signed.nonce
            && |cache| <= |accepted| && cache == accepted[|accepted| - |cache|..]
            && (q >= |accepted| - |cache| <==> Between(mac, startup, calls, i, j) < NONCE_MAX)
  {
    q := AcceptedAt(mac, startup, calls, i, j);
    FreshSpan(mac, startup, calls[i].request, calls[j].request, calls[i].now, calls[j].now);
    CacheAtIsTail(mac, startup, calls, j);
  }

  lemma TailRemembers(accepted: seq<Entry>, cache: seq<Entry>, q: nat)
    requires |cache| <= |accepted| && cache == accepted[|accepted| - |cache|..] && q < |accepted|
    ensures q >= |accepted| - |cache| ==> Remembers(cache, accepted[q].nonce)
  {
    if q >= |accepted| - |cache| {
      assert cache[q - (|accepted| - |cache|)] == accepted[q];
    }
  }

  lemma AcceptedIsNew(mac: Mac, startup: real, calls: seq<Call>, j: nat)
    requires j < |calls| && Fresh(mac, startup, calls[j].request, calls[j].now)
    ensures Accepts(mac, startup, calls, j) <==>
      !Remembers(CacheAt(mac, startup, calls, j), calls[j].request.signed.nonce)
      && mac.value(calls[j].request.signed) == calls[j].request.signature
  {
  }

  /** An entry of the cache behind the acceptance of call i stems from a call between. */
  lemma CallBetween(mac: Mac, startup: real, calls: seq<Call>, i: nat, j: nat, p: nat) returns (k: nat)
    requires i < j <= |calls| && |Run(mac, startup, calls[..i]).accepted| < p < |Run(mac, startup, calls[..j]).accepted|
    ensures i < k < j && Accepts(mac, startup, calls, k)
    ensures calls[k].request.signed.nonce == Run(mac, startup, calls[..j]).accepted[p].nonce
  {
    k := CallOfAcceptance(mac, startup, calls[..j], p);
    assert calls[..j][..k] == calls[..k];
    if k <= i {
      assert calls[..i][..k] == calls[..k];
      AcceptedGrows(mac, startup, calls[..i], k);
    }
  }

  /** Within one boot, a nonce accepted with a timestamp is accepted with that
      timestamp again only after 16384 other acceptances in between. */
  lemma NoReplay(mac: Mac, startup: real, calls: seq<Call>, i: nat, j: nat)
    requires Monotone(startup, calls) && i < j < |calls|
    requires Accepts(mac, startup, calls, i) && Accepts(mac, startup, calls, j)
    requires calls[i].request.signed.nonce == calls[j].request.signed.nonce
    requires calls[i].request.timestamp == calls[j].request.timestamp
    ensures Between(mac, startup, calls, i, j) >= NONCE_MAX
  {
    var q := AcceptedThenSought(mac, startup, calls, i, j);
    var accepted, cache := Run(mac, startup, calls[..j]).accepted, CacheAt(mac, startup, calls, j);
    TailRemembers(accepted, cache, q);
    AcceptedIsNew(mac, startup, calls, j);
  }

  /** The bound is exact: the first repetition of an accepted request, while it is
      still fresh, is accepted if and only if 16384 others were accepted meanwhile. */
  lemma ReplayExactly(mac: Mac, startup: real, calls: seq<Call>, i: nat, j: nat)
    requires Monotone(startup, calls) && i < j < |calls|
    requires Accepts(mac, startup, calls, i) && calls[j].request == calls[i].request
    requires Fresh(mac, startup, calls[j].request, calls[j].now)
    requires forall k :: i < k < j && Accepts(mac, startup, calls, k) ==>
               calls[k].request.signed.nonce != calls[i].request.signed.nonce
    ensures Accepts(mac, startup, calls, j) <==> Between(mac, startup, calls, i, j) >= NONCE_MAX
  {
    if Accepts(mac, startup, calls, j) {
      NoReplay(mac, startup, calls, i, j);
    }
    AcceptedIsNew(mac, startup, calls, j);
    var q := AcceptedThenSought(mac, startup, calls, i, j);
    var accepted, cache := Run(mac, startup, calls[..j]).accepted, CacheAt(mac, startup, calls, j);
    var nonce := calls[i].request.signed.nonce;
    if q < |accepted| - |cache| && Remembers(cache, nonce) {
      var m :| 0 <= m < |cache| && cache[m].nonce == nonce;
      var k := CallBetween(mac, startup, calls, i, j, |accepted| - |cache| + m);
      assert false;
    }
  }

  // ---------------------------------------------------------------- restart

  /** A restart forgets the cache. Of the requests accepted before it, the only ones
      still fresh once the 120 s of grace are over were accepted in the very second
      of the restart with a timestamp a full minute ahead, and they are fresh for the
      rest of one second only. */
  lemma ReplayAfterGrace(mac: Mac, oldStartup: real, newStartup: real, request: Request, a: real, b: real)
    requires Fresh(mac, oldStartup, request, a) && a < newStartup && newStartup + STARTUP_GRACE <= b
    ensures Fresh(mac, newStartup, request, b)
            <==> a.Floor == newStartup.Floor && request.timestamp.value == a.Floor + REQUEST_MAX_AGE
                 && b.Floor == newStartup.Floor + 120
  {
    assert a.Floor <= newStartup.Floor;
    assert newStartup.Floor + 120 <= b.Floor by {
      assert (newStartup.Floor + 120) as real <= b;
    }
  }

  /** Such a request, from acceptance before the restart to acceptance after it. */
  lemma ReplayAcrossRestart(mac: Mac, request: Request)
    requires mac.Some? && mac.value(request.signed) == request.signature && request.signature != ""
    requires request.signed.timestampText != "" && |request.signed.nonce| >= NONCE_MIN_LENGTH
    requires request.timestamp.Some? && request.timestamp.value == 160
    ensures Verify(mac, -100.0, [], request, 100.2).1
    ensures Verify(mac, 100.5, [], request, 220.7).1
  {
    assert (100.2).Floor == 100 && (220.7).Floor == 220;
    assert Prune([], 100.2) == [] && Prune([], 220.7) == [];
  }

  /** During the grace period a repetition must carry a timestamp no earlier than
      10 s before the restart. */
  lemma ReplayDuringGrace(mac: Mac, newStartup: real, request: Request, b: real)
    requires newStartup <= b < newStartup + STARTUP_GRACE && Fresh(mac, newStartup, request, b)
    ensures request.timestamp.value >= newStartup.Floor - GRACE_MAX_AGE
  {
    assert newStartup.Floor <= b.Floor;
  }

  // -------------------------------------------------------------- the guard

  class ReplayGuard {
    const startup: real
    var cache: seq<Entry>

    constructor (startup: real)
      ensures this.startup == startup && cache == []
    {
      this.startup := startup;
      cache := [];
    }

    method PruneNonceCache(now: real)
      modifies this
      ensures cache == Prune(old(cache), now)
    {
      var live := [];
      for i := 0 to |cache|
        invariant cache == old(cache) && live == Live(cache[..i], now)
      {
        assert cache[..i + 1][..i] == cache[..i];
        if !(now - cache[i].time > NONCE_TTL) {
          live := live + [cache[i]];
        }
      }
      assert cache[..|cache|] == cache;
      cache := live;
      if |cache| > NONCE_MAX {
        SortLength(cache);
        DropAll(NoncesOf(SortByTime(cache)[..|cache| - NONCE_MAX]));
      }
    }

    method DropAll(nonces: set<string>)
      modifies this
      ensures cache == Dropping(old(cache), nonces)
    {
      var kept := [];
      for i := 0 to |cache|
        invariant cache == old(cache) && kept == Dropping(cache[..i], nonces)
      {
        assert cache[..i + 1][..i] == cache[..i];
        if cache[i].nonce !in nonces {
          kept := kept + [cache[i]];
        }
      }
      assert cache[..|cache|] == cache;
      cache := kept;
    }

    method VerifyHmac(mac: Mac, request: Request, now: real) returns (ok: bool)
      modifies this
      ensures (cache, ok) == Verify(mac, startup, old(cache), request, now)
    {
      if mac.None? {
        return false;
      }
      if request.signed.timestampText == "" || request.signed.nonce == "" || request.signature == "" {
        return false;
      }
      if |request.signed.nonce| < NONCE_MIN_LENGTH || request.timestamp.None? {
        return false;
      }
      var maxAge := if now - startup < STARTUP_GRACE then GRACE_MAX_AGE else REQUEST_MAX_AGE;
      if Abs(now.Floor - request.timestamp.value) > maxAge {
        return false;
      }
      PruneNonceCache(now);
      if Remembers(cache, request.signed.nonce) {
        return false;
      }
      if mac.value(request.signed) != request.signature {
        return false;
      }
      cache := cache + [Entry(request.signed.nonce, now)];
      return true;
    }
  }
}
