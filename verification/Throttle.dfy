/** The per-identity rate limit of the public mesh.
    (backend/main.py, _check_throttle) */
module Throttle {
  const DAY := 86400.0
  const MAX_CAP: nat := 200
  const MIN_INTERVAL := 30.0

  type NodeId = string

  datatype Option<T> = None | Some(value: T)

  datatype Entry = Entry(lastSend: real, dailyCount: nat, dailyReset: real, firstSeen: real)

  /** What the reputation ledger knows: overall score and age in days. */
  datatype Standing = Standing(score: int, ageDays: real)

  datatype Request = Request(now: real, emergency: bool, meshtastic: bool, standing: Option<Standing>)

  datatype Verdict = Allowed | DailyCap | TooSoon

  datatype Tier = Tier(interval: real, cap: nat)

  function TierOf(entry: Entry, q: Request): Tier {
    var ageHours := (q.now - entry.firstSeen) / 3600.0;
    var score := if q.standing.Some? then q.standing.value.score else 0;
    var age := if q.standing.Some? && q.standing.value.ageDays * 24.0 > ageHours
               then q.standing.value.ageDays * 24.0 else ageHours;
    var tier :=
      if score >= 20 || age >= 168.0 then Tier(30.0, 200)
      else if score >= 5 || age >= 48.0 then Tier(120.0, 75)
      else Tier(300.0, 15);
    if q.meshtastic && tier.interval > 30.0 then tier.(interval := 30.0) else tier
  }

  /** The entry as the limits are checked: created or past its day, it starts a new day. */
  function Opened(entry: Option<Entry>, now: real): Entry {
    match entry
    case None => Entry(0.0, 0, now, now)
    case Some(e) => if now - e.dailyReset > DAY then e.(dailyCount := 0, dailyReset := now) else e
  }

  function Check(entry: Option<Entry>, q: Request): (Option<Entry>, Verdict) {
    if q.emergency then (entry, Allowed)
    else
      var e := Opened(entry, q.now);
      var tier := TierOf(e, q);
      if e.dailyCount >= tier.cap then (Some(e), DailyCap)
      else if q.now - e.lastSend < tier.interval then (Some(e), TooSoon)
      else (Some(e.(lastSend := q.now, dailyCount := e.dailyCount + 1)), Allowed)
  }

  // ------------------------------------------------- the life of one entry

  /** The entry after some requests, and the times of its counted sends. */
  datatype Life = Life(entry: Option<Entry>, sends: seq<real>)

  function Run(qs: seq<Request>): Life {
    if qs == [] then Life(None, [])
    else
      var life, q := Run(qs[..|qs| - 1]), qs[|qs| - 1];
      var (entry, verdict) := Check(life.entry, q);
      Life(entry, if verdict == Allowed && !q.emergency then life.sends + [q.now] else life.sends)
  }

  ghost predicate Monotone(qs: seq<Request>) {
    forall i, j :: 0 <= i < j < |qs| ==> qs[i].now <= qs[j].now
  }

  /** Sends split into those of the current day, those of the day before, and older
      ones, which lie more than a day before the last reset. */
  ghost predicate Days(entry: Entry, sends: seq<real>, older: seq<real>, before: seq<real>, today: seq<real>) {
    && sends == older + before + today
    && |today| == entry.dailyCount <= MAX_CAP && |before| <= MAX_CAP
    && (forall t :: t in older ==> t < entry.dailyReset - DAY)
    && (forall t :: t in before ==> t <= entry.dailyReset)
  }

  ghost predicate Spaced(sends: seq<real>) {
    forall i :: 0 <= i < |sends| - 1 ==> sends[i + 1] - sends[i] >= MIN_INTERVAL
  }

  ghost predicate Inv(life: Life, now: real) {
    match life.entry
    case None => life.sends == []
    case Some(e) =>
      && Spaced(life.sends)
      && (forall t :: t in life.sends ==> t <= now)
      && (life.sends != [] ==> e.lastSend == life.sends[|life.sends| - 1])
      && e.dailyReset <= now
      && exists older, before, today :: Days(e, life.sends, older, before, today)
  }

  lemma OpenKeeps(life: Life, was: real, now: real)
    requires Inv(life, was) && was <= now
    ensures Inv(Life(Some(Opened(life.entry, now)), life.sends), now)
  {
    var e' := Opened(life.entry, now);
    match life.entry {
      case None =>
        assert Days(e', [], [], [], []);
      case Some(e) =>
        var older, before, today :| Days(e, life.sends, older, before, today);
        if now - e.dailyReset > DAY {
          assert forall t :: t in today ==> t in life.sends;
          assert Days(e', life.sends, older + before, today, []);
        } else {
          assert Days(e', life.sends, older, before, today);
        }
    }
  }

  lemma SendKeeps(e: Entry, sends: seq<real>, now: real)
    requires Inv(Life(Some(e), sends), now) && e.dailyCount < MAX_CAP && now - e.lastSend >= MIN_INTERVAL
    ensures Inv(Life(Some(e.(lastSend := now, dailyCount := e.dailyCount + 1)), sends + [now]), now)
  {
    var older, before, today :| Days(e, sends, older, before, today);
    var e' := e.(lastSend := now, dailyCount := e.dailyCount + 1);
    assert Days(e', sends + [now], older, before, today + [now]);
    assert Spaced(sends + [now]);
  }

  lemma StepKeeps(life: Life, was: real, q: Request)
    requires Inv(life, was) && was <= q.now
    ensures var (entry, verdict) := Check(life.entry, q);
            Inv(Life(entry, if verdict == Allowed && !q.emergency then life.sends + [q.now] else life.sends), q.now)
  {
    OpenKeeps(life, was, q.now);
    var (entry, verdict) := Check(life.entry, q);
    if !q.emergency && verdict == Allowed {
      SendKeeps(Opened(life.entry, q.now), life.sends, q.now);
    }
  }

  lemma {:induction false} RunKeeps(qs: seq<Request>)
    requires Monotone(qs)
    ensures Inv(Run(qs), if qs == [] then 0.0 else qs[|qs| - 1].now)
  {
    if qs != [] {
      var front, q := qs[..|qs| - 1], qs[|qs| - 1];
      RunKeeps(front);
      if front == [] {
        StepKeeps(Run(front), q.now, q);
      } else {
        StepKeeps(Run(front), front[|front| - 1].now, q);
      }
    }
  }

  /** Within an entry's life, whatever the tiers do in between, two counted sends are
      at least 30 s apart and the daily count never exceeds 200. */
  lemma SpacingAndCap(qs: seq<Request>)
    requires Monotone(qs)
    ensures var life := Run(qs);
            && (forall i, j :: 0 <= i < j < |life.sends| ==> life.sends[j] - life.sends[i] >= MIN_INTERVAL)
            && (life.entry.Some? ==> life.entry.value.dailyCount <= MAX_CAP)
  {
    RunKeeps(qs);
    SpacedAll(Run(qs).sends);
  }

  lemma {:induction false} SpacedAll(sends: seq<real>)
    requires Spaced(sends)
    ensures forall i, j :: 0 <= i < j < |sends| ==> sends[j] - sends[i] >= MIN_INTERVAL
  {
    if sends != [] {
      var front := sends[..|sends| - 1];
      SpacedAll(front);
      forall i | 0 <= i < |front| ensures sends[|front|] - sends[i] >= MIN_INTERVAL {
        assert sends[|front|] - front[|front| - 1] >= MIN_INTERVAL;
      }
    }
  }

  // ------------------------------------------------------- any day's window

  function CountIn(sends: seq<real>, from: real, to: real): nat {
    if sends == [] then 0
    else CountIn(sends[..|sends| - 1], from, to) + if from <= sends[|sends| - 1] <= to then 1 else 0
  }

  lemma {:induction false} CountConcat(a: seq<real>, b: seq<real>, from: real, to: real)
    ensures CountIn(a + b, from, to) == CountIn(a, from, to) + CountIn(b, from, to)
  {
    if b == [] {
      assert a + b == a;
    } else {
      assert (a + b)[..|a + b| - 1] == a + b[..|b| - 1];
      CountConcat(a, b[..|b| - 1], from, to);
    }
  }

  lemma {:induction false} CountBounds(sends: seq<real>, from: real, to: real)
    ensures CountIn(sends, from, to) <= |sends|
  {
    if sends != [] {
      CountBounds(sends[..|sends| - 1], from, to);
    }
  }

  lemma {:induction false} CountOutside(sends: seq<real>, from: real, to: real)
    requires forall t :: t in sends ==> t < from || to < t
    ensures CountIn(sends, from, to) == 0
  {
    if sends != [] {
      var front, last := sends[..|sends| - 1], sends[|sends| - 1];
      assert forall t :: t in front ==> t in sends;
      CountOutside(front, from, to);
      assert last in sends;
    }
  }

  lemma WindowOfLastDay(life: Life, now: real, from: real)
    requires Inv(life, now) && life.entry.Some? && from >= life.entry.value.dailyReset - DAY
    ensures CountIn(life.sends, from, from + DAY) <= 2 * MAX_CAP
  {
    var older, before, today :| Days(life.entry.value, life.sends, older, before, today);
    CountConcat(older + before, today, from, from + DAY);
    CountConcat(older, before, from, from + DAY);
    CountOutside(older, from, from + DAY);
    CountBounds(before, from, from + DAY);
    CountBounds(today, from, from + DAY);
  }

  /** Any window of 86400 s holds at most 400 counted sends of an entry. */
  lemma {:induction false} AnyDayWindow(qs: seq<Request>, from: real)
    requires Monotone(qs)
    ensures CountIn(Run(qs).sends, from, from + DAY) <= 2 * MAX_CAP
  {
    if qs != [] {
      var front, q, life := qs[..|qs| - 1], qs[|qs| - 1], Run(qs);
      RunKeeps(qs);
      if life.entry.Some? && from < life.entry.value.dailyReset - DAY {
        // the window ends before the last reset, so the last request is outside it
        AnyDayWindow(front, from);
        CountConcat(Run(front).sends, [q.now], from, from + DAY);
        CountOutside([q.now], from, from + DAY);
      } else if life.entry.Some? {
        WindowOfLastDay(life, q.now, from);
      }
    }
  }

  /** The limits end with the entry: once the cache has dropped it, the next send is
      let through however recent the last one was. */
  lemma EvictionForgets(q: Request)
    requires q.now >= 300.0
    ensures Check(None, q).1 == Allowed
  {
  }

  // --------------------------------------------------------------- the table

  class ThrottleTable {
    var entries: map<NodeId, Entry>

    function Lookup(node: NodeId): Option<Entry>
      reads this
    {
      if node in entries then Some(entries[node]) else None
    }

    method CheckThrottle(node: NodeId, q: Request) returns (verdict: Verdict)
      modifies this
      ensures (Lookup(node), verdict) == Check(old(Lookup(node)), q)
      ensures forall n :: n != node ==> Lookup(n) == old(Lookup(n))
    {
      if q.emergency {
        return Allowed;
      }
      if node !in entries {
        entries := entries[node := Entry(0.0, 0, q.now, q.now)];
      }
      var state := entries[node];
      if q.now - state.dailyReset > DAY {
        state := state.(dailyCount := 0, dailyReset := q.now);
        entries := entries[node := state];
      }
      var tier := TierOf(state, q);
      if state.dailyCount >= tier.cap {
        return DailyCap;
      }
      if q.now - state.lastSend < tier.interval {
        return TooSoon;
      }
      entries := entries[node := state.(lastSend := q.now, dailyCount := state.dailyCount + 1)];
      return Allowed;
    }
  }
}
