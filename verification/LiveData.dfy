/** The live-data store: who writes it, and whether an ETag can hide a change.
    (backend/routers/ai_intel.py, inject_data and remove_injected;
     backend/routers/data.py, update_layers, turimiquire_telemetry, live_data_fast;
     backend/services/fetchers/_store.py) */
module LiveData {
  const MAX_INJECT := 200
  const MAX_TELEMETRY := 100
  const TELEMETRY_LAYER := "turimiquire"

  const INJECTABLE_LAYERS: seq<string> := [
    "cctv", "ships", "sigint", "kiwisdr", "military_bases", "datacenters", "power_plants",
    "satnogs_stations", "volcanoes", "earthquakes", "news", "viirs_change_nodes", "air_quality"]

  datatype Item = Item(body: string, injected: bool)

  type Data = map<string, seq<Item>>

  datatype Store = Store(data: Data, flags: map<string, bool>, dataVersion: nat, layersVersion: nat)

  function Lookup(data: Data, layer: string): seq<Item> {
    if layer in data then data[layer] else []
  }

  // -------------------------------------------------------------- injection

  function Native(items: seq<Item>): seq<Item> {
    if items == [] then []
    else Native(items[..|items| - 1]) + if items[|items| - 1].injected then [] else [items[|items| - 1]]
  }

  function Injected(items: seq<Item>): seq<Item> {
    if items == [] then []
    else Injected(items[..|items| - 1]) + if items[|items| - 1].injected then [items[|items| - 1]] else []
  }

  /** At most 200 items, each marked. */
  function Batch(items: seq<Item>): seq<Item> {
    var n := if |items| > MAX_INJECT then MAX_INJECT else |items|;
    seq(n, i requires 0 <= i < n => items[i].(injected := true))
  }

  datatype Op =
    | Inject(layer: string, items: seq<Item>, replace: bool)
    | Remove(layers: seq<string>)

  function Apply(data: Data, op: Op): Data {
    match op
    case Inject(layer, items, replace) =>
      data[layer := (if replace then Native(Lookup(data, layer)) else Lookup(data, layer)) + Batch(items)]
    case Remove(layers) =>
      map k | k in data.Keys + (set l | l in layers)
        :: if k in layers then Native(Lookup(data, k)) else Lookup(data, k)
  }

  function ApplyAll(data: Data, ops: seq<Op>): Data {
    if ops == [] then data else Apply(ApplyAll(data, ops[..|ops| - 1]), ops[|ops| - 1])
  }

  lemma {:induction false} SplitConcat(a: seq<Item>, b: seq<Item>)
    ensures Native(a + b) == Native(a) + Native(b) && Injected(a + b) == Injected(a) + Injected(b)
  {
    if b == [] {
      assert a + b == a;
    } else {
      SplitConcat(a, b[..|b| - 1]);
      assert (a + b)[..|a + b| - 1] == a + b[..|b| - 1];
    }
  }

  ghost predicate AllMarked(items: seq<Item>, mark: bool) {
    forall i :: 0 <= i < |items| ==> items[i].injected == mark
  }

  lemma {:induction false} SplitMarked(items: seq<Item>, mark: bool)
    requires AllMarked(items, mark)
    ensures if mark then Native(items) == [] && Injected(items) == items
            else Native(items) == items && Injected(items) == []
  {
    if items != [] {
      SplitMarked(items[..|items| - 1], mark);
      assert items == items[..|items| - 1] + [items[|items| - 1]];
    }
  }

  lemma {:induction false} SplitCount(items: seq<Item>)
    ensures |items| == |Native(items)| + |Injected(items)|
  {
    if items != [] {
      SplitCount(items[..|items| - 1]);
    }
  }

  lemma {:induction false} NativeIsNative(items: seq<Item>)
    ensures AllMarked(Native(items), false)
  {
    if items != [] {
      NativeIsNative(items[..|items| - 1]);
    }
  }

  lemma NativeTwice(items: seq<Item>)
    ensures Native(Native(items)) == Native(items) && Injected(Native(items)) == []
  {
    NativeIsNative(items);
    SplitMarked(Native(items), false);
  }

  /** One operation: native items stay as they were, a replacing injection leaves
      exactly its own batch, a removal nothing. */
  lemma ApplySpec(data: Data, op: Op, layer: string)
    ensures var was, now := Lookup(data, layer), Lookup(Apply(data, op), layer);
            && Native(now) == Native(was)
            && match op
               case Inject(l, items, replace) =>
                 if l != layer then now == was
                 else Injected(now) == (if replace then [] else Injected(was)) + Batch(items)
               case Remove(layers) => now == if layer in layers then Native(was) else was
  {
    match op {
      case Inject(l, items, replace) =>
        if l == layer {
          var kept := if replace then Native(Lookup(data, l)) else Lookup(data, l);
          SplitConcat(kept, Batch(items));
          SplitMarked(Batch(items), true);
          NativeTwice(Lookup(data, l));
        }
      case Remove(layers) =>
        NativeTwice(Lookup(data, layer));
    }
  }

  /** Conservation: over any injections and removals the native items of every layer
      stay unchanged and in order. */
  lemma {:induction false} NativeConserved(data: Data, ops: seq<Op>, layer: string)
    ensures Native(Lookup(ApplyAll(data, ops), layer)) == Native(Lookup(data, layer))
  {
    if ops != [] {
      NativeConserved(data, ops[..|ops| - 1], layer);
      ApplySpec(ApplyAll(data, ops[..|ops| - 1]), ops[|ops| - 1], layer);
    }
  }

  /** After any history, removing gives back exactly the native list that was there
      before the first injection. */
  lemma RemoveRestores(data: Data, ops: seq<Op>, layers: seq<string>, layer: string)
    requires layer in layers && Injected(Lookup(data, layer)) == []
    ensures Lookup(ApplyAll(data, ops + [Remove(layers)]), layer) == Lookup(data, layer)
  {
    NativeConserved(data, ops, layer);
    assert (ops + [Remove(layers)])[..|ops|] == ops;
    ApplySpec(ApplyAll(data, ops), Remove(layers), layer);
    AllNative(Lookup(data, layer));
  }

  lemma {:induction false} AllNative(items: seq<Item>)
    requires Injected(items) == []
    ensures Native(items) == items
  {
    if items != [] {
      var front, last := items[..|items| - 1], items[|items| - 1];
      assert Injected(items) == Injected(front) + if last.injected then [last] else [];
      assert |Injected(front)| == 0 && !last.injected;
      AllNative(front);
      assert items == front + [last];
    }
  }

  /** Number of injected items in some layers. */
  function InjectedCount(data: Data, layers: seq<string>): nat {
    if layers == [] then 0
    else InjectedCount(data, layers[..|layers| - 1]) + |Injected(Lookup(data, layers[|layers| - 1]))|
  }

  // -------------------------------------------------------------- telemetry

  function Recent(items: seq<Item>): seq<Item> {
    if |items| > MAX_TELEMETRY then items[|items| - MAX_TELEMETRY..] else items
  }

  /** Popping the oldest after every append keeps the newest hundred of all points. */
  lemma RecentOfRecent(history: seq<Item>, point: Item)
    ensures Recent(Recent(history) + [point]) == Recent(history + [point])
  {
  }

  // ---------------------------------------------------------- layer toggles

  function Toggle(flags: map<string, bool>, updates: seq<(string, bool)>): map<string, bool> {
    if updates == [] then flags
    else
      var f, (key, value) := Toggle(flags, updates[..|updates| - 1]), updates[|updates| - 1];
      if key in f then f[key := value] else f
  }

  /** Whether some assignment of the update changed a flag. */
  function Toggled(flags: map<string, bool>, updates: seq<(string, bool)>): bool {
    if updates == [] then false
    else
      var front := updates[..|updates| - 1];
      var f, (key, value) := Toggle(flags, front), updates[|updates| - 1];
      Toggled(flags, front) || (key in f && f[key] != value)
  }

  lemma {:induction false} UntoggledSame(flags: map<string, bool>, updates: seq<(string, bool)>)
    requires !Toggled(flags, updates)
    ensures Toggle(flags, updates) == flags
  {
    if updates != [] {
      UntoggledSame(flags, updates[..|updates| - 1]);
    }
  }

  // --------------------------------------------------------------- the store

  /** The writers as they act on the shared store, each in one step: the data lock
      is taken to be held from the first read to the version bump. */
  class LiveStore {
    var latest: Data
    var flags: map<string, bool>
    var dataVersion: nat
    var layersVersion: nat

    function Snapshot(): Store
      reads this
    {
      Store(latest, flags, dataVersion, layersVersion)
    }

    method InjectData(layer: string, items: seq<Item>, mode: string) returns (ok: bool, injected: nat, total: nat)
      modifies this`latest, this`dataVersion
      ensures ok == (layer in INJECTABLE_LAYERS)
      ensures Snapshot() == if ok then Perform(old(Snapshot()), DataOp(Inject(layer, items, mode == "replace")))
                            else old(Snapshot())
      ensures ok ==> injected == |Batch(items)| && total == |Lookup(latest, layer)|
    {
      if layer !in INJECTABLE_LAYERS {
        return false, 0, 0;
      }
      var batch := Batch(items);
      var existing := Lookup(latest, layer);
      if mode == "replace" {
        existing := WithoutInjected(existing);
      }
      existing := existing + batch;
      latest := latest[layer := existing];
      dataVersion := dataVersion + 1;
      return true, |batch|, |existing|;
    }

    method RemoveInjected(layer: string) returns (ok: bool, removed: nat)
      modifies this`latest, this`dataVersion
      ensures ok == (layer == "" || layer in INJECTABLE_LAYERS)
      ensures var layers := if layer == "" then INJECTABLE_LAYERS else [layer];
              && Snapshot() == (if ok then Perform(old(Snapshot()), DataOp(Remove(layers))) else old(Snapshot()))
              && removed == (if ok then InjectedCount(old(latest), layers) else 0)
    {
      if layer != "" && layer !in INJECTABLE_LAYERS {
        return false, 0;
      }
      InjectableDistinct();
      removed := RemoveFrom(if layer == "" then INJECTABLE_LAYERS else [layer]);
      return true, removed;
    }

    method RemoveFrom(layers: seq<string>) returns (removed: nat)
      requires Distinct(layers)
      modifies this`latest, this`dataVersion
      ensures Snapshot() == Perform(old(Snapshot()), DataOp(Remove(layers)))
      ensures removed == InjectedCount(old(latest), layers)
    {
      removed := CleanLayers(layers);
      if removed > 0 {
        dataVersion := dataVersion + 1;
      }
    }

    method CleanLayers(layers: seq<string>) returns (removed: nat)
      requires Distinct(layers)
      modifies this`latest
      ensures latest == Apply(old(latest), Remove(layers))
      ensures removed == InjectedCount(old(latest), layers)
    {
      removed := 0;
      assert latest == Apply(old(latest), Remove(layers[..0]));
      for i := 0 to |layers|
        invariant latest == Apply(old(latest), Remove(layers[..i]))
        invariant removed == InjectedCount(old(latest), layers[..i])
      {
        assert layers[..i + 1][..i] == layers[..i];
        RemoveOneMore(old(latest), layers, i);
        var existing := Lookup(latest, layers[i]);
        SplitCount(existing);
        var cleaned := WithoutInjected(existing);
        removed := removed + (|existing| - |cleaned|);
        latest := latest[layers[i] := cleaned];
      }
      assert layers[..|layers|] == layers;
    }

    method TurimiquireTelemetry(point: Item)
      modifies this`latest, this`dataVersion
      ensures Snapshot() == Perform(old(Snapshot()), Telemetry(point))
    {
      if TELEMETRY_LAYER !in latest {
        latest := latest[TELEMETRY_LAYER := []];
      }
      var points := latest[TELEMETRY_LAYER] + [point];
      if |points| > MAX_TELEMETRY {
        points := points[1..];
      }
      latest := latest[TELEMETRY_LAYER := points];
      dataVersion := dataVersion + 1;
    }

    method UpdateLayers(updates: seq<(string, bool)>)
      modifies this`flags, this`layersVersion
      ensures Snapshot() == Perform(old(Snapshot()), Toggles(updates))
    {
      var changed := false;
      for i := 0 to |updates|
        invariant flags == Toggle(old(flags), updates[..i])
        invariant changed == Toggled(old(flags), updates[..i]) && layersVersion == old(layersVersion)
      {
        assert updates[..i + 1][..i] == updates[..i];
        var (key, value) := updates[i];
        if key in flags {
          if flags[key] != value {
            changed := true;
          }
          flags := flags[key := value];
        }
      }
      assert updates[..|updates|] == updates;
      if changed {
        layersVersion := layersVersion + 1;
      }
    }
  }

  predicate Distinct(layers: seq<string>) {
    forall i, j :: 0 <= i < j < |layers| ==> layers[i] != layers[j]
  }

  lemma RemoveOneMore(data: Data, layers: seq<string>, i: nat)
    requires Distinct(layers) && i < |layers|
    ensures var now, l := Apply(data, Remove(layers[..i])), layers[i];
            && Lookup(now, l) == Lookup(data, l)
            && Apply(data, Remove(layers[..i + 1])) == now[l := Native(Lookup(data, l))]
  {
    assert layers[..i + 1] == layers[..i] + [layers[i]] && layers[i] !in layers[..i];
  }

  lemma InjectableDistinct()
    ensures Distinct(INJECTABLE_LAYERS) && "" !in INJECTABLE_LAYERS
  {
  }

  method WithoutInjected(items: seq<Item>) returns (kept: seq<Item>)
    ensures kept == Native(items)
  {
    kept := [];
    for i := 0 to |items|
      invariant kept == Native(items[..i])
    {
      assert items[..i + 1][..i] == items[..i];
      if !items[i].injected {
        kept := kept + [items[i]];
      }
    }
    assert items[..|items|] == items;
  }

  /** A finished write: the change together with its version bump. */
  datatype Write =
    | DataOp(op: Op)
    | Telemetry(point: Item)
    | Toggles(updates: seq<(string, bool)>)

  function Perform(s: Store, w: Write): Store {
    match w
    case DataOp(Inject(l, items, replace)) =>
      s.(data := Apply(s.data, w.op), dataVersion := s.dataVersion + 1)
    case DataOp(Remove(layers)) =>
      s.(data := Apply(s.data, w.op),
         dataVersion := if InjectedCount(s.data, layers) > 0 then s.dataVersion + 1 else s.dataVersion)
    case Telemetry(point) =>
      var points := Lookup(s.data, TELEMETRY_LAYER) + [point];
      s.(data := s.data[TELEMETRY_LAYER := if |points| > MAX_TELEMETRY then points[1..] else points],
         dataVersion := s.dataVersion + 1)
    case Toggles(updates) =>
      s.(flags := Toggle(s.flags, updates),
         layersVersion := if Toggled(s.flags, updates) then s.layersVersion + 1 else s.layersVersion)
  }

  // --------------------------------------------------------------- coherence

  datatype ETag = ETag(dataVersion: nat, layersVersion: nat)

  /** All that a response of one endpoint is computed from; a layer that is absent
      reads as an empty list. */
  datatype View = View(layers: Data, flags: map<string, bool>)

  function CurrentETag(s: Store): ETag { ETag(s.dataVersion, s.layersVersion) }

  function ViewOf(s: Store): View {
    View(map k | k in s.data && s.data[k] != [] :: s.data[k], s.flags)
  }

  ghost predicate AtMost(a: ETag, b: ETag) {
    a.dataVersion <= b.dataVersion && a.layersVersion <= b.layersVersion
  }

  lemma {:induction false} NoneInjected(data: Data, layers: seq<string>)
    requires InjectedCount(data, layers) == 0
    ensures forall l :: l in layers ==> Native(Lookup(data, l)) == Lookup(data, l)
  {
    if layers != [] {
      var front, last := layers[..|layers| - 1], layers[|layers| - 1];
      NoneInjected(data, front);
      AllNative(Lookup(data, last));
      assert layers == front + [last];
    }
  }

  lemma SameLookups(a: Store, b: Store)
    requires a.flags == b.flags && forall k :: Lookup(a.data, k) == Lookup(b.data, k)
    ensures ViewOf(a) == ViewOf(b)
  {
    var m, n := ViewOf(a).layers, ViewOf(b).layers;
    forall k
      ensures k in m <==> k in n
      ensures k in m ==> m[k] == n[k]
    {
      assert Lookup(a.data, k) == Lookup(b.data, k);
    }
  }

  lemma RemovingNothing(s: Store, layers: seq<string>)
    requires InjectedCount(s.data, layers) == 0
    ensures ViewOf(s.(data := Apply(s.data, Remove(layers)))) == ViewOf(s)
  {
    NoneInjected(s.data, layers);
    SameLookups(s.(data := Apply(s.data, Remove(layers))), s);
  }

  /** A finished write either leaves everything readers see as it was, or gives the
      store an ETag it has never had. */
  lemma WriteShows(s: Store, w: Write)
    ensures var s' := Perform(s, w);
            && AtMost(CurrentETag(s), CurrentETag(s'))
            && (ViewOf(s') == ViewOf(s) || CurrentETag(s') != CurrentETag(s))
  {
    match w {
      case DataOp(Remove(layers)) =>
        if InjectedCount(s.data, layers) == 0 {
          RemovingNothing(s, layers);
        }
      case Toggles(updates) =>
        if !Toggled(s.flags, updates) {
          UntoggledSame(s.flags, updates);
        }
      case _ =>
    }
  }

  type Client = string

  /** A response, and which start of the process it comes from. */
  datatype Response = Response(etag: ETag, body: View, boot: nat)

  /** A reader that has computed its ETag but not yet read, and its last response. */
  datatype Reader = Reader(taken: seq<ETag>, cached: seq<Response>)

  type Fetcher = string

  /** unbumped are the fetchers that have stored layers, any number of them, and not yet
      bumped; boot counts the starts of the process. */
  datatype World = World(store: Store, unbumped: set<Fetcher>, readers: map<Client, Reader>, boot: nat)

  datatype Step =
    | Finish(write: Write)
    | FetchStore(fetcher: Fetcher, layers: Data)
    | FetchBump(fetcher: Fetcher)
    | Ask(client: Client)
    | Read(client: Client)
    | Restart(data: Data, flags: map<string, bool>)

  function ReaderOf(w: World, c: Client): Reader {
    if c in w.readers then w.readers[c] else Reader([], [])
  }

  /** The request is answered with 304: the client keeps what it has. */
  predicate NotModified(w: World, c: Client) {
    var r := ReaderOf(w, c);
    r.cached != [] && r.cached[0].etag == CurrentETag(w.store)
  }

  function Next(w: World, step: Step): World {
    match step
    case Finish(write) => w.(store := Perform(w.store, write))
    case FetchStore(f, layers) =>
      w.(store := w.store.(data := w.store.data + layers), unbumped := w.unbumped + {f})
    case FetchBump(f) =>
      w.(store := w.store.(dataVersion := w.store.dataVersion + 1), unbumped := w.unbumped - {f})
    case Ask(c) =>
      if NotModified(w, c) then w
      else w.(readers := w.readers[c := ReaderOf(w, c).(taken := [CurrentETag(w.store)])])
    case Read(c) =>
      var r := ReaderOf(w, c);
      if r.taken == [] then w
      else w.(readers := w.readers[c := Reader([], [Response(r.taken[0], ViewOf(w.store), w.boot)])])
    case Restart(data, flags) =>
      World(Store(data, flags, 0, 0), {}, map c | c in w.readers :: Reader([], w.readers[c].cached), w.boot + 1)
  }

  function Run(w: World, steps: seq<Step>): World {
    if steps == [] then w else Next(Run(w, steps[..|steps| - 1]), steps[|steps| - 1])
  }

  /** No copy from this start of the process carries a later ETag than the store, and one
      that carries the store's own ETag is what the store holds, unless a fetch is half
      done. */
  ghost predicate ReaderInv(s: Store, unbumped: set<Fetcher>, boot: nat, r: Reader) {
    && |r.taken| <= 1 && |r.cached| <= 1
    && (r.taken != [] ==> AtMost(r.taken[0], CurrentETag(s)))
    && (r.cached != [] ==> r.cached[0].boot <= boot)
    && (r.cached != [] && r.cached[0].boot == boot ==>
          && AtMost(r.cached[0].etag, CurrentETag(s))
          && (r.cached[0].etag == CurrentETag(s) ==> r.cached[0].body == ViewOf(s) || unbumped != {}))
  }

  ghost predicate Inv(w: World) {
    forall c :: c in w.readers ==> ReaderInv(w.store, w.unbumped, w.boot, w.readers[c])
  }

  function Start(s: Store): World { World(s, {}, map[], 0) }

  lemma StepKeeps(w: World, step: Step)
    requires Inv(w)
    ensures Inv(Next(w, step))
  {
    if step.Finish? {
      WriteShows(w.store, step.write);
    }
  }

  lemma {:induction false} RunKeeps(w: World, steps: seq<Step>)
    requires Inv(w)
    ensures Inv(Run(w, steps))
  {
    if steps != [] {
      RunKeeps(w, steps[..|steps| - 1]);
      StepKeeps(Run(w, steps[..|steps| - 1]), steps[|steps| - 1]);
    }
  }

  /** In every interleaving of writers, readers and restarts, a 304 hides no change: the
      copy the client keeps is exactly what it would be sent, provided that it read the
      copy since the process last started and that no fetch stands between storing its
      data and bumping the version. */
  lemma NotModifiedIsCurrent(s: Store, steps: seq<Step>, c: Client)
    requires var w := Run(Start(s), steps);
      NotModified(w, c) && w.unbumped == {} && ReaderOf(w, c).cached[0].boot == w.boot
    ensures var w := Run(Start(s), steps); ReaderOf(w, c).cached[0].body == ViewOf(w.store)
  {
    RunKeeps(Start(s), steps);
  }

  /** The versions start at 0 with the process, so a copy from before a restart is
      confirmed against other data. */
  lemma RestartHides(layer: string, item: Item) returns (w: World)
    ensures var start := Start(Store(map[], map[], 0, 0));
            w == Next(Next(Next(start, Ask("c")), Read("c")), Restart(map[layer := [item]], map[]))
    ensures NotModified(w, "c") && w.unbumped == {} && ReaderOf(w, "c").cached[0].body != ViewOf(w.store)
  {
    var start := Start(Store(map[], map[], 0, 0));
    var read := Next(Next(start, Ask("c")), Read("c"));
    w := Next(read, Restart(map[layer := [item]], map[]));
    assert ReaderOf(read, "c").cached == [Response(ETag(0, 0), ViewOf(start.store), 0)];
    assert layer in ViewOf(w.store).layers && layer !in ViewOf(start.store).layers;
  }

  /** A half-done fetch does hide its change: until the bump the old copy is
      confirmed although the layer holds something else. */
  lemma HalfDoneFetchHides(layer: string, item: Item) returns (w: World)
    ensures var start := Start(Store(map[], map[], 0, 0));
            w == Next(Next(Next(start, Ask("c")), Read("c")), FetchStore("f", map[layer := [item]]))
    ensures NotModified(w, "c") && ReaderOf(w, "c").cached[0].body != ViewOf(w.store)
    ensures !NotModified(Next(w, FetchBump("f")), "c")
  {
    var start := Start(Store(map[], map[], 0, 0));
    var read := Next(Next(start, Ask("c")), Read("c"));
    w := Next(read, FetchStore("f", map[layer := [item]]));
    assert ReaderOf(w, "c").cached == [Response(ETag(0, 0), ViewOf(start.store), 0)];
    assert layer in ViewOf(w.store).layers && layer !in ViewOf(start.store).layers;
  }

  /** Equal ETags on two responses do not mean equal bodies, because the ETag is taken
      before the data is read; the newer body is merely sent again on the next request. */
  lemma SameETagOtherBody(point: Item) returns (w: World)
    ensures var start := Start(Store(map[], map[], 0, 0));
            var first := Next(Next(start, Ask("a")), Read("a"));
            w == Next(Next(Next(first, Ask("b")), Finish(Telemetry(point))), Read("b"))
    ensures var a, b := ReaderOf(w, "a").cached, ReaderOf(w, "b").cached;
            |a| == |b| == 1 && a[0].etag == b[0].etag && a[0].body != b[0].body
    ensures !NotModified(w, "a") && !NotModified(w, "b")
  {
    var start := Start(Store(map[], map[], 0, 0));
    var asked := Next(Next(Next(start, Ask("a")), Read("a")), Ask("b"));
    assert ReaderOf(asked, "a").cached == [Response(ETag(0, 0), ViewOf(start.store), 0)];
    assert ReaderOf(asked, "b").taken == [ETag(0, 0)];
    var written := Next(asked, Finish(Telemetry(point)));
    w := Next(written, Read("b"));
    assert TELEMETRY_LAYER in ViewOf(written.store).layers;
  }

  /** The steps leave a client's reader alone. */
  predicate Untouched(steps: seq<Step>, c: Client) {
    forall i :: 0 <= i < |steps| ==> steps[i] != Ask(c) && steps[i] != Read(c) && !steps[i].Restart?
  }

  lemma {:induction false} ReaderStays(w: World, steps: seq<Step>, c: Client)
    requires Untouched(steps, c)
    ensures ReaderOf(Run(w, steps), c) == ReaderOf(w, c)
  {
    if steps != [] {
      var front := steps[..|steps| - 1];
      assert forall i :: 0 <= i < |front| ==> front[i] == steps[i];
      ReaderStays(w, front, c);
      assert steps[|steps| - 1] != Ask(c) && steps[|steps| - 1] != Read(c) && !steps[|steps| - 1].Restart?;
    }
  }

  /** Two responses with one ETag, the second one asked for while the first was current and
      no fetch was half done: their bodies are equal exactly when what readers see is the
      same at the second reader's read as when it took its ETag. */
  lemma BodiesAgreeExactly(w: World, a: Client, b: Client, steps: seq<Step>)
    requires Inv(w) && w.unbumped == {} && a != b && Untouched(steps, a) && Untouched(steps, b)
    requires ReaderOf(w, a).cached != [] && ReaderOf(w, a).cached[0].boot == w.boot
    requires ReaderOf(w, a).cached[0].etag == CurrentETag(w.store) && !NotModified(w, b)
    ensures var late := Run(Next(w, Ask(b)), steps);
      var end := Next(late, Read(b));
      && |ReaderOf(end, a).cached| == |ReaderOf(end, b).cached| == 1
      && ReaderOf(end, a).cached[0].etag == ReaderOf(end, b).cached[0].etag
      && (ReaderOf(end, a).cached[0].body == ReaderOf(end, b).cached[0].body
          <==> ViewOf(w.store) == ViewOf(late.store))
  {
    assert ReaderInv(w.store, w.unbumped, w.boot, ReaderOf(w, a));
    ReaderStays(Next(w, Ask(b)), steps, a);
    ReaderStays(Next(w, Ask(b)), steps, b);
  }

  /** In every run a reader that finds its ETag still current when it reads, with no fetch
      half done, gets the body of every copy from this start with that ETag. */
  lemma InTimeBodiesAgree(s: Store, steps: seq<Step>, a: Client, b: Client)
    requires var w := Run(Start(s), steps);
      && w.unbumped == {} && a != b
      && ReaderOf(w, b).taken == [CurrentETag(w.store)]
      && ReaderOf(w, a).cached != [] && ReaderOf(w, a).cached[0].boot == w.boot
      && ReaderOf(w, a).cached[0].etag == CurrentETag(w.store)
    ensures var end := Next(Run(Start(s), steps), Read(b));
      && |ReaderOf(end, b).cached| == 1 && ReaderOf(end, a).cached != []
      && ReaderOf(end, b).cached[0] == ReaderOf(end, a).cached[0]
  {
    RunKeeps(Start(s), steps);
  }
}
