/** Compressed snapshots and their expansion for playback (backend/routers/ai_intel.py). */
module TimeMachine {
  datatype Option<T> = None | Some(value: T)

  /** A JSON value; numbers are exact. */
  datatype Value =
    | Null
    | Bool(b: bool)
    | Num(x: real)
    | Str(s: string)
    | List(items: seq<Value>)
    | Dict(fields: map<string, Value>)

  /** Dictionary keys: one constructor for each name in the tables below, and any other. */
  datatype Key =
    | Cs | Callsign | Lat | Lng | Alt | Hdg | Heading | Tt | Type | Ic | Icao24 | Reg | Registration | Owner
    | Mmsi | Nm | Name | St | ShipType | Id | NoradId | Title | Rs | RiskScore | Pd | PubDate | Src | SourceName
    | Mag | Magnitude | Sev | Severity | Ev | Event | Frp | Conf | Confidence | Cat | Category | OtherKey(name: string)

  type Entity = map<Key, Value>

  /** A dictionary in insertion order, as the compressors build it. */
  type Compressed = seq<(Key, Value)>

  predicate Truthy(v: Value) {
    match v
    case Null => false
    case Bool(b) => b
    case Num(x) => x != 0.0
    case Str(s) => s != ""
    case List(items) => items != []
    case Dict(fields) => fields != map[]
  }

  function Get(e: Entity, key: Key): Value { if key in e then e[key] else Null }

  /** The nearest integer, ties to even. */
  function Nearest(x: real): int {
    var down := x.Floor;
    var part := x - down as real;
    if part < 0.5 || (part == 0.5 && down % 2 == 0) then down else down + 1
  }

  function Times(x: real, scale: nat): real { x * scale as real }

  function Over(n: int, scale: nat): real
    requires scale > 0
  {
    n as real / scale as real
  }

  function RoundTo(x: real, scale: nat): real
    requires scale > 0
  {
    Over(Nearest(Times(x, scale)), scale)
  }

  /** Text that the float constructor accepts, and the number it gives. */
  type Parser = string -> Option<real>

  function Rounded(v: Value, scale: nat, parse: Parser): Value
    requires scale > 0
  {
    match v
    case Num(x) => Num(RoundTo(x, scale))
    case Bool(b) => Num(if b then 1.0 else 0.0)
    case Str(s) => (match parse(s) case None => Null case Some(x) => Num(RoundTo(x, scale)))
    case _ => Null
  }

  /** The first n characters or items; None stands for the exception that slicing
      anything else raises. */
  function Cut(v: Value, n: nat): Option<Value> {
    if !Truthy(v) then Some(Null)
    else
      match v
      case Str(s) => Some(if n == 0 then Null else Str(if |s| <= n then s else s[..n]))
      case List(items) => Some(if n == 0 then Null else List(if |items| <= n then items else items[..n]))
      case _ => None
  }

  // ---------------------------------------------------------------- tables

  datatype Kind = Plain | Round(scale: nat) | Short(n: nat)

  /** One emitted key: where it comes from and what is kept of it. The second source is
      used when the first one is falsy. */
  datatype Rule = Rule(short: Key, full: Key, other: Option<Key>, kind: Kind)

  datatype Layer =
    | MilitaryFlights | TrackedFlights | PrivateJets | CommercialFlights | Ships | Satellites
    | News | Earthquakes | WeatherAlerts | FirmsFires | Crowdthreat | Unlisted

  function Keep(short: Key, full: Key): Rule { Rule(short, full, None, Plain) }

  function Coord(key: Key): Rule { Rule(key, key, None, Round(1000)) }

  function Text(short: Key, full: Key, n: nat): Rule { Rule(short, full, None, Short(n)) }

  function Rules(layer: Layer): (rules: seq<Rule>)
    ensures GoodRules(rules)
  {
    match layer
    case MilitaryFlights =>
      [Keep(Cs, Callsign), Coord(Lat), Coord(Lng), Keep(Alt, Alt), Keep(Hdg, Heading),
       Keep(Tt, Type), Keep(Ic, Icao24)]
    case TrackedFlights =>
      [Keep(Cs, Callsign), Coord(Lat), Coord(Lng), Keep(Alt, Alt), Keep(Hdg, Heading),
       Keep(Ic, Icao24), Keep(Reg, Registration)]
    case PrivateJets =>
      [Keep(Cs, Callsign), Coord(Lat), Coord(Lng), Keep(Alt, Alt), Keep(Hdg, Heading),
       Keep(Ic, Icao24), Text(Owner, Owner, 60)]
    case CommercialFlights =>
      [Keep(Cs, Callsign), Coord(Lat), Coord(Lng), Keep(Alt, Alt), Keep(Hdg, Heading)]
    case Ships =>
      [Keep(Mmsi, Mmsi), Text(Nm, Name, 40), Coord(Lat), Coord(Lng), Keep(Hdg, Heading),
       Keep(St, ShipType)]
    case Satellites =>
      [Rule(Id, Id, Some(NoradId), Plain), Text(Nm, Name, 40), Coord(Lat), Coord(Lng),
       Rule(Alt, Alt, None, Round(10))]
    case News =>
      [Text(Tt, Title, 80), Coord(Lat), Coord(Lng), Keep(Rs, RiskScore), Keep(Pd, PubDate),
       Text(Src, SourceName, 30)]
    case Earthquakes =>
      [Keep(Id, Id), Coord(Lat), Coord(Lng), Keep(Mag, Magnitude), Text(Tt, Title, 60)]
    case WeatherAlerts =>
      [Keep(Id, Id), Coord(Lat), Coord(Lng), Keep(Sev, Severity), Text(Ev, Event, 40)]
    case FirmsFires =>
      [Coord(Lat), Coord(Lng), Keep(Frp, Frp), Keep(Conf, Confidence)]
    case Crowdthreat =>
      [Keep(Id, Id), Coord(Lat), Coord(Lng), Text(Tt, Title, 60), Keep(Cat, Category)]
    case Unlisted =>
      [Keep(Id, Id), Coord(Lat), Coord(Lng), Rule(Nm, Name, Some(Title), Short(60))]
  }

  function ExpandMap(layer: Layer): map<Key, Key> {
    match layer
    case MilitaryFlights =>
      map[Cs := Callsign, Lng := Lng, Lat := Lat, Alt := Alt, Hdg := Heading, Tt := Type,
        Ic := Icao24]
    case TrackedFlights =>
      map[Cs := Callsign, Lng := Lng, Lat := Lat, Alt := Alt, Hdg := Heading, Ic := Icao24,
        Reg := Registration]
    case PrivateJets =>
      map[Cs := Callsign, Lng := Lng, Lat := Lat, Alt := Alt, Hdg := Heading, Ic := Icao24,
        Owner := Owner]
    case CommercialFlights =>
      map[Cs := Callsign, Lng := Lng, Lat := Lat, Alt := Alt, Hdg := Heading]
    case Ships =>
      map[Mmsi := Mmsi, Nm := Name, Lng := Lng, Lat := Lat, Hdg := Heading, St := ShipType]
    case Satellites =>
      map[Id := Id, Nm := Name, Lng := Lng, Lat := Lat, Alt := Alt]
    case News =>
      map[Tt := Title, Lng := Lng, Lat := Lat, Rs := RiskScore, Pd := PubDate, Src := SourceName]
    case Earthquakes =>
      map[Id := Id, Lng := Lng, Lat := Lat, Mag := Magnitude, Tt := Title]
    case WeatherAlerts =>
      map[Id := Id, Lng := Lng, Lat := Lat, Sev := Severity, Ev := Event]
    case FirmsFires =>
      map[Lng := Lng, Lat := Lat, Frp := Frp, Conf := Confidence]
    case Crowdthreat =>
      map[Id := Id, Lng := Lng, Lat := Lat, Tt := Title, Cat := Category]
    case Unlisted => map[]
  }

  function FullKey(layer: Layer, short: Key): Key {
    if short in ExpandMap(layer) then ExpandMap(layer)[short] else short
  }

  // --------------------------------------------------------- the functions

  predicate GoodRule(r: Rule) { r.kind.Round? ==> r.kind.scale > 0 }

  function Source(r: Rule, e: Entity): Value {
    if r.other.Some? && !Truthy(Get(e, r.full)) then Get(e, r.other.value) else Get(e, r.full)
  }

  function Keeps(r: Rule, v: Value, parse: Parser): Option<Value>
    requires GoodRule(r)
  {
    match r.kind
    case Plain => Some(v)
    case Round(scale) => Some(Rounded(v, scale, parse))
    case Short(n) => Cut(v, n)
  }

  function Field(r: Rule, e: Entity, parse: Parser): Option<Value>
    requires GoodRule(r)
  {
    Keeps(r, Source(r, e), parse)
  }

  predicate GoodRules(rules: seq<Rule>) { forall r :: r in rules ==> GoodRule(r) }

  /** The compressed entity, without the keys whose value is null. */
  function Compress(rules: seq<Rule>, e: Entity, parse: Parser): Option<Compressed>
    requires GoodRules(rules)
  {
    if rules == [] then Some([])
    else
      var last := rules[|rules| - 1];
      var front := Compress(rules[..|rules| - 1], e, parse);
      var value := Field(last, e, parse);
      if front.None? || value.None? then None
      else if value.value.Null? then front
      else Some(front.value + [(last.short, value.value)])
  }

  /** Playback: each short key under its full name. */
  function Expand(layer: Layer, c: Compressed): Entity {
    if c == [] then map[]
    else
      var (short, v) := c[|c| - 1];
      Expand(layer, c[..|c| - 1])[FullKey(layer, short) := v]
  }

  method ExpandEntity(layer: Layer, c: Compressed) returns (expanded: Entity)
    ensures expanded == Expand(layer, c)
  {
    expanded := map[];
    for i := 0 to |c|
      invariant expanded == Expand(layer, c[..i])
    {
      assert c[..i + 1][..i] == c[..i];
      var (short, v) := c[i];
      expanded := expanded[FullKey(layer, short) := v];
    }
    assert c[..|c|] == c;
  }

  // ------------------------------------------------------------- the tables

  predicate Reads(layer: Layer, r: Rule) { FullKey(layer, r.short) == r.full && GoodRule(r) }

  predicate Differ(a: Rule, b: Rule) { a.short != b.short && a.full != b.full }

  predicate AllRead(layer: Layer, rules: seq<Rule>) { forall i :: 0 <= i < |rules| ==> Reads(layer, rules[i]) }

  predicate AllDiffer(rules: seq<Rule>) { forall i, j :: 0 <= i < j < |rules| ==> Differ(rules[i], rules[j]) }

  predicate GoodTable(layer: Layer, rules: seq<Rule>) { AllRead(layer, rules) && AllDiffer(rules) }

  lemma FlightsRead(layer: Layer)
    requires layer in {MilitaryFlights, TrackedFlights, PrivateJets, CommercialFlights}
    ensures AllRead(layer, Rules(layer))
  {
  }

  lemma TracksRead(layer: Layer)
    requires layer in {Ships, Satellites, FirmsFires}
    ensures AllRead(layer, Rules(layer))
  {
  }

  lemma EventsRead(layer: Layer)
    requires layer in {News, Earthquakes}
    ensures AllRead(layer, Rules(layer))
  {
  }

  lemma AlertsRead(layer: Layer)
    requires layer in {WeatherAlerts, Crowdthreat}
    ensures AllRead(layer, Rules(layer))
  {
  }

  lemma FlightsDiffer(layer: Layer)
    requires layer in {MilitaryFlights, TrackedFlights, PrivateJets, CommercialFlights}
    ensures AllDiffer(Rules(layer))
  {
  }

  lemma TracksDiffer(layer: Layer)
    requires layer in {Ships, Satellites, FirmsFires}
    ensures AllDiffer(Rules(layer))
  {
  }

  lemma EventsDiffer(layer: Layer)
    requires layer in {News, Earthquakes, WeatherAlerts, Crowdthreat}
    ensures AllDiffer(Rules(layer))
  {
  }

  /** In every layer with an expansion map the two tables are inverse to each other: each
      emitted short key expands to the name it came from, and no two share a name. */
  lemma Tables(layer: Layer)
    requires layer != Unlisted
    ensures GoodTable(layer, Rules(layer))
  {
    if layer in {MilitaryFlights, TrackedFlights, PrivateJets, CommercialFlights} {
      FlightsRead(layer);
      FlightsDiffer(layer);
    } else if layer in {Ships, Satellites, FirmsFires} {
      TracksRead(layer);
      TracksDiffer(layer);
    } else {
      if layer in {News, Earthquakes} {
        EventsRead(layer);
      } else {
        AlertsRead(layer);
      }
      EventsDiffer(layer);
    }
  }

  // ------------------------------------------------------------ the values

  lemma NearestOfInt(n: int)
    ensures Nearest(n as real) == n
  {
  }

  lemma TimesOver(n: int, scale: nat)
    requires scale > 0
    ensures Times(Over(n, scale), scale) == n as real
  {
  }

  lemma RoundTwice(x: real, scale: nat)
    requires scale > 0
    ensures RoundTo(RoundTo(x, scale), scale) == RoundTo(x, scale)
  {
    var n := Nearest(Times(x, scale));
    TimesOver(n, scale);
    NearestOfInt(n);
  }

  lemma BoolRounds(b: bool, scale: nat)
    requires scale > 0
    ensures RoundTo(if b then 1.0 else 0.0, scale) == if b then 1.0 else 0.0
  {
    var n := if b then scale else 0;
    NearestOfInt(n);
    assert Times(if b then 1.0 else 0.0, scale) == n as real;
  }

  /** What was kept of a value is kept whole the next time. */
  lemma KeptTwice(r: Rule, v: Value, parse: Parser)
    requires GoodRule(r) && Keeps(r, v, parse).Some?
    ensures Keeps(r, Keeps(r, v, parse).value, parse) == Keeps(r, v, parse)
  {
    match r.kind
    case Plain =>
    case Round(scale) =>
      match v {
        case Num(x) => RoundTwice(x, scale);
        case Bool(b) => BoolRounds(b, scale);
        case Str(s) =>
          if parse(s).Some? {
            RoundTwice(parse(s).value, scale);
          }
        case _ =>
      }
    case Short(n) =>
  }

  // ------------------------------------------------------ reading it again

  predicate FullUnused(rules: seq<Rule>, key: Key) { forall i :: 0 <= i < |rules| ==> rules[i].full != key }

  lemma UnusedFront(rules: seq<Rule>, key: Key)
    requires FullUnused(rules, key) && rules != []
    ensures FullUnused(rules[..|rules| - 1], key) && rules[|rules| - 1].full != key
  {
  }

  lemma GoodFront(layer: Layer, rules: seq<Rule>)
    requires GoodTable(layer, rules) && rules != []
    ensures GoodTable(layer, rules[..|rules| - 1])
    ensures FullUnused(rules[..|rules| - 1], rules[|rules| - 1].full)
  {
    var front := rules[..|rules| - 1];
    forall i | 0 <= i < |front|
      ensures Reads(layer, front[i]) && front[i].full != rules[|rules| - 1].full
    {
      assert Reads(layer, rules[i]) && Differ(rules[i], rules[|rules| - 1]);
    }
    forall i, j | 0 <= i < j < |front|
      ensures Differ(front[i], front[j])
    {
      assert Differ(rules[i], rules[j]);
    }
  }

  /** The expanded entity after one more rule. */
  lemma ExpandLast(layer: Layer, rules: seq<Rule>, e: Entity, parse: Parser, key: Key)
    requires GoodTable(layer, rules) && GoodRules(rules) && rules != []
    requires Compress(rules, e, parse).Some?
    ensures GoodRules(rules[..|rules| - 1]) && Compress(rules[..|rules| - 1], e, parse).Some?
    ensures Field(rules[|rules| - 1], e, parse).Some?
    ensures key != rules[|rules| - 1].full ==>
      Get(Expand(layer, Compress(rules, e, parse).value), key)
      == Get(Expand(layer, Compress(rules[..|rules| - 1], e, parse).value), key)
    ensures !Field(rules[|rules| - 1], e, parse).value.Null? ==>
      Get(Expand(layer, Compress(rules, e, parse).value), rules[|rules| - 1].full)
      == Field(rules[|rules| - 1], e, parse).value
    ensures Field(rules[|rules| - 1], e, parse).value.Null? ==>
      Compress(rules, e, parse) == Compress(rules[..|rules| - 1], e, parse)
  {
    var last := rules[|rules| - 1];
    assert Reads(layer, last);
    var c := Compress(rules, e, parse).value;
    var v := Field(last, e, parse).value;
    if !v.Null? {
      assert c[..|c| - 1] == Compress(rules[..|rules| - 1], e, parse).value;
      assert c[|c| - 1] == (last.short, v);
    }
  }

  lemma {:induction false} NotThere(layer: Layer, rules: seq<Rule>, e: Entity, parse: Parser, key: Key)
    requires GoodTable(layer, rules) && GoodRules(rules) && Compress(rules, e, parse).Some?
    requires FullUnused(rules, key)
    ensures Get(Expand(layer, Compress(rules, e, parse).value), key) == Null
  {
    if rules != [] {
      GoodFront(layer, rules);
      ExpandLast(layer, rules, e, parse, key);
      UnusedFront(rules, key);
      NotThere(layer, rules[..|rules| - 1], e, parse, key);
    }
  }

  /** The expanded entity holds under each full name what was emitted for it. */
  lemma {:induction false} Lookup(layer: Layer, rules: seq<Rule>, e: Entity, parse: Parser, k: nat)
    requires GoodTable(layer, rules) && GoodRules(rules) && Compress(rules, e, parse).Some? && k < |rules|
    ensures Field(rules[k], e, parse)
         == Some(Get(Expand(layer, Compress(rules, e, parse).value), rules[k].full))
  {
    var front, last := rules[..|rules| - 1], rules[|rules| - 1];
    GoodFront(layer, rules);
    ExpandLast(layer, rules, e, parse, rules[k].full);
    if k < |front| {
      assert front[k] == rules[k];
      assert rules[k].full != last.full;
      Lookup(layer, front, e, parse, k);
    } else if Field(last, e, parse).value.Null? {
      NotThere(layer, front, e, parse, last.full);
    }
  }

  predicate SameField(r: Rule, e: Entity, f: Entity, parse: Parser) {
    GoodRule(r) && Field(r, e, parse) == Field(r, f, parse)
  }

  predicate SameFields(rules: seq<Rule>, e: Entity, f: Entity, parse: Parser) {
    forall i :: 0 <= i < |rules| ==> SameField(rules[i], e, f, parse)
  }

  lemma {:induction false} SameCompressed(rules: seq<Rule>, e: Entity, f: Entity, parse: Parser)
    requires GoodRules(rules) && SameFields(rules, e, f, parse)
    ensures Compress(rules, e, parse) == Compress(rules, f, parse)
  {
    if rules != [] {
      var n := |rules| - 1;
      assert forall i :: 0 <= i < n ==> rules[..n][i] == rules[i];
      SameCompressed(rules[..n], e, f, parse);
      assert SameField(rules[n], e, f, parse);
    }
  }

  function Emitted(c: Compressed, short: Key): Value {
    if c == [] then Null
    else if c[|c| - 1].0 == short then c[|c| - 1].1
    else Emitted(c[..|c| - 1], short)
  }

  /** A compressed entity determines what every rule gave. */
  lemma {:induction false} EmittedIsField(layer: Layer, rules: seq<Rule>, e: Entity, parse: Parser, k: nat)
    requires GoodTable(layer, rules) && GoodRules(rules) && Compress(rules, e, parse).Some? && k < |rules|
    ensures Field(rules[k], e, parse) == Some(Emitted(Compress(rules, e, parse).value, rules[k].short))
  {
    var front, last := rules[..|rules| - 1], rules[|rules| - 1];
    GoodFront(layer, rules);
    var c := Compress(rules, e, parse).value;
    var v := Field(last, e, parse).value;
    assert !v.Null? ==> c[..|c| - 1] == Compress(front, e, parse).value;
    if k < |front| {
      assert front[k] == rules[k] && Differ(rules[k], last);
      EmittedIsField(layer, front, e, parse, k);
    } else if v.Null? {
      NotEmitted(front, e, parse, last.short) by {
        assert forall i :: 0 <= i < |front| ==> front[i] == rules[i] && Differ(rules[i], last);
      }
    }
  }

  lemma {:induction false} NotEmitted(rules: seq<Rule>, e: Entity, parse: Parser, short: Key)
    requires GoodRules(rules) && Compress(rules, e, parse).Some?
    requires forall i :: 0 <= i < |rules| ==> rules[i].short != short
    ensures Emitted(Compress(rules, e, parse).value, short) == Null
  {
    if rules != [] {
      var front, last := rules[..|rules| - 1], rules[|rules| - 1];
      assert last.short != short;
      assert forall i :: 0 <= i < |front| ==> front[i] == rules[i];
      NotEmitted(front, e, parse, short);
      var c := Compress(rules, e, parse).value;
      assert !Field(last, e, parse).value.Null? ==> c[..|c| - 1] == Compress(front, e, parse).value;
    }
  }

  // ------------------------------------------------------------ retraction

  /** The identifier that would be emitted is not a falsy one that is not null. */
  predicate IdSurvives(layer: Layer, e: Entity) {
    layer == Satellites ==> Truthy(Get(e, Id)) || Truthy(Get(e, NoradId)) || Get(e, NoradId) == Null
  }

  function Again(layer: Layer, e: Entity, parse: Parser): Option<Compressed>
    requires Compress(Rules(layer), e, parse).Some?
  {
    Compress(Rules(layer), Expand(layer, Compress(Rules(layer), e, parse).value), parse)
  }

  lemma FieldAgain(layer: Layer, e: Entity, parse: Parser, k: nat)
    requires layer != Unlisted && Compress(Rules(layer), e, parse).Some?
    requires k < |Rules(layer)|
    ensures var f := Expand(layer, Compress(Rules(layer), e, parse).value);
      SameField(Rules(layer)[k], e, f, parse) <==> (Rules(layer)[k].other.Some? ==> IdSurvives(layer, e))
  {
    var r := Rules(layer)[k];
    var f := Expand(layer, Compress(Rules(layer), e, parse).value);
    Tables(layer);
    Lookup(layer, Rules(layer), e, parse, k);
    KeptTwice(r, Source(r, e), parse);
    if r.other.Some? {
      OnlySatellites(layer, k);
      NotThere(layer, Rules(layer), e, parse, NoradId);
    }
  }

  lemma OnlySatellites(layer: Layer, k: nat)
    requires layer != Unlisted && k < |Rules(layer)| && Rules(layer)[k].other.Some?
    ensures layer == Satellites && k == 0 && FullUnused(Rules(layer), NoradId)
  {
  }

  /** Compressing an expanded entity gives the compressed entity back, key order included,
      except that a satellite loses an identifier that is falsy but not null. */
  lemma Retraction(layer: Layer, e: Entity, parse: Parser)
    requires layer != Unlisted
    ensures Compress(Rules(layer), e, parse).Some? ==>
      (Again(layer, e, parse) == Compress(Rules(layer), e, parse) <==> IdSurvives(layer, e))
  {
    Tables(layer);
    var rules := Rules(layer);
    if Compress(rules, e, parse).Some? {
      var f := Expand(layer, Compress(rules, e, parse).value);
      if IdSurvives(layer, e) {
        forall k | 0 <= k < |rules|
          ensures SameField(rules[k], e, f, parse)
        {
          FieldAgain(layer, e, parse, k);
        }
        SameCompressed(rules, e, f, parse);
      } else {
        FieldAgain(layer, e, parse, 0);
        if Again(layer, e, parse) == Compress(rules, e, parse) {
          EmittedIsField(layer, rules, e, parse, 0);
          EmittedIsField(layer, rules, f, parse, 0);
          assert false;
        }
      }
    }
  }

  /** A satellite numbered zero and without an id: the number is emitted, and lost when
      the expanded entity is compressed again. */
  lemma SatelliteZeroIsLost(parse: Parser)
    ensures var e: Entity := map[NoradId := Num(0.0)];
      Compress(Rules(Satellites), e, parse) == Some([(Id, Num(0.0))])
      && Again(Satellites, e, parse) != Compress(Rules(Satellites), e, parse)
  {
    var e: Entity := map[NoradId := Num(0.0)];
    Retraction(Satellites, e, parse);
    OnlyFirst(Rules(Satellites), e, parse);
    var r := Rules(Satellites)[0];
    assert Rules(Satellites)[..1] == [r];
    FirstOnly(r, e, parse);
  }

  lemma FirstOnly(r: Rule, e: Entity, parse: Parser)
    requires GoodRule(r) && Field(r, e, parse).Some? && !Field(r, e, parse).value.Null?
    ensures GoodRules([r]) && Compress([r], e, parse) == Some([(r.short, Field(r, e, parse).value)])
  {
    var rules := [r];
    assert rules[..|rules| - 1] == [] && rules[|rules| - 1] == r;
    assert Compress(rules[..|rules| - 1], e, parse) == Some([]);
    assert [] + [(r.short, Field(r, e, parse).value)] == [(r.short, Field(r, e, parse).value)];
  }

  lemma {:induction false} OnlyFirst(rules: seq<Rule>, e: Entity, parse: Parser)
    requires GoodRules(rules) && rules != []
    requires forall i :: 1 <= i < |rules| ==> Source(rules[i], e) == Null
    ensures Compress(rules, e, parse) == Compress(rules[..1], e, parse)
  {
    var n := |rules| - 1;
    if n == 0 {
      assert rules[..1] == rules;
    } else {
      assert forall i :: 0 <= i < n ==> rules[..n][i] == rules[i];
      assert rules[..n][..1] == rules[..1];
      OnlyFirst(rules[..n], e, parse);
    }
  }

  // ------------------------------------------------------------ whole layers

  /** A list of items; None is one that is not a dictionary, and is skipped. */
  function CompressLayer(layer: Layer, data: seq<Option<Entity>>, parse: Parser): Option<seq<Compressed>>
  {
    if data == [] then Some([])
    else
      var front := CompressLayer(layer, data[..|data| - 1], parse);
      var last := data[|data| - 1];
      if last.None? then front
      else
        var c := Compress(Rules(layer), last.value, parse);
        if front.None? || c.None? then None else Some(front.value + [c.value])
  }

  method CompressLayerData(layer: Layer, data: seq<Option<Entity>>, parse: Parser)
    returns (compressed: Option<seq<Compressed>>)
    ensures compressed == CompressLayer(layer, data, parse)
  {
    compressed := Some([]);
    for i := 0 to |data|
      invariant compressed.Some? && compressed == CompressLayer(layer, data[..i], parse)
    {
      assert data[..i + 1][..i] == data[..i];
      if data[i].Some? {
        var c := Compress(Rules(layer), data[i].value, parse);
        if c.None? {
          RaiseStays(layer, data, parse, i + 1);
          return None;
        }
        compressed := Some(compressed.value + [c.value]);
      }
    }
    assert data[..|data|] == data;
  }

  lemma {:induction false} RaiseStays(layer: Layer, data: seq<Option<Entity>>, parse: Parser, i: nat)
    requires i <= |data| && CompressLayer(layer, data[..i], parse) == None
    ensures CompressLayer(layer, data, parse) == None
  {
    if i == |data| {
      assert data[..i] == data;
    } else {
      assert data[..|data| - 1][..i] == data[..i];
      RaiseStays(layer, data[..|data| - 1], parse, i);
    }
  }

  /** A list of dictionaries keeps its length and order. */
  lemma {:induction false} LayerKeepsOrder(layer: Layer, data: seq<Option<Entity>>, parse: Parser, k: nat)
    requires CompressLayer(layer, data, parse).Some?
    requires forall i :: 0 <= i < |data| ==> data[i].Some?
    ensures |CompressLayer(layer, data, parse).value| == |data|
    ensures k < |data| ==>
      Compress(Rules(layer), data[k].value, parse) == Some(CompressLayer(layer, data, parse).value[k])
  {
    if data != [] {
      var front := data[..|data| - 1];
      assert forall i :: 0 <= i < |front| ==> front[i] == data[i];
      LayerKeepsOrder(layer, front, parse, k);
    }
  }

  function ExpandLayer(layer: Layer, cs: seq<Compressed>): seq<Option<Entity>> {
    seq(|cs|, i requires 0 <= i < |cs| => Some(Expand(layer, cs[i])))
  }

  predicate AllSurvive(layer: Layer, data: seq<Option<Entity>>) {
    data == []
    || (AllSurvive(layer, data[..|data| - 1])
        && (data[|data| - 1].Some? ==> IdSurvives(layer, data[|data| - 1].value)))
  }

  lemma ExpandSnoc(layer: Layer, cs: seq<Compressed>, c: Compressed)
    ensures ExpandLayer(layer, cs + [c]) == ExpandLayer(layer, cs) + [Some(Expand(layer, c))]
  {
  }

  lemma CompressSnoc(layer: Layer, data: seq<Option<Entity>>, e: Entity, parse: Parser)
    ensures CompressLayer(layer, data + [Some(e)], parse)
         == if CompressLayer(layer, data, parse).None? || Compress(Rules(layer), e, parse).None? then None
            else Some(CompressLayer(layer, data, parse).value + [Compress(Rules(layer), e, parse).value])
  {
    assert (data + [Some(e)])[..|data|] == data;
  }

  predicate SameAgain(layer: Layer, data: seq<Option<Entity>>, parse: Parser)
    requires CompressLayer(layer, data, parse).Some?
  {
    var cs := CompressLayer(layer, data, parse);
    CompressLayer(layer, ExpandLayer(layer, cs.value), parse) == cs
  }

  /** A snapshot that is played back and compressed again is the same snapshot exactly
      when no satellite in it has a falsy identifier. */
  lemma {:induction false} LayerRetraction(layer: Layer, data: seq<Option<Entity>>, parse: Parser)
    requires layer != Unlisted && CompressLayer(layer, data, parse).Some?
    ensures SameAgain(layer, data, parse) <==> AllSurvive(layer, data)
  {
    if data != [] {
      var front, last := data[..|data| - 1], data[|data| - 1];
      LayerRetraction(layer, front, parse);
      if last.Some? {
        var cs := CompressLayer(layer, front, parse).value;
        var c := Compress(Rules(layer), last.value, parse).value;
        ExpandSnoc(layer, cs, c);
        CompressSnoc(layer, ExpandLayer(layer, cs), Expand(layer, c), parse);
        Retraction(layer, last.value, parse);
        var again := CompressLayer(layer, ExpandLayer(layer, cs), parse);
        var one := Again(layer, last.value, parse);
        if again.Some? && one.Some? {
          SameLast(again.value, one.value, cs, c);
        }
      }
    }
  }

  lemma SameLast<T>(a: seq<T>, x: T, b: seq<T>, y: T)
    ensures a + [x] == b + [y] <==> a == b && x == y
  {
    if a + [x] == b + [y] {
      assert a == (a + [x])[..|a|] && b == (b + [y])[..|b|];
      assert (a + [x])[|a|] == x && (b + [y])[|b|] == y;
    }
  }
}
