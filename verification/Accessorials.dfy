/**
 backend/accessorial/accessorial.go and backend/handlers/logistics_accessorial.go: which extra
 charges a catalogue puts on a shipment, their amounts, and their tax.

 Amounts are exact reals. Rule documents are JSON objects restricted to the keys the parser
 looks at; case folding is ASCII.
 */
module Accessorials {
  import opened Rounding
  import Strings

  datatype Option<+T> = None | Some(value: T)

  // ---- Rule documents ----

  datatype Key =
    | TypeKey | ConditionsKey | TaxableKey | CurrencyKey | AmountKey | PercentageKey | BasisKey
    | RateKey | FreeKmKey | MaxKmKey | FreeKgKey | ExcludeFirstKey
    | MinDistanceKm | MaxDistanceKm | MinWeightKg | MaxWeightKg | MinStops
    | VehicleTypes | ShipmentTypes | RequiresHazmat | RequiresCustoms | RequiresCrossBorder

  datatype Json =
    | Null | Str(s: string) | Num(n: real) | Bool(b: bool) | Arr(items: seq<Json>) | Obj(fields: map<Key, Json>)

  datatype Basis = BaseRate | CargoValue | Subtotal

  datatype Tariff =
    | Flat(amount: real)
    | Percentage(basis: Basis, percentage: real)
    | PerKm(rate: real, freeKm: Option<real>, maxKm: Option<real>)
    | PerKg(rate: real, freeKg: Option<real>)
    | PerStop(rate: real, excludeFirst: bool)

  datatype Conditions = Conditions(
    minDistanceKm: Option<real>, maxDistanceKm: Option<real>,
    minWeightKg: Option<real>, maxWeightKg: Option<real>, minStops: Option<real>,
    vehicleTypes: seq<string>, shipmentTypes: seq<string>,
    requiresHazmat: Option<bool>, requiresCustoms: Option<bool>, requiresCrossBorder: Option<bool>)

  /** taxable is None when the document has no such key. */
  datatype Rule = Rule(tariff: Tariff, conditions: Option<Conditions>, taxable: Option<bool>, currency: Option<string>)

  datatype Context = Context(
    baseRate: Option<real>, subtotal: Option<real>, cargoValue: Option<real>,
    distanceKm: Option<real>, weightKg: Option<real>, stopsCount: Option<real>,
    vehicleType: Option<string>, shipmentType: Option<string>,
    isHazmat: bool, requiresCustoms: bool,
    originCountry: Option<string>, destinationCountry: Option<string>)

  function Get(fields: map<Key, Json>, k: Key): Json {
    if k in fields then fields[k] else Null
  }

  function AsFloat(j: Json): Option<real> {
    if j.Num? then Some(j.n) else None
  }

  function AsString(j: Json): Option<string> {
    if j.Str? then Some(j.s) else None
  }

  function AsBool(j: Json): Option<bool> {
    if j.Bool? then Some(j.b) else None
  }

  function StringsIn(items: seq<Json>): seq<string> {
    if items == [] then [] else (if items[0].Str? then [items[0].s] else []) + StringsIn(items[1..])
  }

  function AsStringSlice(j: Json): seq<string> {
    if j.Arr? then StringsIn(j.items) else []
  }

  function ParseConditions(c: map<Key, Json>): Conditions {
    Conditions(
      AsFloat(Get(c, MinDistanceKm)), AsFloat(Get(c, MaxDistanceKm)),
      AsFloat(Get(c, MinWeightKg)), AsFloat(Get(c, MaxWeightKg)), AsFloat(Get(c, MinStops)),
      AsStringSlice(Get(c, VehicleTypes)), AsStringSlice(Get(c, ShipmentTypes)),
      AsBool(Get(c, RequiresHazmat)), AsBool(Get(c, RequiresCustoms)), AsBool(Get(c, RequiresCrossBorder)))
  }

  function ParseBasis(basis: Option<string>): Option<Basis> {
    if basis == Some("base_rate") then Some(BaseRate)
    else if basis == Some("cargo_value") then Some(CargoValue)
    else if basis == Some("subtotal") then Some(Subtotal)
    else None
  }

  function ParseTariff(kind: string, raw: map<Key, Json>): Option<Tariff> {
    var amount, percentage, rate :=
      AsFloat(Get(raw, AmountKey)), AsFloat(Get(raw, PercentageKey)), AsFloat(Get(raw, RateKey));
    if kind == "flat" then if amount.Some? then Some(Flat(amount.value)) else None
    else if kind == "percentage" then
      var basis := ParseBasis(AsString(Get(raw, BasisKey)));
      if percentage.Some? && basis.Some? then Some(Percentage(basis.value, percentage.value)) else None
    else if rate.None? then None
    else if kind == "per_km" then Some(PerKm(rate.value, AsFloat(Get(raw, FreeKmKey)), AsFloat(Get(raw, MaxKmKey))))
    else if kind == "per_kg" then Some(PerKg(rate.value, AsFloat(Get(raw, FreeKgKey))))
    else if kind == "per_stop" then Some(PerStop(rate.value, AsBool(Get(raw, ExcludeFirstKey)) == Some(true)))
    else None
  }

  /** None when the document is missing, untyped, or lacks the number its type needs. */
  function ParseRule(raw: Option<map<Key, Json>>): Option<Rule> {
    if raw.None? || !Get(raw.value, TypeKey).Str? then None
    else
      var fields := raw.value;
      var tariff := ParseTariff(fields[TypeKey].s, fields);
      if tariff.None? then None
      else Some(Rule(
        tariff.value,
        if Get(fields, ConditionsKey).Obj? then Some(ParseConditions(fields[ConditionsKey].fields)) else None,
        if TaxableKey in fields then Some(fields[TaxableKey] != Bool(false)) else None,
        AsString(Get(fields, CurrencyKey))))
  }

  // ---- What the parser accepts ----

  /** The number a rule of this type cannot do without; None for a type there is not. */
  function NumberKey(kind: string): Option<Key> {
    if kind == "flat" then Some(AmountKey)
    else if kind == "percentage" then Some(PercentageKey)
    else if kind == "per_km" || kind == "per_kg" || kind == "per_stop" then Some(RateKey)
    else None
  }

  predicate IsBasis(j: Json) {
    j == Str("base_rate") || j == Str("cargo_value") || j == Str("subtotal")
  }

  /** A document is a rule exactly when its type is known, its number is there, and a percentage says of what. */
  lemma ParseRuleAcceptsExactly(raw: Option<map<Key, Json>>)
    ensures ParseRule(raw).Some? <==>
      && raw.Some? && Get(raw.value, TypeKey).Str?
      && var kind := Get(raw.value, TypeKey).s;
      && NumberKey(kind).Some? && Get(raw.value, NumberKey(kind).value).Num?
      && (kind == "percentage" ==> IsBasis(Get(raw.value, BasisKey)))
  {
  }

  /** The keys a rule may or may not have. */
  const OPTIONAL := {ConditionsKey, CurrencyKey, FreeKmKey, MaxKmKey, FreeKgKey, ExcludeFirstKey}

  /** What an optional key must hold to be taken notice of. */
  predicate Sensible(k: Key, j: Json) {
    match k
    case ConditionsKey => j.Obj?
    case CurrencyKey => j.Str?
    case ExcludeFirstKey => j.Bool?
    case _ => j.Num?
  }

  /** Garbage under an optional key never costs the rule: it is as if the key were not there. */
  lemma GarbageIsAbsence(fields: map<Key, Json>, k: Key)
    requires k in OPTIONAL && k in fields && !Sensible(k, fields[k])
    ensures ParseRule(Some(fields)) == ParseRule(Some(fields - {k}))
  {
    assert Get(fields - {k}, TypeKey) == Get(fields, TypeKey);
    if Get(fields, TypeKey).Str? {
      GarbageIsNoTariff(fields[TypeKey].s, fields, k);
    }
  }

  lemma GarbageIsNoTariff(kind: string, fields: map<Key, Json>, k: Key)
    requires k in OPTIONAL && k in fields && !Sensible(k, fields[k])
    ensures ParseTariff(kind, fields) == ParseTariff(kind, fields - {k})
  {
  }

  predicate SensibleCondition(k: Key, j: Json) {
    match k
    case VehicleTypes => j.Arr?
    case ShipmentTypes => j.Arr?
    case RequiresHazmat => j.Bool?
    case RequiresCustoms => j.Bool?
    case RequiresCrossBorder => j.Bool?
    case _ => j.Num?
  }

  /** The same among the conditions: what cannot be read is no condition. */
  lemma GarbageIsNoCondition(c: map<Key, Json>, k: Key)
    requires k in c && !SensibleCondition(k, c[k])
    ensures ParseConditions(c) == ParseConditions(c - {k})
  {
  }

  /** The document holds this number under the key, when the rule has one. */
  predicate SaysNumber(fields: map<Key, Json>, k: Key, x: Option<real>) {
    x.Some? ==> Get(fields, k) == Num(x.value)
  }

  predicate SaysTruth(fields: map<Key, Json>, k: Key, b: Option<bool>) {
    b.Some? ==> Get(fields, k) == Bool(b.value)
  }

  /** Nothing is in a tariff that its document does not say, each thing under its own key. */
  lemma TariffsSayWhatTheirDocumentsSay(fields: map<Key, Json>)
    requires ParseRule(Some(fields)).Some?
    ensures match ParseRule(Some(fields)).value.tariff
      case Flat(amount) => Get(fields, TypeKey) == Str("flat") && Get(fields, AmountKey) == Num(amount)
      case Percentage(basis, percentage) =>
        && Get(fields, TypeKey) == Str("percentage") && Get(fields, PercentageKey) == Num(percentage)
        && ParseBasis(AsString(Get(fields, BasisKey))) == Some(basis)
      case PerKm(rate, freeKm, maxKm) =>
        && Get(fields, TypeKey) == Str("per_km") && Get(fields, RateKey) == Num(rate)
        && SaysNumber(fields, FreeKmKey, freeKm) && SaysNumber(fields, MaxKmKey, maxKm)
      case PerKg(rate, freeKg) =>
        Get(fields, TypeKey) == Str("per_kg") && Get(fields, RateKey) == Num(rate)
          && SaysNumber(fields, FreeKgKey, freeKg)
      case PerStop(rate, excludeFirst) =>
        && Get(fields, TypeKey) == Str("per_stop") && Get(fields, RateKey) == Num(rate)
        && (excludeFirst <==> Get(fields, ExcludeFirstKey) == Bool(true))
  {
  }

  lemma ConditionsSayWhatTheirDocumentsSay(fields: map<Key, Json>)
    ensures var c := ParseConditions(fields);
      && SaysNumber(fields, MinDistanceKm, c.minDistanceKm) && SaysNumber(fields, MaxDistanceKm, c.maxDistanceKm)
      && SaysNumber(fields, MinWeightKg, c.minWeightKg) && SaysNumber(fields, MaxWeightKg, c.maxWeightKg)
      && SaysNumber(fields, MinStops, c.minStops)
      && SaysTruth(fields, RequiresHazmat, c.requiresHazmat) && SaysTruth(fields, RequiresCustoms, c.requiresCustoms)
      && SaysTruth(fields, RequiresCrossBorder, c.requiresCrossBorder)
      && (forall v | v in c.vehicleTypes :: Get(fields, VehicleTypes).Arr? && Str(v) in Get(fields, VehicleTypes).items)
      && (forall v | v in c.shipmentTypes ::
        Get(fields, ShipmentTypes).Arr? && Str(v) in Get(fields, ShipmentTypes).items)
  {
    forall items, v | v in StringsIn(items)
      ensures Str(v) in items
    {
      StringsAreItems(items, v);
    }
  }

  lemma {:induction false} StringsAreItems(items: seq<Json>, v: string)
    ensures v in StringsIn(items) <==> Str(v) in items
  {
    if items != [] {
      StringsAreItems(items[1..], v);
      assert items == [items[0]] + items[1..];
    }
  }

  // ---- Conditions ----

  function N0(x: Option<real>): real {
    if x.Some? then x.value else 0.0
  }

  function S0(s: Option<string>): string {
    if s.Some? then s.value else ""
  }

  predicate ContainsFold(list: seq<string>, upper: string) {
    exists t | t in list :: Strings.ToUpper(t) == upper
  }

  /** Why a rule's gate is shut: the first condition that fails. */
  datatype Failing = TooNear | TooFar | TooLight | TooHeavy | TooFewStops | WrongVehicle | WrongShipmentType
                   | NotHazmat | NoCustoms | NotCrossBorder

  predicate Violates(f: Failing, c: Conditions, ctx: Context) {
    match f
    case TooNear => c.minDistanceKm.Some? && N0(ctx.distanceKm) < c.minDistanceKm.value
    case TooFar => c.maxDistanceKm.Some? && N0(ctx.distanceKm) > c.maxDistanceKm.value
    case TooLight => c.minWeightKg.Some? && N0(ctx.weightKg) < c.minWeightKg.value
    case TooHeavy => c.maxWeightKg.Some? && N0(ctx.weightKg) > c.maxWeightKg.value
    case TooFewStops => c.minStops.Some? && N0(ctx.stopsCount) < c.minStops.value
    case WrongVehicle => c.vehicleTypes != [] && !ContainsFold(c.vehicleTypes, Strings.ToUpper(S0(ctx.vehicleType)))
    case WrongShipmentType => c.shipmentTypes != []
      && !ContainsFold(c.shipmentTypes, Strings.ToUpper(S0(ctx.shipmentType)))
    case NotHazmat => c.requiresHazmat == Some(true) && !ctx.isHazmat
    case NoCustoms => c.requiresCustoms == Some(true) && !ctx.requiresCustoms
    case NotCrossBorder =>
      c.requiresCrossBorder == Some(true)
      && (|| S0(ctx.originCountry) == ""
          || S0(ctx.destinationCountry) == ""
          || Strings.ToUpper(S0(ctx.originCountry)) == Strings.ToUpper(S0(ctx.destinationCountry)))
  }

  /** reason is None exactly when ok. */
  method ConditionsHold(cond: Option<Conditions>, ctx: Context) returns (ok: bool, reason: Option<Failing>)
    ensures ok <==> reason.None?
    ensures reason.Some? ==> cond.Some? && IsFirst(reason.value, cond.value, ctx)
    ensures ok ==> Gate(cond, ctx)
  {
    if cond.None? {
      return true, None;
    }
    reason := NumbersHold(cond.value, ctx);
    if reason.None? {
      reason := TextsHold(cond.value, ctx);
    }
    ok := reason.None?;
  }

  /** The condition fails, and none before it does. */
  ghost predicate IsFirst(reason: Failing, c: Conditions, ctx: Context) {
    Violates(reason, c, ctx) && forall f :: Violates(f, c, ctx) ==> Order(reason) <= Order(f)
  }

  /** The distance, weight and stop limits. */
  method NumbersHold(c: Conditions, ctx: Context) returns (reason: Option<Failing>)
    ensures reason.Some? ==> IsFirst(reason.value, c, ctx)
    ensures reason.None? ==> forall f | Order(f) <= 4 :: !Violates(f, c, ctx)
  {
    if c.minDistanceKm.Some? && N0(ctx.distanceKm) < c.minDistanceKm.value {
      return Some(TooNear);
    }
    if c.maxDistanceKm.Some? && N0(ctx.distanceKm) > c.maxDistanceKm.value {
      return Some(TooFar);
    }
    if c.minWeightKg.Some? && N0(ctx.weightKg) < c.minWeightKg.value {
      return Some(TooLight);
    }
    if c.maxWeightKg.Some? && N0(ctx.weightKg) > c.maxWeightKg.value {
      return Some(TooHeavy);
    }
    if c.minStops.Some? && N0(ctx.stopsCount) < c.minStops.value {
      return Some(TooFewStops);
    }
    return None;
  }

  /** The vehicle and shipment types, and what the shipment must be. */
  method TextsHold(c: Conditions, ctx: Context) returns (reason: Option<Failing>)
    requires forall f | Order(f) <= 4 :: !Violates(f, c, ctx)
    ensures reason.Some? ==> IsFirst(reason.value, c, ctx)
    ensures reason.None? ==> forall f :: !Violates(f, c, ctx)
  {
    if |c.vehicleTypes| > 0 {
      var v := Strings.ToUpper(S0(ctx.vehicleType));
      if !ContainsFold(c.vehicleTypes, v) {
        return Some(WrongVehicle);
      }
    }
    if |c.shipmentTypes| > 0 {
      var s := Strings.ToUpper(S0(ctx.shipmentType));
      if !ContainsFold(c.shipmentTypes, s) {
        return Some(WrongShipmentType);
      }
    }
    if c.requiresHazmat == Some(true) && !ctx.isHazmat {
      return Some(NotHazmat);
    }
    if c.requiresCustoms == Some(true) && !ctx.requiresCustoms {
      return Some(NoCustoms);
    }
    if c.requiresCrossBorder == Some(true) {
      var o, d := Strings.ToUpper(S0(ctx.originCountry)), Strings.ToUpper(S0(ctx.destinationCountry));
      if o == "" || d == "" || o == d {
        return Some(NotCrossBorder);
      }
    }
    return None;
  }

  function Order(f: Failing): nat {
    match f
    case TooNear => 0 case TooFar => 1 case TooLight => 2 case TooHeavy => 3 case TooFewStops => 4
    case WrongVehicle => 5 case WrongShipmentType => 6 case NotHazmat => 7 case NoCustoms => 8 case NotCrossBorder => 9
  }

  /** No populated condition fails. */
  ghost predicate Gate(cond: Option<Conditions>, ctx: Context) {
    cond.Some? ==> forall f :: !Violates(f, cond.value, ctx)
  }

  /** The shipment's text is one of those the document lists, in any letter case; a missing one counts as empty. */
  predicate Listed(items: seq<Json>, text: Option<string>) {
    exists j | j in items :: j.Str? && Strings.EqualFold(j.s, S0(text))
  }

  predicate SaysTrue(c: map<Key, Json>, k: Key) {
    Get(c, k) == Bool(true)
  }

  predicate InRange(c: map<Key, Json>, least: Key, most: Key, x: real) {
    && (Get(c, least).Num? ==> Get(c, least).n <= x)
    && (Get(c, most).Num? ==> x <= Get(c, most).n)
  }

  /** A list of texts with none in it asks for nothing. */
  predicate AnyOf(c: map<Key, Json>, k: Key, text: Option<string>) {
    Get(c, k).Arr? && (exists j | j in Get(c, k).items :: j.Str?) ==> Listed(Get(c, k).items, text)
  }

  /** What a conditions object asks of a shipment, key by key. */
  predicate Meets(c: map<Key, Json>, ctx: Context) {
    && InRange(c, MinDistanceKm, MaxDistanceKm, N0(ctx.distanceKm))
    && InRange(c, MinWeightKg, MaxWeightKg, N0(ctx.weightKg))
    && (Get(c, MinStops).Num? ==> Get(c, MinStops).n <= N0(ctx.stopsCount))
    && AnyOf(c, VehicleTypes, ctx.vehicleType) && AnyOf(c, ShipmentTypes, ctx.shipmentType)
    && (SaysTrue(c, RequiresHazmat) ==> ctx.isHazmat)
    && (SaysTrue(c, RequiresCustoms) ==> ctx.requiresCustoms)
    && (SaysTrue(c, RequiresCrossBorder) ==>
          && S0(ctx.originCountry) != "" && S0(ctx.destinationCountry) != ""
          && !Strings.EqualFold(S0(ctx.originCountry), S0(ctx.destinationCountry)))
  }

  /** The texts among some values, one by one. */
  lemma {:induction false} TextsMeaning(items: seq<Json>, text: Option<string>)
    ensures StringsIn(items) != [] <==> exists j | j in items :: j.Str?
    ensures ContainsFold(StringsIn(items), Strings.ToUpper(S0(text))) <==> Listed(items, text)
  {
    if items == [] {
    } else {
      var first, rest := items[0], items[1..];
      TextsMeaning(rest, text);
      assert forall j :: j in items <==> j == first || j in rest;
      assert Listed(items, text) <==> Listed([first], text) || Listed(rest, text);
      if first.Str? {
        Strings.SameToUpper(first.s, S0(text));
        FoldOfCons(first.s, StringsIn(rest), Strings.ToUpper(S0(text)));
      }
    }
  }

  lemma FoldOfCons(first: string, rest: seq<string>, upper: string)
    ensures ContainsFold([first] + rest, upper) <==> Strings.ToUpper(first) == upper || ContainsFold(rest, upper)
  {
    assert forall t :: t in [first] + rest <==> t == first || t in rest;
  }

  lemma TypesMeaning(c: map<Key, Json>, k: Key, text: Option<string>)
    ensures var types := AsStringSlice(Get(c, k));
      AnyOf(c, k, text) <==> types == [] || ContainsFold(types, Strings.ToUpper(S0(text)))
  {
    if Get(c, k).Arr? {
      TextsMeaning(Get(c, k).items, text);
    }
  }

  /** The gate of a conditions object is open exactly when the shipment meets it. */
  lemma GateMeaning(c: map<Key, Json>, ctx: Context)
    ensures Gate(Some(ParseConditions(c)), ctx) <==> Meets(c, ctx)
  {
    TypesMeaning(c, VehicleTypes, ctx.vehicleType);
    TypesMeaning(c, ShipmentTypes, ctx.shipmentType);
    Strings.SameToUpper(S0(ctx.originCountry), S0(ctx.destinationCountry));
    var p := ParseConditions(c);
    assert Gate(Some(p), ctx) <==>
      && !Violates(TooNear, p, ctx) && !Violates(TooFar, p, ctx) && !Violates(TooLight, p, ctx)
      && !Violates(TooHeavy, p, ctx) && !Violates(TooFewStops, p, ctx) && !Violates(WrongVehicle, p, ctx)
      && !Violates(WrongShipmentType, p, ctx) && !Violates(NotHazmat, p, ctx) && !Violates(NoCustoms, p, ctx)
      && !Violates(NotCrossBorder, p, ctx);
  }

  // ---- Evaluation ----

  function Max(a: real, b: real): real {
    if a >= b then a else b
  }

  function MinReal(a: real, b: real): real {
    if a <= b then a else b
  }

  /** round2 and round2Money. */
  function Round2(x: real): real {
    Round(x * 100.0) as real / 100.0
  }

  function PickBasis(b: Basis, ctx: Context): Option<real> {
    match b
    case BaseRate => ctx.baseRate
    case CargoValue => ctx.cargoValue
    case Subtotal => ctx.subtotal
  }

  /** The kilometres charged: those from freeKm on up to maxKm. */
  function ChargeableKm(freeKm: Option<real>, maxKm: Option<real>, dist: real): real {
    var free := N0(freeKm);
    Max(0.0, (if maxKm.Some? then MinReal(dist, maxKm.value) else dist) - free)
  }

  /** Capping what is left after the free kilometres charges the same as capping the distance. */
  lemma CapIsAKilometre(freeKm: Option<real>, maxKm: Option<real>, dist: real)
    ensures var free := N0(freeKm);
      var chargeable := Max(0.0, dist - free);
      Max(0.0, if maxKm.Some? then MinReal(chargeable, maxKm.value - free) else chargeable) ==
        ChargeableKm(freeKm, maxKm, dist)
  {
  }

  function Times(a: real, b: real): real {
    a * b
  }

  /** The amount before it is floored at zero and rounded; None without a basis. */
  function RawAmount(t: Tariff, ctx: Context): Option<real> {
    match t
    case Flat(amount) => Some(amount)
    case Percentage(basis, percentage) =>
      var b := PickBasis(basis, ctx);
      if b.Some? then Some(Times(b.value, percentage) / 100.0) else None
    case PerKm(rate, freeKm, maxKm) => Some(Times(ChargeableKm(freeKm, maxKm, N0(ctx.distanceKm)), rate))
    case PerKg(rate, freeKg) => Some(Times(Max(0.0, N0(ctx.weightKg) - N0(freeKg)), rate))
    case PerStop(rate, excludeFirst) =>
      Some(Times(if excludeFirst then Max(0.0, N0(ctx.stopsCount) - 1.0) else N0(ctx.stopsCount), rate))
  }

  datatype Verdict = Verdict(applies: bool, amount: real, currency: Option<string>, taxable: bool)

  /** What the amount of a charge must be: at least half a cent before rounding. */
  ghost predicate Fires(r: Rule, ctx: Context) {
    var raw := RawAmount(r.tariff, ctx);
    Gate(r.conditions, ctx) && raw.Some? && raw.value >= 0.005
  }

  ghost function VerdictOf(r: Rule, ctx: Context): Verdict {
    if Fires(r, ctx)
    then Verdict(true, Round2(RawAmount(r.tariff, ctx).value), r.currency, r.taxable.None? || r.taxable.value)
    else Verdict(false, 0.0, r.currency, false)
  }

  method EvaluateRule(rule: Rule, ctx: Context) returns (v: Verdict)
    ensures v == VerdictOf(rule, ctx)
  {
    var ok, reason := ConditionsHold(rule.conditions, ctx);
    if !ok {
      return Verdict(false, 0.0, rule.currency, false);
    }
    var taxable := rule.taxable.None? || rule.taxable.value;
    var amount: real;
    match rule.tariff {
    case Flat(a) =>
      amount := a;
    case Percentage(basis, percentage) =>
      var basisValue := PickBasis(basis, ctx);
      if basisValue.None? {
        return Verdict(false, 0.0, rule.currency, false);
      }
      amount := Times(basisValue.value, percentage) / 100.0;
    case PerKm(rate, freeKm, maxKm) =>
      var dist, free := N0(ctx.distanceKm), N0(freeKm);
      var chargeable := Max(0.0, dist - free);
      var capped := chargeable;
      if maxKm.Some? {
        capped := MinReal(chargeable, maxKm.value - free);
      }
      CapIsAKilometre(freeKm, maxKm, dist);
      assert Max(0.0, capped) == ChargeableKm(freeKm, maxKm, dist);
      amount := Times(Max(0.0, capped), rate);
    case PerKg(rate, freeKg) =>
      var chargeable := Max(0.0, N0(ctx.weightKg) - N0(freeKg));
      amount := Times(chargeable, rate);
    case PerStop(rate, excludeFirst) =>
      var stops := N0(ctx.stopsCount);
      var chargeable := stops;
      if excludeFirst {
        chargeable := Max(0.0, stops - 1.0);
      }
      amount := Times(chargeable, rate);
    }
    assert Some(amount) == RawAmount(rule.tariff, ctx);
    amount := Round2(Max(0.0, amount));
    if amount == 0.0 {
      return Verdict(false, 0.0, rule.currency, false);
    }
    return Verdict(true, amount, rule.currency, taxable);
  }

  // ---- The catalogue ----

  datatype CatalogEntry = CatalogEntry(
    id: string, code: string, name: string, chargeType: string, currency: string,
    taxable: bool, autoApplyRule: Option<map<Key, Json>>, active: bool)

  datatype Applied = Applied(
    catalogID: string, code: string, name: string, chargeType: string,
    amount: real, currency: string, taxable: bool)

  const AED: string := "AED"

  /** The rule that decides about an entry. */
  ghost predicate Charges(e: CatalogEntry, ctx: Context) {
    var r := ParseRule(e.autoApplyRule);
    e.active && r.Some? && Fires(r.value, ctx)
  }

  ghost function ChargeOf(e: CatalogEntry, ctx: Context): Applied
    requires Charges(e, ctx)
  {
    var r := ParseRule(e.autoApplyRule).value;
    var currency := if r.currency.Some? then r.currency.value else e.currency;
    Applied(e.id, e.code, e.name, e.chargeType, Round2(RawAmount(r.tariff, ctx).value),
            if currency == "" then AED else currency,
            if r.taxable.Some? then r.taxable.value else e.taxable)
  }

  ghost function AppliedFrom(catalog: seq<CatalogEntry>, ctx: Context): seq<Applied> {
    if catalog == [] then []
    else
      var n := |catalog| - 1;
      AppliedFrom(catalog[..n], ctx) + (if Charges(catalog[n], ctx) then [ChargeOf(catalog[n], ctx)] else [])
  }

  method ApplyAccessorialCatalog(catalog: seq<CatalogEntry>, ctx: Context) returns (applied: seq<Applied>)
    ensures applied == AppliedFrom(catalog, ctx)
  {
    applied := [];
    for i := 0 to |catalog|
      invariant applied == AppliedFrom(catalog[..i], ctx)
    {
      var entry := catalog[i];
      assert catalog[..i + 1][..i] == catalog[..i];
      if !entry.active {
        continue;
      }
      var rule := ParseRule(entry.autoApplyRule);
      if rule.None? {
        continue;
      }
      var verdict := EvaluateRule(rule.value, ctx);
      if !verdict.applies {
        continue;
      }
      var finalTaxable := entry.taxable;
      if rule.value.taxable.Some? {
        finalTaxable := verdict.taxable;
      }
      var currency := entry.currency;
      if verdict.currency.Some? {
        currency := verdict.currency.value;
      }
      if currency == "" {
        currency := AED;
      }
      applied := applied
        + [Applied(entry.id, entry.code, entry.name, entry.chargeType, verdict.amount, currency, finalTaxable)];
    }
    assert catalog[..|catalog|] == catalog;
  }

  function Number(fields: map<Key, Json>, k: Key): real {
    if Get(fields, k).Num? then Get(fields, k).n else 0.0
  }

  /** What is over the free part, if anything. */
  function Over(x: real, free: real): real {
    if x > free then x - free else 0.0
  }

  predicate IsShare(fields: map<Key, Json>, basis: string, of: Option<real>, raw: real) {
    Get(fields, BasisKey) == Str(basis) && of.Some? && raw == Times(of.value, Number(fields, PercentageKey)) / 100.0
  }

  /** The amount a rule document puts on a shipment before rounding, type by type; none without a basis. */
  predicate DocumentAmount(fields: map<Key, Json>, ctx: Context, raw: real) {
    var rate, km, most := Number(fields, RateKey), N0(ctx.distanceKm), Get(fields, MaxKmKey);
    match AsString(Get(fields, TypeKey))
    case Some("flat") => raw == Number(fields, AmountKey)
    case Some("percentage") =>
      || IsShare(fields, "base_rate", ctx.baseRate, raw) || IsShare(fields, "cargo_value", ctx.cargoValue, raw)
      || IsShare(fields, "subtotal", ctx.subtotal, raw)
    case Some("per_km") =>
      raw == Times(Over(if most.Num? && most.n < km then most.n else km, Number(fields, FreeKmKey)), rate)
    case Some("per_kg") => raw == Times(Over(N0(ctx.weightKg), Number(fields, FreeKgKey)), rate)
    case Some("per_stop") =>
      var stops := N0(ctx.stopsCount);
      raw == Times(if SaysTrue(fields, ExcludeFirstKey) then Over(stops, 1.0) else stops, rate)
    case _ => false
  }

  lemma AmountFromDocument(fields: map<Key, Json>, ctx: Context, raw: real)
    requires ParseRule(Some(fields)).Some?
    ensures RawAmount(ParseRule(Some(fields)).value.tariff, ctx) == Some(raw) <==> DocumentAmount(fields, ctx, raw)
  {
    match ParseRule(Some(fields)).value.tariff
    case PerKm(rate, freeKm, maxKm) =>
      var km := N0(ctx.distanceKm);
      assert ChargeableKm(freeKm, maxKm, km) ==
        Over(if maxKm.Some? && maxKm.value < km then maxKm.value else km, N0(freeKm));
    case PerKg(rate, freeKg) =>
      assert Max(0.0, N0(ctx.weightKg) - N0(freeKg)) == Over(N0(ctx.weightKg), N0(freeKg));
    case PerStop(rate, _) =>
      assert Max(0.0, N0(ctx.stopsCount) - 1.0) == Over(N0(ctx.stopsCount), 1.0);
    case Percentage(_, _) =>
      assert "base_rate" != "cargo_value" && "base_rate" != "subtotal" && "cargo_value" != "subtotal" by {
        assert "base_rate"[0] != "cargo_value"[0];
      }
    case Flat(_) =>
  }

  /**
   A catalogue entry charges a shipment exactly when it is active, its document is a rule whose
   conditions the shipment meets, and the document's amount is at least half a cent. The charge is
   the entry's own, of that amount to within half a cent, in the rule's currency, else the
   entry's, else AED.
   */
  lemma EntryChargesExactly(e: CatalogEntry, ctx: Context, raw: real)
    requires ParseRule(e.autoApplyRule).Some? && DocumentAmount(e.autoApplyRule.value, ctx, raw)
    ensures var fields := e.autoApplyRule.value;
      Charges(e, ctx) <==>
        && e.active && raw >= 0.005
        && (Get(fields, ConditionsKey).Obj? ==> Meets(Get(fields, ConditionsKey).fields, ctx))
    ensures Charges(e, ctx) ==>
      var (c, currency) := (ChargeOf(e, ctx), Get(e.autoApplyRule.value, CurrencyKey));
      && c.catalogID == e.id && c.code == e.code && c.name == e.name && c.chargeType == e.chargeType
      && raw - 0.005 <= c.amount <= raw + 0.005
      && (currency.Str? && currency.s != "" ==> c.currency == currency.s)
      && (currency == Str("") ==> c.currency == "AED")
      && (!currency.Str? ==> c.currency == if e.currency != "" then e.currency else "AED")
  {
    var fields := e.autoApplyRule.value;
    AmountFromDocument(fields, ctx, raw);
    if Get(fields, ConditionsKey).Obj? {
      GateMeaning(Get(fields, ConditionsKey).fields, ctx);
    }
    if Charges(e, ctx) {
      AmountsAreWholeCents(ParseRule(e.autoApplyRule).value, ctx);
    }
  }

  /** Without an amount there is no charge. */
  lemma NoAmountNoCharge(e: CatalogEntry, ctx: Context)
    requires Charges(e, ctx)
    ensures DocumentAmount(e.autoApplyRule.value, ctx, RawAmount(ParseRule(e.autoApplyRule).value.tariff, ctx).value)
  {
    AmountFromDocument(e.autoApplyRule.value, ctx, RawAmount(ParseRule(e.autoApplyRule).value.tariff, ctx).value);
  }

  /** Every amount is a whole, positive number of cents, within half a cent of the exact one. */
  lemma AmountsAreWholeCents(r: Rule, ctx: Context)
    requires Fires(r, ctx)
    ensures var amount, raw := VerdictOf(r, ctx).amount, RawAmount(r.tariff, ctx).value;
      && amount > 0.0 && IsCents(amount)
      && raw - 0.005 <= amount <= raw + 0.005
  {
    var raw := RawAmount(r.tariff, ctx).value;
    Round2IsCents(raw);
    RoundIsMonotone(0.5, raw * 100.0);
  }

  predicate IsCents(x: real) {
    (x * 100.0).Floor as real == x * 100.0
  }

  lemma Round2IsCents(x: real)
    ensures IsCents(Round2(x)) && x - 0.005 <= Round2(x) <= x + 0.005
  {
    RoundIsNear(x * 100.0);
    assert Round2(x) * 100.0 == Round(x * 100.0) as real;
  }

  lemma Round2KeepsCents(x: real)
    requires IsCents(x)
    ensures Round2(x) == x
  {
    RoundOfWhole((x * 100.0).Floor);
  }

  lemma {:induction false} AppliedAmountsAreWholeCents(catalog: seq<CatalogEntry>, ctx: Context)
    ensures forall k | 0 <= k < |AppliedFrom(catalog, ctx)| ::
      AppliedFrom(catalog, ctx)[k].amount > 0.0 && IsCents(AppliedFrom(catalog, ctx)[k].amount)
  {
    if catalog != [] {
      var n := |catalog| - 1;
      AppliedAmountsAreWholeCents(catalog[..n], ctx);
      if Charges(catalog[n], ctx) {
        AmountsAreWholeCents(ParseRule(catalog[n].autoApplyRule).value, ctx);
      }
    }
  }

  /** Entries are judged one by one: the charges of two catalogues together are theirs one after the other. */
  lemma {:induction false} CataloguesAdd(a: seq<CatalogEntry>, b: seq<CatalogEntry>, ctx: Context)
    ensures AppliedFrom(a + b, ctx) == AppliedFrom(a, ctx) + AppliedFrom(b, ctx)
  {
    if b == [] {
      assert a + b == a;
    } else {
      var n := |b| - 1;
      assert (a + b)[..|a + b| - 1] == a + b[..n];
      CataloguesAdd(a, b[..n], ctx);
    }
  }

  /** The entries that charge, by index, in order. */
  ghost function ChargingIndices(catalog: seq<CatalogEntry>, ctx: Context): seq<nat> {
    if catalog == [] then []
    else
      var n := |catalog| - 1;
      ChargingIndices(catalog[..n], ctx) + (if Charges(catalog[n], ctx) then [n] else [])
  }

  /** Increasing indices of exactly the charging entries, and their charges in that order. */
  ghost predicate FilterMaps(catalog: seq<CatalogEntry>, ctx: Context, idx: seq<nat>, applied: seq<Applied>) {
    && |idx| == |applied|
    && (forall k | 0 <= k < |idx| :: ChargesAt(catalog, ctx, idx[k], applied[k]))
    && (forall j, k | 0 <= j < k < |idx| :: idx[j] < idx[k])
    && (forall i | 0 <= i < |catalog| && Charges(catalog[i], ctx) :: i in idx)
  }

  ghost predicate ChargesAt(catalog: seq<CatalogEntry>, ctx: Context, i: nat, a: Applied) {
    i < |catalog| && Charges(catalog[i], ctx) && a == ChargeOf(catalog[i], ctx)
  }

  /** The list is the charging entries' charges, each once, in catalogue order, and no others. */
  lemma {:induction false} AppliedIsAFilterMap(catalog: seq<CatalogEntry>, ctx: Context)
    ensures FilterMaps(catalog, ctx, ChargingIndices(catalog, ctx), AppliedFrom(catalog, ctx))
  {
    if catalog != [] {
      var n := |catalog| - 1;
      AppliedIsAFilterMap(catalog[..n], ctx);
      FilterMapGrows(catalog, ctx, ChargingIndices(catalog[..n], ctx), AppliedFrom(catalog[..n], ctx));
    }
  }

  lemma FilterMapGrows(catalog: seq<CatalogEntry>, ctx: Context, idx: seq<nat>, applied: seq<Applied>)
    requires catalog != [] && FilterMaps(catalog[..|catalog| - 1], ctx, idx, applied)
    ensures var n := |catalog| - 1;
      if Charges(catalog[n], ctx) then FilterMaps(catalog, ctx, idx + [n], applied + [ChargeOf(catalog[n], ctx)])
      else FilterMaps(catalog, ctx, idx, applied)
  {
    var n := |catalog| - 1;
    forall k | 0 <= k < |idx|
      ensures ChargesAt(catalog, ctx, idx[k], applied[k])
    {
      assert ChargesAt(catalog[..n], ctx, idx[k], applied[k]);
    }
    forall i | 0 <= i < n && Charges(catalog[i], ctx)
      ensures i in idx
    {
      assert catalog[..n][i] == catalog[i];
    }
  }

  /** A rule overrides its row's tax flag exactly when its document says something about tax. */
  lemma TaxableComesFromTheDocument(e: CatalogEntry, ctx: Context)
    requires Charges(e, ctx)
    ensures var fields := e.autoApplyRule.value;
      ChargeOf(e, ctx).taxable == if TaxableKey in fields then fields[TaxableKey] != Bool(false) else e.taxable
  {
  }

  // ---- The charges written ----

  const VAT_RATE: real := 0.05

  datatype FreightCharge = FreightCharge(
    chargeType: string, description: string, amount: real, taxAmount: real, totalAmount: real, currency: string)

  const ACCESSORIAL: string := "ACCESSORIAL"

  function ChargeFor(a: Applied, orderCurrency: string): FreightCharge {
    var tax := if a.taxable then Round2(a.amount * VAT_RATE) else 0.0;
    var code := Strings.ToUpper(Strings.TrimSpace(a.code));
    var chargeType := if code == "" then ACCESSORIAL else code;
    var name := Strings.TrimSpace(a.name);
    var currency := if a.currency == "" then orderCurrency else a.currency;
    FreightCharge(chargeType, if name == "" then chargeType else name, a.amount, tax, Round2(a.amount + tax),
                  if currency == "" then AED else currency)
  }

  /** The rows written: an insert that fails is skipped. */
  function Written(applied: seq<Applied>, orderCurrency: string, inserts: seq<bool>): seq<FreightCharge>
    requires |inserts| == |applied|
  {
    if applied == [] then []
    else
      var n := |applied| - 1;
      Written(applied[..n], orderCurrency, inserts[..n])
        + (if inserts[n] then [ChargeFor(applied[n], orderCurrency)] else [])
  }

  class ChargeTable {
    var rows: seq<FreightCharge>

    method WriteAutoAccessorialCharge(a: Applied, orderCurrency: string, inserts: bool) returns (ok: bool)
      modifies this
      ensures ok == inserts
      ensures rows == if inserts then old(rows) + [ChargeFor(a, orderCurrency)] else old(rows)
    {
      var taxAmount := 0.0;
      if a.taxable {
        taxAmount := Round2(a.amount * VAT_RATE);
      }
      var chargeType := Strings.ToUpper(Strings.TrimSpace(a.code));
      if chargeType == "" {
        chargeType := ACCESSORIAL;
      }
      var desc := Strings.TrimSpace(a.name);
      if desc == "" {
        desc := chargeType;
      }
      var currency := a.currency;
      if currency == "" {
        currency := orderCurrency;
      }
      if currency == "" {
        currency := AED;
      }
      var charge := FreightCharge(chargeType, desc, a.amount, taxAmount, Round2(a.amount + taxAmount), currency);
      if !inserts {
        return false;
      }
      rows := rows + [charge];
      return true;
    }

    /** inserts says of each charge whether its insert succeeds. */
    method ApplyAutoAccessorials(catalog: seq<CatalogEntry>, ctx: Context, orderCurrency: string, inserts: seq<bool>)
      requires |inserts| == |AppliedFrom(catalog, ctx)|
      modifies this
      ensures rows == old(rows) + Written(AppliedFrom(catalog, ctx), orderCurrency, inserts)
    {
      if |catalog| == 0 {
        return;
      }
      var applied := ApplyAccessorialCatalog(catalog, ctx);
      WriteAll(applied, orderCurrency, inserts);
    }

    /** One bad row does not sink the others. */
    method WriteAll(applied: seq<Applied>, orderCurrency: string, inserts: seq<bool>)
      requires |inserts| == |applied|
      modifies this
      ensures rows == old(rows) + Written(applied, orderCurrency, inserts)
    {
      for i := 0 to |applied|
        invariant rows == old(rows) + Written(applied[..i], orderCurrency, inserts[..i])
      {
        assert applied[..i + 1][..i] == applied[..i] && inserts[..i + 1][..i] == inserts[..i];
        var _ := WriteAutoAccessorialCharge(applied[i], orderCurrency, inserts[i]);
      }
      assert applied[..|applied|] == applied && inserts[..|applied|] == inserts;
    }
  }

  /** The catalogue has settled the currency: the order's own one is a fallback that is never reached. */
  lemma OrderCurrencyIsNeverUsed(catalog: seq<CatalogEntry>, ctx: Context, k: nat, c1: string, c2: string)
    requires k < |AppliedFrom(catalog, ctx)|
    ensures ChargeFor(AppliedFrom(catalog, ctx)[k], c1) == ChargeFor(AppliedFrom(catalog, ctx)[k], c2)
  {
    AppliedIsAFilterMap(catalog, ctx);
    assert ChargesAt(catalog, ctx, ChargingIndices(catalog, ctx)[k], AppliedFrom(catalog, ctx)[k]);
  }

  /** Between the spaces at its ends, if anything is there. */
  predicate Trimmed(text: string, inner: string) {
    exists i, j | 0 <= i <= j <= |text| :: IsTrim(text, i, j) && inner == text[i..j]
  }

  predicate IsTrim(text: string, i: nat, j: nat)
    requires i <= j <= |text|
  {
    && (forall k | 0 <= k < |text| && (k < i || j <= k) :: Strings.IsSpace(text[k]))
    && (i < j ==> !Strings.IsSpace(text[i]) && !Strings.IsSpace(text[j - 1]))
  }

  /** The same letters, none of them small. */
  predicate Capitals(text: string, upper: string) {
    Strings.EqualFold(upper, text) && forall i | 0 <= i < |upper| :: !('a' <= upper[i] <= 'z')
  }

  /**
   A row is named after its charge: the code in capitals, "ACCESSORIAL" without one, and the name or
   else that. Its currency is the charge's, else the order's, else AED.
   */
  lemma RowIsNamedAfterTheCharge(a: Applied, orderCurrency: string) returns (code: string, name: string)
    ensures Trimmed(a.code, code) && Trimmed(a.name, name)
    ensures var c := ChargeFor(a, orderCurrency);
      && (code == "" ==> c.chargeType == "ACCESSORIAL")
      && (code != "" ==> Capitals(code, c.chargeType))
      && c.description == (if name == "" then c.chargeType else name)
      && c.currency == if a.currency != "" then a.currency else if orderCurrency != "" then orderCurrency else "AED"
  {
    code, name := Strings.TrimSpace(a.code), Strings.TrimSpace(a.name);
    TrimIsTrimmed(a.code);
    TrimIsTrimmed(a.name);
    UpperIsCapitals(code);
  }

  lemma TrimIsTrimmed(text: string)
    ensures Trimmed(text, Strings.TrimSpace(text))
  {
    var i, j := Strings.TrimSpaceMeaning(text);
    assert IsTrim(text, i, j);
  }

  lemma UpperIsCapitals(text: string)
    ensures Capitals(text, Strings.ToUpper(text)) && (text == "" <==> Strings.ToUpper(text) == "")
  {
  }

  /** A charge's total is exactly amount plus tax, and its tax is 5% to within half a cent. */
  lemma TotalIsExact(a: Applied, orderCurrency: string)
    requires IsCents(a.amount)
    ensures var c := ChargeFor(a, orderCurrency);
      && c.amount == a.amount && c.totalAmount == c.amount + c.taxAmount && IsCents(c.taxAmount)
      && (if a.taxable then a.amount * VAT_RATE - 0.005 <= c.taxAmount <= a.amount * VAT_RATE + 0.005
          else c.taxAmount == 0.0)
  {
    var tax := if a.taxable then Round2(a.amount * VAT_RATE) else 0.0;
    Round2IsCents(a.amount * VAT_RATE);
    CentsAdd(a.amount, tax);
    Round2KeepsCents(a.amount + tax);
  }

  lemma CentsAdd(x: real, y: real)
    requires IsCents(x) && IsCents(y)
    ensures IsCents(x + y)
  {
    assert (x + y) * 100.0 == ((x * 100.0).Floor + (y * 100.0).Floor) as real;
  }

  /** What a list of rows comes to. */
  datatype Books = Books(amounts: real, taxes: real, totals: real)

  function Sum(rows: seq<FreightCharge>): Books {
    if rows == [] then Books(0.0, 0.0, 0.0)
    else
      var n := |rows| - 1;
      Post(Sum(rows[..n]), rows[n])
  }

  function Post(b: Books, c: FreightCharge): Books {
    Books(b.amounts + c.amount, b.taxes + c.taxAmount, b.totals + c.totalAmount)
  }

  /** The taxable amounts among the charges written, and how many they are. */
  function Taxable(applied: seq<Applied>, inserts: seq<bool>): (real, nat)
    requires |inserts| == |applied|
  {
    if applied == [] then (0.0, 0)
    else
      var n := |applied| - 1;
      var s := Taxable(applied[..n], inserts[..n]);
      if inserts[n] && applied[n].taxable then (s.0 + applied[n].amount, s.1 + 1) else s
  }

  predicate Balanced(b: Books, taxable: (real, nat)) {
    && b.totals == b.amounts + b.taxes
    && taxable.0 * VAT_RATE - 0.005 * taxable.1 as real <= b.taxes <= taxable.0 * VAT_RATE + 0.005 * taxable.1 as real
  }

  lemma PostingKeepsBalance(b: Books, taxable: (real, nat), a: Applied, orderCurrency: string)
    requires Balanced(b, taxable) && IsCents(a.amount)
    ensures Balanced(Post(b, ChargeFor(a, orderCurrency)),
                     if a.taxable then (taxable.0 + a.amount, taxable.1 + 1) else taxable)
  {
    TotalIsExact(a, orderCurrency);
  }

  /**
   Over all rows written the totals add up exactly, and the tax is 5% of the taxable amounts to
   within half a cent per taxable charge.
   */
  lemma {:induction false} BooksBalance(applied: seq<Applied>, orderCurrency: string, inserts: seq<bool>)
    requires |inserts| == |applied|
    requires forall k | 0 <= k < |applied| :: IsCents(applied[k].amount)
    ensures Balanced(Sum(Written(applied, orderCurrency, inserts)), Taxable(applied, inserts))
  {
    if applied != [] {
      var n := |applied| - 1;
      var before, c := Written(applied[..n], orderCurrency, inserts[..n]), ChargeFor(applied[n], orderCurrency);
      BooksBalance(applied[..n], orderCurrency, inserts[..n]);
      if inserts[n] {
        PostingKeepsBalance(Sum(before), Taxable(applied[..n], inserts[..n]), applied[n], orderCurrency);
        assert (before + [c])[..|before|] == before;
      } else {
        assert before + [] == before;
      }
    }
  }

  /** So it is for every catalogue and shipment, whichever inserts fail. */
  lemma CatalogueBooksBalance(catalog: seq<CatalogEntry>, ctx: Context, orderCurrency: string, inserts: seq<bool>)
    requires |inserts| == |AppliedFrom(catalog, ctx)|
    ensures var applied := AppliedFrom(catalog, ctx);
      Balanced(Sum(Written(applied, orderCurrency, inserts)), Taxable(applied, inserts))
  {
    AppliedAmountsAreWholeCents(catalog, ctx);
    BooksBalance(AppliedFrom(catalog, ctx), orderCurrency, inserts);
  }
}
