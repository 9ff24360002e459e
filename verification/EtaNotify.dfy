/**
 backend/etapredict/etapredict.go (EtaDeltaMinutes, DecideNotify) and the decide-and-record
 tail of recomputeShipmentEta in backend/handlers/logistics_execution.go: when the customer is
 told about a new arrival time, over a whole run of GPS ingests.

 Times are nanoseconds. What the customer was last told is kept in the shipment's metadata as
 an RFC 3339 text. This code writes whole seconds; it reads fractions too, as others write them.
 */
module EtaNotify {
  import opened Rounding

  datatype Option<+T> = None | Some(value: T)

  const SECOND: int := 1_000_000_000
  const MINUTE: int := 60 * SECOND
  const DEFAULT_THRESHOLD: int := 15
  /** Fourteen and a half minutes: what rounds to fifteen. */
  const HALF_UNDER_THRESHOLD: int := 870 * SECOND

  datatype Method = ObservedSpeed | LaneAverage | DefaultSpeed | Planned | Arrived
  datatype Confidence = High | Medium | Low
  datatype Prediction = Prediction(etaAt: Option<int>, how: Method, confidence: Confidence)

  datatype Reason = NoEta | NotProactive | TooUncertain | First | Moved | MovedLittle
  datatype Decision = Decision(notify: bool, reason: Reason, deltaMinutes: Option<int>)

  /** Whole minutes from a to b. */
  function EtaDeltaMinutes(a: Option<int>, b: Option<int>): Option<int> {
    if a.None? || b.None? then None else Some(RoundQuotient(b.value - a.value, MINUTE))
  }

  function Abs(n: int): int {
    if n < 0 then -n else n
  }

  function DecideNotify(p: Prediction, lastNotifiedEtaAt: Option<int>, thresholdMinutes: int): Decision {
    var threshold := if thresholdMinutes <= 0 then DEFAULT_THRESHOLD else thresholdMinutes;
    if p.etaAt.None? then Decision(false, NoEta, None)
    else if p.how.Planned? || p.how.Arrived? then Decision(false, NotProactive, None)
    else if p.confidence.Low? then Decision(false, TooUncertain, None)
    else if lastNotifiedEtaAt.None? then Decision(true, First, None)
    else
      var delta := EtaDeltaMinutes(lastNotifiedEtaAt, p.etaAt);
      if Abs(delta.value) >= threshold then Decision(true, Moved, delta) else Decision(false, MovedLittle, delta)
  }

  // ---- The shipment row ----

  /**
   metadata.lastNotifiedEtaAt: absent, something that is not an RFC 3339 time, or a time, with a
   fraction or without.
   */
  datatype MetaTime = Missing | Unreadable | At(time: int)

  /** metaTimePtr. */
  function Read(m: MetaTime): Option<int> {
    if m.At? then Some(m.time) else None
  }

  /** UTC().Format(time.RFC3339): the fraction of the second is dropped. */
  function Format(t: int): MetaTime {
    At(t / SECOND * SECOND)
  }

  /** One ingest: its prediction, the kill-switch, and whether the metadata save succeeds. */
  datatype Ingest = Ingest(prediction: Prediction, disabled: bool, saves: bool)

  predicate Tells(row: MetaTime, i: Ingest) {
    DecideNotify(i.prediction, Read(row), 0).notify && !i.disabled
  }

  function RowAfter(row: MetaTime, i: Ingest): MetaTime {
    if Tells(row, i) && i.saves then Format(i.prediction.etaAt.value) else row
  }

  class ShipmentRow {
    var lastNotifiedEtaAt: MetaTime

    /** Decide, tell the customer, and record what they were told; the save runs in a savepoint and may fail. */
    method NotifyTail(i: Ingest) returns (decision: Decision, notified: bool)
      modifies this
      ensures decision == DecideNotify(i.prediction, Read(old(lastNotifiedEtaAt)), 0)
      ensures notified == Tells(old(lastNotifiedEtaAt), i)
      ensures lastNotifiedEtaAt == RowAfter(old(lastNotifiedEtaAt), i)
    {
      decision := DecideNotify(i.prediction, Read(lastNotifiedEtaAt), 0);
      notified := false;
      if decision.notify && i.prediction.etaAt.Some? && !i.disabled {
        notified := true;
        var metadata := At(i.prediction.etaAt.value / SECOND * SECOND);
        if i.saves {
          lastNotifiedEtaAt := metadata;
        }
      }
    }
  }

  // ---- Runs of serial ingests ----

  function Row(start: MetaTime, run: seq<Ingest>): MetaTime {
    if run == [] then start else RowAfter(Row(start, run[..|run| - 1]), run[|run| - 1])
  }

  /** The arrival times the customer was told, in order. */
  function Told(start: MetaTime, run: seq<Ingest>): seq<int> {
    if run == [] then []
    else
      var n := |run| - 1;
      Told(start, run[..n])
        + (if Tells(Row(start, run[..n]), run[n]) then [run[n].prediction.etaAt.value] else [])
  }

  /** Those of them the row was made to remember. */
  function Saved(start: MetaTime, run: seq<Ingest>): seq<int> {
    if run == [] then []
    else
      var n := |run| - 1;
      Saved(start, run[..n])
        + (if Tells(Row(start, run[..n]), run[n]) && run[n].saves then [run[n].prediction.etaAt.value] else [])
  }

  /** How often the customer was told and the save failed. */
  function Forgotten(start: MetaTime, run: seq<Ingest>): nat {
    if run == [] then 0
    else
      var n := |run| - 1;
      Forgotten(start, run[..n]) + (if Tells(Row(start, run[..n]), run[n]) && !run[n].saves then 1 else 0)
  }

  predicate Confident(p: Prediction) {
    p.etaAt.Some? && !p.how.Planned? && !p.how.Arrived? && !p.confidence.Low?
  }

  /** The arrival times of the confident predictions, in order. */
  function Etas(run: seq<Ingest>): seq<int> {
    if run == [] then []
    else
      var n := |run| - 1;
      Etas(run[..n]) + (if Confident(run[n].prediction) then [run[n].prediction.etaAt.value] else [])
  }

  /** How much a series moves in all. */
  function TotalVariation(xs: seq<int>): int {
    if |xs| <= 1 then 0
    else
      var n := |xs| - 1;
      TotalVariation(xs[..n]) + Abs(xs[n] - xs[n - 1])
  }

  predicate AllSave(run: seq<Ingest>) {
    forall i | 0 <= i < |run| :: run[i].saves
  }

  // ---- Main results ----

  lemma RoundsToThreshold(delta: int)
    ensures Abs(RoundQuotient(delta, MINUTE)) >= DEFAULT_THRESHOLD <==> Abs(delta) >= HALF_UNDER_THRESHOLD
  {
    RoundsToMinutes(delta, DEFAULT_THRESHOLD);
  }

  /** A movement rounds to so many minutes exactly from half a minute less on. */
  lemma RoundsToMinutes(delta: int, minutes: int)
    requires minutes > 0
    ensures Abs(RoundQuotient(delta, MINUTE)) >= minutes <==> 2 * Abs(delta) >= (2 * minutes - 1) * MINUTE
  {
  }

  /**
   When exactly a prediction is told, for any threshold: it is confident, and it is the first, or has
   moved by the threshold less half a minute, either way; 15 minutes when no threshold is given.
   The decision's minutes are how much later it has become, to the nearest.
   */
  lemma DecidesExactly(p: Prediction, last: Option<int>, thresholdMinutes: int)
    ensures var threshold := if thresholdMinutes > 0 then thresholdMinutes else 15;
      DecideNotify(p, last, thresholdMinutes).notify <==>
        && Confident(p)
        && (last.None? || 2 * Abs(p.etaAt.value - last.value) >= (2 * threshold - 1) * 60_000_000_000)
    ensures var d := DecideNotify(p, last, thresholdMinutes).deltaMinutes;
      && (d.Some? <==> Confident(p) && last.Some?)
      && (d.Some? ==> -MINUTE <= 2 * (d.value * MINUTE - (p.etaAt.value - last.value)) <= MINUTE)
  {
    if p.etaAt.Some? && last.Some? {
      RoundQuotientIsNear(p.etaAt.value - last.value, MINUTE);
      RoundsToMinutes(p.etaAt.value - last.value, if thresholdMinutes > 0 then thresholdMinutes else 15);
    }
  }

  /** The ingests of a run without the kill-switch, and with something to tell. */
  function Live(run: seq<Ingest>): seq<Ingest> {
    if run == [] then []
    else
      var n := |run| - 1;
      Live(run[..n]) + (if !run[n].disabled && Confident(run[n].prediction) then [run[n]] else [])
  }

  /** The others tell nobody and leave no trace: the run is told and stored as if they had not been. */
  lemma {:induction false} OnlyLiveIngestsCount(start: MetaTime, run: seq<Ingest>)
    ensures Told(start, run) == Told(start, Live(run)) && Row(start, run) == Row(start, Live(run))
  {
    if run != [] {
      var n := |run| - 1;
      var live := Live(run[..n]);
      OnlyLiveIngestsCount(start, run[..n]);
      if Live(run) == live + [run[n]] {
        assert (live + [run[n]])[..|live|] == live;
      } else {
        assert Live(run) == live;
      }
    }
  }

  /** So while the kill-switch is on nobody is told. */
  lemma {:induction false} DisabledTellsNobody(start: MetaTime, run: seq<Ingest>)
    requires forall i | 0 <= i < |run| :: run[i].disabled
    ensures Told(start, run) == [] && Row(start, run) == start
  {
    if run != [] {
      DisabledTellsNobody(start, run[..|run| - 1]);
    }
  }

  /** Once a told time has been saved, the row holds the one saved last, to the second. */
  lemma {:induction false} RowHoldsLastSaved(start: MetaTime, run: seq<Ingest>)
    ensures var saved := Saved(start, run);
      Row(start, run) == if saved == [] then start else Format(saved[|saved| - 1])
  {
    if run != [] {
      RowHoldsLastSaved(start, run[..|run| - 1]);
    }
  }

  /** When all saves work, that is everything the customer was told. */
  lemma {:induction false} AllSavedIsAllTold(start: MetaTime, run: seq<Ingest>)
    ensures |Told(start, run)| == |Saved(start, run)| + Forgotten(start, run)
    ensures AllSave(run) ==> Told(start, run) == Saved(start, run) && Forgotten(start, run) == 0
  {
    if run != [] {
      AllSavedIsAllTold(start, run[..|run| - 1]);
    }
  }

  lemma RowHoldsLastTold(start: MetaTime, run: seq<Ingest>)
    requires AllSave(run)
    ensures var told := Told(start, run);
      Row(start, run) == if told == [] then start else Format(told[|told| - 1])
  {
    RowHoldsLastSaved(start, run);
    AllSavedIsAllTold(start, run);
  }

  predicate FarApart(before: int, after: int) {
    && Abs(after - Format(before).time) >= HALF_UNDER_THRESHOLD
    && Abs(after - before) > HALF_UNDER_THRESHOLD - SECOND
  }

  /** Whatever is told after a time was saved is far from that time, saved itself or not. */
  lemma ToldIsFarFromSaved(start: MetaTime, run: seq<Ingest>, i: Ingest)
    requires Saved(start, run) != [] && Tells(Row(start, run), i)
    ensures FarApart(Saved(start, run)[|Saved(start, run)| - 1], i.prediction.etaAt.value)
  {
    var last := Saved(start, run)[|Saved(start, run)| - 1];
    RowHoldsLastSaved(start, run);
    RoundsToThreshold(i.prediction.etaAt.value - last / SECOND * SECOND);
  }

  lemma {:induction false} SavedTimesAreFarApart(start: MetaTime, run: seq<Ingest>, k: nat)
    requires k + 1 < |Saved(start, run)|
    ensures FarApart(Saved(start, run)[k], Saved(start, run)[k + 1])
  {
    var n := |run| - 1;
    var before := Saved(start, run[..n]);
    if k + 1 < |before| {
      SavedTimesAreFarApart(start, run[..n], k);
    } else {
      ToldIsFarFromSaved(start, run[..n], run[n]);
    }
  }

  /**
   No spam: while saves work, each arrival time told after the first is at least 14.5 minutes from
   the previous one as it was stored, and so more than that less one second from the previous one
   itself.
   */
  lemma ToldTimesAreFarApart(start: MetaTime, run: seq<Ingest>, k: nat)
    requires AllSave(run) && k + 1 < |Told(start, run)|
    ensures FarApart(Told(start, run)[k], Told(start, run)[k + 1])
  {
    AllSavedIsAllTold(start, run);
    SavedTimesAreFarApart(start, run, k);
  }

  /** What has been told has been paid for by movement, and the rest covers the way since. */
  predicate Paid(told: seq<int>, etas: seq<int>) {
    && told != [] && etas != []
    && Cost(|told|) + Abs(etas[|etas| - 1] - told[|told| - 1]) <= TotalVariation(etas)
  }

  /** The movement that so many notifications need at least. */
  function Cost(notifications: nat): int {
    (notifications - 1) * (HALF_UNDER_THRESHOLD - SECOND)
  }

  lemma PaidStep(told: seq<int>, etas: seq<int>, eta: int, tells: bool)
    requires Paid(told, etas)
    requires tells ==> Abs(eta - told[|told| - 1]) > HALF_UNDER_THRESHOLD - SECOND
    ensures Paid(told + (if tells then [eta] else []), etas + [eta])
  {
    assert (etas + [eta])[..|etas|] == etas;
    assert TotalVariation(etas + [eta]) == TotalVariation(etas) + Abs(eta - etas[|etas| - 1]);
    assert Cost(|told| + 1) == Cost(|told|) + HALF_UNDER_THRESHOLD - SECOND;
  }

  lemma {:induction false} MovementPaysForNotifications(start: MetaTime, run: seq<Ingest>)
    requires Saved(start, run) != []
    ensures Paid(Saved(start, run), Etas(run))
  {
    var n := |run| - 1;
    var saved, etas := Saved(start, run[..n]), Etas(run[..n]);
    var saves := Tells(Row(start, run[..n]), run[n]) && run[n].saves;
    if saved == [] {
      FirstIsFree(etas, run[n].prediction.etaAt.value);
    } else {
      MovementPaysForNotifications(start, run[..n]);
      if Confident(run[n].prediction) {
        if saves {
          ToldIsFarFromSaved(start, run[..n], run[n]);
        }
        PaidStep(saved, etas, run[n].prediction.etaAt.value, saves);
      } else {
        assert !saves;
        assert saved + [] == saved && etas + [] == etas;
      }
    }
  }

  lemma FirstIsFree(etas: seq<int>, eta: int)
    ensures Paid([eta], etas + [eta])
  {
    VariationIsNotNegative(etas + [eta]);
  }

  lemma {:induction false} VariationIsNotNegative(xs: seq<int>)
    ensures TotalVariation(xs) >= 0
  {
    if |xs| > 1 {
      VariationIsNotNegative(xs[..|xs| - 1]);
    }
  }

  /**
   For every run the number of notifications is at most one, plus the number of those whose save
   failed, plus what the movement of the confident estimates pays for.
   */
  lemma NotificationsAreBounded(start: MetaTime, run: seq<Ingest>)
    ensures |Told(start, run)| <= 1 + Forgotten(start, run)
      + TotalVariation(Etas(run)) / (HALF_UNDER_THRESHOLD - SECOND)
  {
    VariationIsNotNegative(Etas(run));
    AllSavedIsAllTold(start, run);
    if Saved(start, run) != [] {
      MovementPaysForNotifications(start, run);
      CostBounds(|Saved(start, run)|, TotalVariation(Etas(run)));
    }
  }

  lemma CostBounds(notifications: nat, movement: int)
    requires Cost(notifications) <= movement
    ensures notifications <= 1 + movement / (HALF_UNDER_THRESHOLD - SECOND)
  {
  }

  /** Not silent either: after every confident prediction the stored time is within the threshold of it. */
  lemma LastToldIsNear(row: MetaTime, i: Ingest)
    requires Confident(i.prediction) && !i.disabled && i.saves
    ensures RowAfter(row, i).At?
    ensures Abs(EtaDeltaMinutes(Read(RowAfter(row, i)), i.prediction.etaAt).value) < DEFAULT_THRESHOLD
  {
    if Tells(row, i) {
      var eta := i.prediction.etaAt.value;
      RoundQuotientIsNear(eta - eta / SECOND * SECOND, MINUTE);
    }
  }

  /** The saves matter: while they fail, every repetition of one confident estimate is told again. */
  lemma {:induction false} FailedSavesSpam(p: Prediction, times: nat)
    requires Confident(p)
    ensures var run := seq(times, _ => Ingest(p, false, false));
      |Told(Missing, run)| == times && Row(Missing, run) == Missing && TotalVariation(Etas(run)) == 0
  {
    var run := seq(times, _ => Ingest(p, false, false));
    if times > 0 {
      FailedSavesSpam(p, times - 1);
      assert run[..times - 1] == seq(times - 1, _ => Ingest(p, false, false));
      RepeatedEtas(p, times - 1);
      RepeatedEtas(p, times);
    }
  }

  lemma {:induction false} RepeatedEtas(p: Prediction, times: nat)
    requires Confident(p)
    ensures Etas(seq(times, _ => Ingest(p, false, false))) == seq(times, _ => p.etaAt.value)
  {
    var run := seq(times, _ => Ingest(p, false, false));
    if times > 0 {
      RepeatedEtas(p, times - 1);
      assert run[..times - 1] == seq(times - 1, _ => Ingest(p, false, false));
    }
  }
}
