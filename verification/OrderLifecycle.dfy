/** What one generated order goes through: its status, its timestamps, its status history and its shipment.
    Times are microseconds; every random draw is an arbitrary value of its range. */
module OrderLifecycle {
  import opened Common

  datatype Status = Paid | Confirmed | Completed | Cancelled | FailedDelivery

  datatype Draws = Draws(cancelled: bool, completed: bool, confirmHours: int, completeHours: int, cancelMinutes: int)

  predicate InRange(draws: Draws) {
    2 <= draws.confirmHours <= 18 && 24 <= draws.completeHours <= 96 && 15 <= draws.cancelMinutes <= 480
  }

  /** `customer` is the customer's index, `position` the order's place among that customer's orders. */
  datatype Placement = Placement(time: int, customer: nat, position: nat)

  datatype Outcome = Outcome(status: Status, cod: bool, paidAt: Option<int>, confirmedAt: Option<int>,
                             completedAt: Option<int>, cancelledAt: Option<int>, updatedAt: int)

  /** Every third order of a risky customer is refused at the door, every 31st of another one. */
  predicate Refused(p: Placement) {
    if p.customer % 8 == 3 then p.position % 3 == 0 else p.position % 31 == 0
  }

  function Or(x: Option<int>, y: int): int {
    if x.Some? then x.value else y
  }

  /** Lines 1523 to 1596 of the exporter, one assignment after the other. */
  method Decide(p: Placement, end: int, draws: Draws) returns (o: Outcome)
    ensures o == Fate(p, end, draws)
  {
    var age := end - p.time;
    var cancelled := age >= 2 * HOUR && draws.cancelled;
    var completed := !cancelled && age >= 5 * DAY && draws.completed;
    var confirmed := !cancelled && !completed && age >= 8 * HOUR;
    var cod := (p.position + p.customer) % 10 < 6;
    var boom := cod && !cancelled && age >= 3 * DAY && Refused(p);
    var status := Paid;
    if boom {
      status := FailedDelivery;
      completed := false;
      confirmed := true;
    } else if cancelled {
      status := Cancelled;
    } else if completed {
      status := Completed;
    } else if confirmed {
      status := Confirmed;
    }
    var paidAt := if !cod && !cancelled then Some(p.time) else None;
    var confirmedAt, completedAt, cancelledAt: Option<int> := None, None, None;
    if completed || confirmed {
      confirmedAt := Some(Min(end - 2 * MINUTE, p.time + draws.confirmHours * HOUR));
    }
    if completed && confirmedAt.Some? {
      completedAt := Some(Min(end - MINUTE, confirmedAt.value + draws.completeHours * HOUR));
      if cod {
        paidAt := completedAt;
      }
    }
    if cancelled {
      cancelledAt := Some(Min(end - MINUTE, p.time + draws.cancelMinutes * MINUTE));
    }
    var updatedAt := Or(cancelledAt, Or(completedAt, Or(confirmedAt, p.time)));
    o := Outcome(status, cod, paidAt, confirmedAt, completedAt, cancelledAt, updatedAt);
  }

  // ----- the same, status first -----

  function StatusOf(p: Placement, end: int, draws: Draws): Status {
    var age := end - p.time;
    if age >= 2 * HOUR && draws.cancelled then Cancelled
    else if (p.position + p.customer) % 10 < 6 && age >= 3 * DAY && Refused(p) then FailedDelivery
    else if age >= 5 * DAY && draws.completed then Completed
    else if age >= 8 * HOUR then Confirmed
    else Paid
  }

  /** Each status has its own set of timestamps. */
  function Fate(p: Placement, end: int, draws: Draws): Outcome {
    var cod := (p.position + p.customer) % 10 < 6;
    var prepaid := if cod then None else Some(p.time);
    var confirmedAt := Min(end - 2 * MINUTE, p.time + draws.confirmHours * HOUR);
    var completedAt := Min(end - MINUTE, confirmedAt + draws.completeHours * HOUR);
    var cancelledAt := Min(end - MINUTE, p.time + draws.cancelMinutes * MINUTE);
    match StatusOf(p, end, draws)
    case Paid => Outcome(Paid, cod, prepaid, None, None, None, p.time)
    case Confirmed => Outcome(Confirmed, cod, prepaid, Some(confirmedAt), None, None, confirmedAt)
    case FailedDelivery => Outcome(FailedDelivery, cod, prepaid, Some(confirmedAt), None, None, confirmedAt)
    case Completed =>
      Outcome(Completed, cod, Some(if cod then completedAt else p.time), Some(confirmedAt), Some(completedAt), None,
              completedAt)
    case Cancelled => Outcome(Cancelled, cod, None, None, None, Some(cancelledAt), cancelledAt)
  }

  /** Which order ends how, for all draws: a cancellation drawn for an order of two hours or more goes first,
      then a cash order of three days or more is refused at the door if its place says so, whatever else was
      drawn; otherwise age and the draw decide. */
  lemma StatusExactlyWhen(p: Placement, end: int, draws: Draws)
    ensures var status, age := Fate(p, end, draws).status, end - p.time;
            var cancelled := draws.cancelled && age >= 7_200_000_000;
            var refused :=
              (p.position + p.customer) % 10 < 6 && age >= 259_200_000_000 &&
              ((p.customer % 8 == 3 && p.position % 3 == 0) || (p.customer % 8 != 3 && p.position % 31 == 0));
            (status == Cancelled <==> cancelled) &&
            (status == FailedDelivery <==> !cancelled && refused) &&
            (status == Completed <==> !cancelled && !refused && draws.completed && age >= 432_000_000_000) &&
            (status == Confirmed <==>
               !cancelled && !refused && !(draws.completed && age >= 432_000_000_000) && age >= 28_800_000_000) &&
            (status == Paid <==> !cancelled && age < 28_800_000_000)
  {
    assert Fate(p, end, draws).status == StatusOf(p, end, draws);
  }

  /** The drawn delays, never past the last two minutes and the last minute of the history. */
  lemma TimestampsExactlyWhen(p: Placement, end: int, draws: Draws)
    ensures var o := Fate(p, end, draws);
            (o.cod <==> (p.position + p.customer) % 10 < 6) &&
            (o.confirmedAt.Some? <==> o.status in {Confirmed, Completed, FailedDelivery}) &&
            (o.confirmedAt.Some? ==>
               o.confirmedAt.value <= end - 120_000_000 &&
               o.confirmedAt.value <= p.time + draws.confirmHours * 3_600_000_000 &&
               o.confirmedAt.value in {end - 120_000_000, p.time + draws.confirmHours * 3_600_000_000}) &&
            (o.completedAt.Some? <==> o.status == Completed) &&
            (o.completedAt.Some? ==>
               o.completedAt.value <= end - 60_000_000 &&
               o.completedAt.value <= o.confirmedAt.value + draws.completeHours * 3_600_000_000 &&
               o.completedAt.value in {end - 60_000_000, o.confirmedAt.value + draws.completeHours * 3_600_000_000}) &&
            (o.cancelledAt.Some? <==> o.status == Cancelled) &&
            (o.cancelledAt.Some? ==>
               o.cancelledAt.value <= end - 60_000_000 &&
               o.cancelledAt.value <= p.time + draws.cancelMinutes * 60_000_000 &&
               o.cancelledAt.value in {end - 60_000_000, p.time + draws.cancelMinutes * 60_000_000}) &&
            (o.paidAt.Some? ==> o.paidAt.value == if o.cod then o.updatedAt else p.time)
  {
    assert Fate(p, end, draws).status == StatusOf(p, end, draws);
  }

  // ----- the status history -----

  datatype Transition = Transition(from: Option<Status>, to: Status, at: int)

  /** The rows the exporter appends, one condition after the other. */
  function History(o: Outcome, time: int): seq<Transition> {
    [Transition(None, Paid, time)]
    + (if o.confirmedAt.Some? then [Transition(Some(Paid), Confirmed, o.confirmedAt.value)] else [])
    + (if o.completedAt.Some? then [Transition(Some(Confirmed), Completed, o.completedAt.value)] else [])
    + (if o.cancelledAt.Some? then [Transition(Some(Paid), Cancelled, o.cancelledAt.value)] else [])
    + (if o.status == FailedDelivery then [Transition(Some(Confirmed), FailedDelivery, o.updatedAt)] else [])
  }

  predicate Chain(h: seq<Transition>) {
    h != [] && h[0].from == None && forall k :: 1 <= k < |h| ==> h[k].from == Some(h[k - 1].to)
  }

  /** Time passes with every step but the failed delivery, which is recorded at the previous one's time. */
  predicate TimePasses(h: seq<Transition>) {
    forall k :: 1 <= k < |h| ==>
      if h[k].to == FailedDelivery then h[k].at == h[k - 1].at else h[k - 1].at < h[k].at
  }

  predicate Within(h: seq<Transition>, from: int, to: int) {
    forall k :: 0 <= k < |h| ==> from <= h[k].at <= to
  }

  /** For all draws, the history leads from nothing to the order's status. */
  lemma HistoryTellsTheStatus(p: Placement, end: int, draws: Draws)
    requires p.time <= end && InRange(draws)
    ensures var o := Fate(p, end, draws);
            var h := History(o, p.time);
            Chain(h) && TimePasses(h) && Within(h, p.time, end) &&
            h[|h| - 1].to == o.status && h[|h| - 1].at == o.updatedAt && h[0].at == p.time &&
            forall k :: 0 <= k < |h| && h[k].to == Confirmed ==> o.confirmedAt == Some(h[k].at)
  {
    var o := Fate(p, end, draws);
    var h := History(o, p.time);
    match o.status
    case Paid => assert h == [Transition(None, Paid, p.time)];
    case Confirmed => assert h == [Transition(None, Paid, p.time), Transition(Some(Paid), Confirmed, o.updatedAt)];
    case Cancelled => assert h == [Transition(None, Paid, p.time), Transition(Some(Paid), Cancelled, o.updatedAt)];
    case Completed =>
      assert h == [Transition(None, Paid, p.time), Transition(Some(Paid), Confirmed, o.confirmedAt.value),
                   Transition(Some(Confirmed), Completed, o.updatedAt)];
    case FailedDelivery =>
      assert h == [Transition(None, Paid, p.time), Transition(Some(Paid), Confirmed, o.updatedAt),
                   Transition(Some(Confirmed), FailedDelivery, o.updatedAt)];
  }

  /** Money is recorded as received once the order is prepaid and not cancelled, or paid at the door. */
  lemma PaidExactlyWhen(p: Placement, end: int, draws: Draws)
    requires p.time <= end && InRange(draws)
    ensures var o := Fate(p, end, draws);
            (o.paidAt.Some? <==> o.status != Cancelled && (!o.cod || o.status == Completed)) &&
            (o.paidAt.Some? ==> p.time <= o.paidAt.value <= o.updatedAt) &&
            (o.status == FailedDelivery ==> o.cod && o.paidAt == None) &&
            (o.status == Paid ==> end - p.time < 8 * HOUR)
  {
    var o := Fate(p, end, draws);
    assert o.status == StatusOf(p, end, draws);
  }

  // ----- the shipment -----

  datatype Attempt = Attempt(number: int, delivered: bool, at: int)

  datatype Shipment = Shipment(failed: bool, attemptCount: int, codTarget: int, codCollected: int, dispatchedAt: int,
                               deliveredAt: Option<int>, failedAt: Option<int>)

  predicate Ships(o: Outcome) {
    o.status == Completed || o.status == FailedDelivery
  }

  function ShipmentOf(o: Outcome, time: int, total: int): Shipment {
    var failed := o.status == FailedDelivery;
    Shipment(failed, if failed then 3 else 1, if o.cod then total else 0, if o.cod && !failed then total else 0,
             Or(o.confirmedAt, time), if failed then None else o.completedAt, if failed then Some(o.updatedAt) else None)
  }

  /** A delivered parcel needs one attempt; a refused one gets three, six hours apart but never after it failed. */
  method DeliveryAttempts(s: Shipment) returns (attempts: seq<Attempt>)
    ensures attempts == Attempts(s)
  {
    if !s.failed {
      return [Attempt(1, true, Or(s.deliveredAt, s.dispatchedAt))];
    }
    attempts := [];
    for number := 1 to 4
      invariant attempts == seq(number - 1, i => FailedAttempt(s, i + 1))
    {
      var at := s.dispatchedAt + 6 * number * HOUR;
      if s.failedAt.Some? && at > s.failedAt.value {
        at := s.failedAt.value;
      }
      attempts := attempts + [Attempt(number, false, at)];
    }
  }

  function FailedAttempt(s: Shipment, number: int): Attempt {
    var at := s.dispatchedAt + 6 * number * HOUR;
    Attempt(number, false, if s.failedAt.Some? then Min(at, s.failedAt.value) else at)
  }

  function Attempts(s: Shipment): seq<Attempt> {
    if s.failed then seq(3, i => FailedAttempt(s, i + 1)) else [Attempt(1, true, Or(s.deliveredAt, s.dispatchedAt))]
  }

  /** The recorded number of attempts is the number of attempt rows; only the last one of a delivered parcel
      succeeds, and cash on delivery is collected exactly there. A failed shipment is recorded as failing at
      the moment it was dispatched, so all its attempts carry that one time. */
  lemma AttemptsAddUp(p: Placement, end: int, draws: Draws, total: int)
    requires p.time <= end && InRange(draws) && Ships(Fate(p, end, draws))
    ensures var o := Fate(p, end, draws);
            var s := ShipmentOf(o, p.time, total);
            var a := Attempts(s);
            |a| == s.attemptCount &&
            (forall k :: 0 <= k < |a| ==> a[k].number == k + 1 && a[k].delivered == (o.status == Completed)) &&
            (forall k :: 0 <= k < |a| ==> a[k].at == o.updatedAt) &&
            p.time < s.dispatchedAt <= o.updatedAt <= end &&
            (s.failed ==> s.dispatchedAt == o.updatedAt) &&
            s.codTarget == (if o.cod then total else 0) &&
            s.codCollected == (if o.cod && o.status == Completed then total else 0) &&
            (s.failed <==> o.status == FailedDelivery) && s.attemptCount == (if s.failed then 3 else 1) &&
            o.confirmedAt == Some(s.dispatchedAt) && s.deliveredAt == o.completedAt &&
            s.failedAt == (if s.failed then Some(o.updatedAt) else None)
  {
    var o := Fate(p, end, draws);
    assert o.status == StatusOf(p, end, draws);
  }
}
