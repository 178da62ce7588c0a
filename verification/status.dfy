/** Order status: the label the Orders page derives at display time
    (frontend/src/pages/Orders.jsx, `getStatus`) and the label the server
    writes when the delivery flag is set (backend/server.js, PUT /api/orders).
    The two are deliberately kept apart: they disagree on old, undelivered orders. */
module OrderStatus {
  import opened Wrappers
  import opened Records

  const MillisPerDay: int := 1000 * 60 * 60 * 24

  /** The four labels `getStatus` can return. */
  datatype Label = Delivered | New | InProgress | Delayed {
    /** The text shown; the delivered label is Arabic for "received". */
    function Text(): string {
      match this
      case Delivered => "تم الاستلام"
      case New => "New"
      case InProgress => "In Progress"
      case Delayed => "Delayed"
    }

    /** Position in the life of an undelivered order. */
    function Rank(): nat {
      match this
      case New => 0
      case InProgress => 1
      case Delayed => 2
      case Delivered => 3
    }
  }

  /** Distinct labels have distinct texts, so a text names exactly one label. */
  lemma TextInjective(a: Label, b: Label)
    requires a.Text() == b.Text()
    ensures a == b
  {
  }

  /** `Math.floor((now - createdAt) / 86400000)`. Dafny's `/` rounds towards
      negative infinity for a positive divisor, as `Math.floor` does, so dates in
      the future give negative day counts. */
  function ElapsedDays(createdAt: Time, now: Time): int {
    (now - createdAt) / MillisPerDay
  }

  /** `getStatus`: delivered first; an order with no creation date is new;
      otherwise at most 2 days is new, 3 to 13 days in progress, older delayed. */
  function GetStatus(isDelivered: bool, createdAt: Option<Time>, now: Time): (r: Label)
    ensures isDelivered <==> r == Delivered
    ensures !isDelivered && createdAt.None? ==> r == New
    ensures !isDelivered && createdAt.Some? ==>
      (r == New <==> ElapsedDays(createdAt.value, now) <= 2)
      && (r == InProgress <==> 3 <= ElapsedDays(createdAt.value, now) <= 13)
      && (r == Delayed <==> 14 <= ElapsedDays(createdAt.value, now))
  {
    if isDelivered then Delivered
    else if createdAt.None? then New
    else
      var diffDays := ElapsedDays(createdAt.value, now);
      if diffDays <= 2 then New
      else if 3 <= diffDays <= 13 then InProgress
      else Delayed
  }

  /** The status shown for a stored order, which always has a creation date. */
  function DisplayStatus(o: Order, now: Time): Label {
    GetStatus(o.isDelivered, Some(o.createdAt), now)
  }

  lemma ElapsedDaysMonotonic(createdAt: Time, now1: Time, now2: Time)
    requires now1 <= now2
    ensures ElapsedDays(createdAt, now1) <= ElapsedDays(createdAt, now2)
  {
    var a, b := now1 - createdAt, now2 - createdAt;
    var qa, qb := a / MillisPerDay, b / MillisPerDay;
    assert a == qa * MillisPerDay + a % MillisPerDay;
    assert b == qb * MillisPerDay + b % MillisPerDay;
  }

  /** As time passes an undelivered order only moves forward through
      New, In Progress, Delayed. */
  lemma StatusMonotonic(createdAt: Option<Time>, now1: Time, now2: Time)
    requires now1 <= now2
    ensures GetStatus(false, createdAt, now1).Rank() <= GetStatus(false, createdAt, now2).Rank()
    ensures GetStatus(false, createdAt, now2) != Delivered
  {
    if createdAt.Some? {
      ElapsedDaysMonotonic(createdAt.value, now1, now2);
    }
  }

  /** The label the server stores when a request sets the delivery flag: the
      delivered label when the flag is truthy, "New" otherwise, whatever the
      order's age. */
  function WriteTimeStatus(isDelivered: bool): (r: string)
    ensures isDelivered ==> r == Delivered.Text()
    ensures !isDelivered ==> r == New.Text()
  {
    if isDelivered then "تم الاستلام" else "New"
  }

  /** The write-time label agrees with `getStatus` on delivered orders and on
      orders at most two days old, but not on older undelivered ones: an order
      created 20 days ago and marked undelivered is stored as "New" and shown
      as "Delayed". */
  lemma WriteTimeAndDisplayDisagree(createdAt: Time, now: Time)
    requires now - createdAt >= 14 * MillisPerDay
    ensures WriteTimeStatus(false) == New.Text()
    ensures GetStatus(false, Some(createdAt), now) == Delayed
    ensures WriteTimeStatus(false) != GetStatus(false, Some(createdAt), now).Text()
  {
    ElapsedDaysMonotonic(createdAt, createdAt + 14 * MillisPerDay, now);
    assert ElapsedDays(createdAt, createdAt + 14 * MillisPerDay) == 14;
  }

  /** On a delivered order, or an undelivered one at most two days old, the
      stored label is the displayed one. */
  lemma WriteTimeAgreesWhenFresh(isDelivered: bool, createdAt: Time, now: Time)
    requires isDelivered || ElapsedDays(createdAt, now) <= 2
    ensures WriteTimeStatus(isDelivered) == GetStatus(isDelivered, Some(createdAt), now).Text()
  {
  }

  /** Exactly where the two labels part: the stored label differs from the
      displayed one iff the order is undelivered and three or more whole days
      old (stored "New", shown "In Progress" or "Delayed"). */
  lemma DisagreeIff(isDelivered: bool, createdAt: Time, now: Time)
    ensures WriteTimeStatus(isDelivered) != GetStatus(isDelivered, Some(createdAt), now).Text()
      <==> !isDelivered && ElapsedDays(createdAt, now) >= 3
  {
    var shown := GetStatus(isDelivered, Some(createdAt), now);
    if WriteTimeStatus(isDelivered) == shown.Text() {
      TextInjective(shown, if isDelivered then Delivered else New);
    }
  }

  /** Orders one, five and twenty days old are new, in progress and delayed;
      a delivered order is delivered at any age. */
  lemma AgeScenarios(now: Time, createdAt: Time)
    ensures GetStatus(false, Some(now - MillisPerDay), now) == New
    ensures GetStatus(false, Some(now - 5 * MillisPerDay), now) == InProgress
    ensures GetStatus(false, Some(now - 20 * MillisPerDay), now) == Delayed
    ensures GetStatus(true, Some(createdAt), now) == Delivered
  {
    assert ElapsedDays(now - MillisPerDay, now) == 1;
    assert ElapsedDays(now - 5 * MillisPerDay, now) == 5;
    assert ElapsedDays(now - 20 * MillisPerDay, now) == 20;
  }
}
