/** Largest-remainder apportionment and weighted choice, in exact arithmetic. */
module Apportionment {
  import opened Common

  // ----- exact sums -----

  function Total(xs: seq<real>): real {
    if xs == [] then 0.0 else Total(xs[..|xs| - 1]) + xs[|xs| - 1]
  }

  /** Python's `int(x)`: truncation toward zero. */
  function Truncated(x: real): int {
    if x >= 0.0 then x.Floor else -((-x).Floor)
  }

  function Floors(values: seq<real>): seq<int> {
    seq(|values|, i requires 0 <= i < |values| => Truncated(values[i]))
  }

  // ----- the order in which leftovers are handed out -----

  function Fraction(values: seq<real>, i: nat): real
    requires i < |values|
  {
    values[i] - Truncated(values[i]) as real
  }

  /** A larger remainder comes first, a tie goes to the lower index. */
  predicate Precedes(values: seq<real>, i: nat, j: nat)
    requires i < |values| && j < |values|
  {
    Fraction(values, i) > Fraction(values, j) || (Fraction(values, i) == Fraction(values, j) && i < j)
  }

  predicate Indices(values: seq<real>, order: seq<nat>) {
    forall k :: 0 <= k < |order| ==> order[k] < |values|
  }

  predicate InOrder(values: seq<real>, order: seq<nat>)
    requires Indices(values, order)
  {
    forall k, l :: 0 <= k < l < |order| ==> Precedes(values, order[k], order[l])
  }

  /** `sorted(range(n), key=..., reverse=True)`: a stable sort, one index after the other. */
  function Insert(values: seq<real>, order: seq<nat>, i: nat): (r: seq<nat>)
    requires i < |values| && Indices(values, order) && InOrder(values, order)
    requires forall k :: 0 <= k < |order| ==> order[k] < i
    ensures Indices(values, r) && InOrder(values, r) && |r| == |order| + 1
    ensures forall x :: x in r <==> x in order || x == i
  {
    if order == [] then [i]
    else
      var n := |order| - 1;
      if Precedes(values, order[n], i) then order + [i]
      else
        var rest := Insert(values, order[..n], i);
        assert forall x :: x in order <==> x in order[..n] || x == order[n];
        assert forall k :: 0 <= k < |rest| ==> Precedes(values, rest[k], order[n]) by {
          forall k | 0 <= k < |rest|
            ensures Precedes(values, rest[k], order[n])
          {
            assert rest[k] in rest;
            if rest[k] != i {
              var l :| 0 <= l < n && order[..n][l] == rest[k];
              assert order[l] == rest[k];
            }
          }
        }
        rest + [order[n]]
  }

  function Ordered(values: seq<real>, n: nat): (r: seq<nat>)
    requires n <= |values|
    ensures Indices(values, r) && InOrder(values, r) && |r| == n
    ensures forall x: nat :: x in r <==> x < n
  {
    if n == 0 then []
    else
      var rest := Ordered(values, n - 1);
      assert forall k :: 0 <= k < |rest| ==> rest[k] in rest;
      Insert(values, rest, n - 1)
  }

  lemma OrderHasNoRepeats(values: seq<real>, order: seq<nat>, k: nat, l: nat)
    requires Indices(values, order) && InOrder(values, order) && k < |order| && l < |order| && order[k] == order[l]
    ensures k == l
  {
  }

  lemma ListedInOrder(values: seq<real>, order: seq<nat>, k: nat, l: nat)
    requires Indices(values, order) && InOrder(values, order)
    requires k < |order| && l < |order| && Precedes(values, order[k], order[l])
    ensures k < l
  {
  }

  // ----- _largest_remainder -----

  lemma NextDivMod(p: nat, n: nat)
    requires n > 0
    ensures if p % n + 1 == n then (p + 1) % n == 0 && (p + 1) / n == p / n + 1
            else (p + 1) % n == p % n + 1 && (p + 1) / n == p / n
  {
    if p % n + 1 == n {
      DivModUnique(p + 1, n, p / n + 1, 0);
    } else {
      DivModUnique(p + 1, n, p / n, p % n + 1);
    }
  }

  lemma DivModUnique(x: nat, n: nat, q: nat, r: nat)
    requires n > 0 && r < n && x == q * n + r
    ensures x / n == q && x % n == r
  {
    assert (x / n - q) * n == r - x % n;
    Multiple(x / n - q, n);
  }

  lemma Multiple(k: int, n: nat)
    ensures k == 0 || k * n >= n || k * n <= 0 - n
  {
    if k >= 1 {
      assert k * n == (k - 1) * n + n;
    } else if k <= -1 {
      assert k * n == (k + 1) * n - n;
    }
  }

  /** How often the k-th index of the order is served in the first `p` rounds. */
  function Served(p: nat, n: nat, k: nat): nat
    requires n > 0
  {
    p / n + if k < p % n then 1 else 0
  }

  predicate Apportions(values: seq<real>, total: int, counts: seq<int>) {
    |counts| == |values| &&
    (values != [] ==> Sum(counts) == Max(total, Sum(Floors(values)))) &&
    (forall i :: 0 <= i < |values| ==> Share(values, total) <= counts[i] - Truncated(values[i]) <= Share(values, total) + 1) &&
    (forall i, j :: 0 <= i < |values| && 0 <= j < |values| && Precedes(values, i, j) ==>
       counts[i] - Truncated(values[i]) >= counts[j] - Truncated(values[j]))
  }

  /** The number of leftover units every index gets at least. */
  function Share(values: seq<real>, total: int): int {
    if values == [] then 0 else Max(0, total - Sum(Floors(values))) / |values|
  }

  /** The state after `position` units went round the order. */
  predicate Dealt(values: seq<real>, order: seq<nat>, floors: seq<int>, given: seq<int>, position: nat)
    requires values != [] && Indices(values, order) && |order| == |floors| == |given| == |values|
  {
    forall k :: 0 <= k < |values| ==> given[order[k]] == floors[order[k]] + Served(position, |values|, k)
  }

  lemma NextIsDealt(values: seq<real>, order: seq<nat>, floors: seq<int>, given: seq<int>, position: nat)
    requires values != [] && Indices(values, order) && InOrder(values, order)
    requires |order| == |floors| == |given| == |values| && Dealt(values, order, floors, given, position)
    ensures var i := order[position % |values|];
            Dealt(values, order, floors, given[i := given[i] + 1], position + 1)
  {
    var n := |values|;
    var k := position % n;
    NextDivMod(position, n);
    forall l | 0 <= l < n
      ensures given[order[k] := given[order[k]] + 1][order[l]] == floors[order[l]] + Served(position + 1, n, l)
    {
      if order[l] == order[k] {
        OrderHasNoRepeats(values, order, l, k);
      }
    }
  }

  /** `_largest_remainder`: each value is truncated, the leftover units go round the indices by falling
      remainder. Without values there is nobody to give a positive total to. */
  method LargestRemainder(values: seq<real>, total: int) returns (counts: Result<seq<int>, string>)
    ensures counts.Err? <==> values == [] && total > 0
    ensures counts.Ok? ==> Apportions(values, total, counts.value)
  {
    var floors := Floors(values);
    var remainder := total - Sum(floors);
    if values == [] {
      assert Sum(floors) == 0;
      return if remainder > 0 then Err("no values") else Ok([]);
    }
    var n := |values|;
    var order := Ordered(values, n);
    var given := floors;
    var position := 0;
    while position < remainder
      invariant 0 <= position <= Max(0, remainder)
      invariant |given| == n && Sum(given) == Sum(floors) + position
      invariant Dealt(values, order, floors, given, position)
    {
      var i := order[position % n];
      SumUpdate(given, i, given[i] + 1);
      NextIsDealt(values, order, floors, given, position);
      given := given[i := given[i] + 1];
      position := position + 1;
    }
    DealtApportions(values, total, given, position);
    return Ok(given);
  }

  lemma PlaceOf(values: seq<real>, i: nat) returns (k: nat)
    requires i < |values|
    ensures k < |values| && Ordered(values, |values|)[k] == i
  {
    var order := Ordered(values, |values|);
    assert i in order;
    k :| 0 <= k < |order| && order[k] == i;
  }

  lemma ServedShare(values: seq<real>, floors: seq<int>, given: seq<int>, position: nat, i: nat)
    requires i < |values| == |floors| == |given| && Dealt(values, Ordered(values, |values|), floors, given, position)
    ensures position / |values| <= given[i] - floors[i] <= position / |values| + 1
  {
    var k := PlaceOf(values, i);
    assert given[Ordered(values, |values|)[k]] == floors[i] + Served(position, |values|, k);
  }

  lemma ServedFirst(values: seq<real>, floors: seq<int>, given: seq<int>, position: nat, i: nat, j: nat)
    requires i < |values| == |floors| == |given| && j < |values| && Precedes(values, i, j)
    requires Dealt(values, Ordered(values, |values|), floors, given, position)
    ensures given[i] - floors[i] >= given[j] - floors[j]
  {
    var order := Ordered(values, |values|);
    var k := PlaceOf(values, i);
    var l := PlaceOf(values, j);
    ListedInOrder(values, order, k, l);
    assert given[order[k]] == floors[i] + Served(position, |values|, k);
    assert given[order[l]] == floors[j] + Served(position, |values|, l);
  }

  lemma DealtApportions(values: seq<real>, total: int, given: seq<int>, position: nat)
    requires values != [] && |given| == |values|
    requires Dealt(values, Ordered(values, |values|), Floors(values), given, position)
    requires position == Max(0, total - Sum(Floors(values))) && Sum(given) == Sum(Floors(values)) + position
    ensures Apportions(values, total, given)
  {
    forall i | 0 <= i < |values|
      ensures Share(values, total) <= given[i] - Truncated(values[i]) <= Share(values, total) + 1
    {
      ServedShare(values, Floors(values), given, position, i);
    }
    forall i, j | 0 <= i < |values| && 0 <= j < |values| && Precedes(values, i, j)
      ensures given[i] - Truncated(values[i]) >= given[j] - Truncated(values[j])
    {
      ServedFirst(values, Floors(values), given, position, i, j);
    }
  }

  /** The three promises leave no freedom: any two apportionments agree. */
  lemma ApportionmentIsUnique(values: seq<real>, total: int, a: seq<int>, b: seq<int>)
    requires Apportions(values, total, a) && Apportions(values, total, b)
    ensures a == b
  {
    if a != b {
      var i :| 0 <= i < |values| && a[i] != b[i];
      var (lo, hi) := if a[i] < b[i] then (a, b) else (b, a);
      forall j | 0 <= j < |values|
        ensures lo[j] <= hi[j]
      {
        assert j == i || Precedes(values, i, j) || Precedes(values, j, i);
      }
      SumStrict(lo, hi, i);
    }
  }

  lemma {:induction false} SumStrict(lo: seq<int>, hi: seq<int>, i: nat)
    requires |lo| == |hi| && i < |lo| && lo[i] < hi[i] && forall j :: 0 <= j < |lo| ==> lo[j] <= hi[j]
    ensures Sum(lo) < Sum(hi)
  {
    var n := |lo| - 1;
    if i < n {
      SumStrict(lo[..n], hi[..n], i);
    } else {
      SumMonotone(lo[..n], hi[..n]);
    }
  }

  lemma {:induction false} SumMonotone(lo: seq<int>, hi: seq<int>)
    requires |lo| == |hi| && forall j :: 0 <= j < |lo| ==> lo[j] <= hi[j]
    ensures Sum(lo) <= Sum(hi)
  {
    if lo != [] {
      SumMonotone(lo[..|lo| - 1], hi[..|hi| - 1]);
    }
  }

  lemma TruncatedIsFloor(x: real)
    requires x >= 0.0
    ensures Truncated(x) == x.Floor
  {
  }

  /** For values that are not negative: everybody gets the whole units of its value, and of the leftover units
      nobody gets fewer than somebody with a smaller fraction, or with the same fraction and a later place. */
  lemma LeftoversFollowTheFractions(values: seq<real>, total: int, counts: seq<int>, i: nat, j: nat)
    requires Apportions(values, total, counts) && forall k :: 0 <= k < |values| ==> values[k] >= 0.0
    requires i < |values| && j < |values|
    ensures counts[i] >= values[i].Floor
    ensures values[i] - values[i].Floor as real > values[j] - values[j].Floor as real ==>
              counts[i] - values[i].Floor >= counts[j] - values[j].Floor
    ensures values[i] - values[i].Floor as real == values[j] - values[j].Floor as real && i < j ==>
              counts[i] - values[i].Floor >= counts[j] - values[j].Floor
  {
    TruncatedIsFloor(values[i]);
    TruncatedIsFloor(values[j]);
    ShareIsNonNegative(values, total);
    assert Precedes(values, i, j) ==> counts[i] - Truncated(values[i]) >= counts[j] - Truncated(values[j]);
  }

  // ----- _order_targets -----

  function Ones(n: nat): seq<int> {
    seq(n, _ => 1)
  }

  /** The draws, or one each when they add up to nothing. */
  function Raw(draws: seq<int>): seq<int> {
    if Sum(draws) == 0 then Ones(|draws|) else draws
  }

  function Scaled(raw: seq<int>, total: int): seq<real>
    requires Sum(raw) != 0
  {
    seq(|raw|, i requires 0 <= i < |raw| => (raw[i] * total) as real / Sum(raw) as real)
  }

  lemma {:induction false} SumOfOnes(n: nat)
    ensures Sum(Ones(n)) == n
  {
    if n > 0 {
      SumOfOnes(n - 1);
      assert Ones(n)[..n - 1] == Ones(n - 1);
    }
  }

  lemma {:induction false} ScaledPrefix(raw: seq<int>, total: int, d: real, n: nat)
    requires n <= |raw| && d != 0.0
    ensures Total(seq(n, i requires 0 <= i < n => (raw[i] * total) as real / d)) == (Sum(raw[..n]) * total) as real / d
  {
    var xs := seq(n, i requires 0 <= i < n => (raw[i] * total) as real / d);
    if n > 0 {
      ScaledPrefix(raw, total, d, n - 1);
      assert xs[..n - 1] == seq(n - 1, i requires 0 <= i < n - 1 => (raw[i] * total) as real / d);
      assert raw[..n][..n - 1] == raw[..n - 1];
      assert Sum(raw[..n]) == Sum(raw[..n - 1]) + raw[n - 1];
      Distribute(Sum(raw[..n - 1]), raw[n - 1], total, d);
    }
  }

  lemma Distribute(a: int, b: int, t: int, d: real)
    requires d != 0.0
    ensures (a * t) as real / d + (b * t) as real / d == ((a + b) * t) as real / d
  {
    assert (a + b) * t == a * t + b * t;
  }

  /** Truncating non-negative values loses less than one unit each. */
  lemma {:induction false} FloorsLoseLittle(values: seq<real>)
    requires forall i :: 0 <= i < |values| ==> values[i] >= 0.0
    ensures Sum(Floors(values)) as real <= Total(values)
    ensures values != [] ==> Total(values) < Sum(Floors(values)) as real + |values| as real
  {
    if values != [] {
      var n := |values| - 1;
      FloorsLoseLittle(values[..n]);
      assert Floors(values)[..n] == Floors(values[..n]);
    }
  }

  lemma ProductQuotient(a: int, t: int)
    requires a != 0
    ensures (a * t) as real / a as real == t as real
  {
    assert (a * t) as real == a as real * t as real;
    CancelFactor(a as real, t as real);
  }

  lemma CancelFactor(a: real, t: real)
    requires a != 0.0
    ensures a * t / a == t
  {
  }

  lemma ScaledTotal(raw: seq<int>, total: int)
    requires Sum(raw) != 0
    ensures Total(Scaled(raw, total)) == total as real
  {
    ScaledPrefix(raw, total, Sum(raw) as real, |raw|);
    assert raw[..|raw|] == raw;
    ProductQuotient(Sum(raw), total);
  }

  /** The customer with draw `raw[i]` gets the floor of the proportional share or one more. */
  ghost predicate NearShares(raw: seq<int>, total: nat, targets: seq<int>)
    requires Sum(raw) > 0
  {
    |targets| == |raw| && Sum(targets) == total &&
    forall i :: 0 <= i < |raw| ==> Scaled(raw, total)[i].Floor <= targets[i] <= Scaled(raw, total)[i].Floor + 1
  }

  lemma FloorOfQuotient(a: int, s: int, k: int)
    requires s > 0 && k == (a as real / s as real).Floor
    ensures k * s <= a < (k + 1) * s
  {
    var x := a as real / s as real;
    QuotientTimes(a as real, s as real);
    BetweenProducts(k, x, s, a);
  }

  lemma BetweenProducts(k: int, x: real, s: int, a: int)
    requires s > 0 && k as real <= x < (k + 1) as real && x * s as real == a as real
    ensures k * s <= a < (k + 1) * s
  {
    OrderedProducts(k as real, x, s as real);
    StrictProducts(x, (k + 1) as real, s as real);
    ProductAsReal(k, s);
    ProductAsReal(k + 1, s);
    var low, high := k * s, (k + 1) * s;
    assert low as real <= a as real < high as real;
  }

  lemma QuotientTimes(a: real, d: real)
    requires d != 0.0
    ensures a / d * d == a
  {
  }

  lemma ProductAsReal(a: int, b: int)
    ensures (a * b) as real == a as real * b as real
  {
  }

  lemma OrderedProducts(a: real, b: real, c: real)
    requires a <= b && c >= 0.0
    ensures a * c <= b * c
  {
    assert (b - a) * c >= 0.0;
  }

  lemma StrictProducts(a: real, b: real, c: real)
    requires a < b && c > 0.0
    ensures a * c < b * c
  {
    assert (b - a) * c > 0.0;
  }

  /** Each target is the floor of the proportional share or one more: `weights[i] * total / sum`, in integers. */
  ghost predicate Proportional(weights: seq<int>, sum: int, total: nat, targets: seq<int>) {
    |targets| == |weights| && Sum(targets) == total &&
    forall i :: 0 <= i < |targets| ==>
      (targets[i] - 1) * sum <= weights[i] * total < (targets[i] + 1) * sum
  }

  lemma NearIsProportional(raw: seq<int>, total: nat, targets: seq<int>)
    requires Sum(raw) > 0 && NearShares(raw, total, targets)
    ensures Proportional(raw, Sum(raw), total, targets)
  {
    forall i | 0 <= i < |raw|
      ensures (targets[i] - 1) * Sum(raw) <= raw[i] * total < (targets[i] + 1) * Sum(raw)
    {
      var k := Scaled(raw, total)[i].Floor;
      FloorOfQuotient(raw[i] * total, Sum(raw), k);
      if targets[i] == k + 1 {
        assert (targets[i] + 1) * Sum(raw) == (k + 1) * Sum(raw) + Sum(raw);
      } else {
        assert (targets[i] - 1) * Sum(raw) == k * Sum(raw) - Sum(raw);
      }
    }
  }

  lemma RawIsPositive(draws: seq<int>)
    requires draws != [] && forall i :: 0 <= i < |draws| ==> draws[i] >= 0
    ensures Sum(Raw(draws)) > 0 && forall i :: 0 <= i < |draws| ==> Raw(draws)[i] >= 0
  {
    SumNonNegative(draws);
    SumOfOnes(|draws|);
  }

  lemma QuotientIsZero(x: nat, n: nat)
    requires x < n
    ensures x / n == 0
  {
    DivModUnique(x, n, 0, x);
  }

  lemma SharesAreNear(raw: seq<int>, total: nat, targets: seq<int>)
    requires Sum(raw) > 0 && forall i :: 0 <= i < |raw| ==> raw[i] >= 0
    requires Apportions(Scaled(raw, total), total, targets)
    ensures NearShares(raw, total, targets)
  {
    var scaled := Scaled(raw, total);
    ScaledNonNegative(raw, total);
    ScaledTotal(raw, total);
    FloorsLoseLittle(scaled);
    QuotientIsZero(total - Sum(Floors(scaled)), |scaled|);
    assert Share(scaled, total) == 0;
  }

  /** `_order_targets`: exactly `total` orders are handed out, in proportion to the draws. */
  method OrderTargets(draws: seq<int>, total: nat) returns (targets: Result<seq<int>, string>)
    requires forall i :: 0 <= i < |draws| ==> draws[i] >= 0
    ensures targets.Err? <==> draws == [] && total > 0
    ensures targets.Ok? && draws == [] ==> targets.value == []
    ensures targets.Ok? && draws != [] ==>
              Sum(Raw(draws)) > 0 && NearShares(Raw(draws), total, targets.value) &&
              Apportions(Scaled(Raw(draws), total), total, targets.value)
    ensures targets.Ok? && Sum(draws) > 0 ==> Proportional(draws, Sum(draws), total, targets.value)
    ensures targets.Ok? && draws != [] && Sum(draws) == 0 ==>
              Proportional(seq(|draws|, _ => 1), |draws|, total, targets.value)
  {
    if draws == [] {
      targets := LargestRemainder([], total);
    } else {
      RawIsPositive(draws);
      targets := LargestRemainder(Scaled(Raw(draws), total), total);
      SharesAreNear(Raw(draws), total, targets.value);
      NearIsProportional(Raw(draws), total, targets.value);
      SumOfOnes(|draws|);
    }
  }

  lemma ScaledNonNegative(raw: seq<int>, total: nat)
    requires Sum(raw) > 0 && forall i :: 0 <= i < |raw| ==> raw[i] >= 0
    ensures forall i :: 0 <= i < |raw| ==> Scaled(raw, total)[i] >= 0.0
  {
    forall i | 0 <= i < |raw|
      ensures Scaled(raw, total)[i] >= 0.0
    {
      assert raw[i] * total >= 0;
      assert (raw[i] * total) as real / Sum(raw) as real >= 0.0;
    }
  }

  // ----- _class_assignment -----

  datatype CustomerClass = CustomerClass(name: string, share: real)

  function Quotas(classes: seq<CustomerClass>, customers: nat): seq<real> {
    seq(|classes|, i requires 0 <= i < |classes| => classes[i].share * customers as real)
  }

  function Repeated(name: string, count: int): seq<string> {
    seq(Max(0, count), _ => name)
  }

  /** Class after class, each as often as it was given customers. */
  function Labels(classes: seq<CustomerClass>, counts: seq<int>): seq<string>
    requires |counts| == |classes|
  {
    if classes == [] then []
    else
      var n := |classes| - 1;
      Labels(classes[..n], counts[..n]) + Repeated(classes[n].name, counts[n])
  }

  lemma {:induction false} LabelsPerCount(classes: seq<CustomerClass>, counts: seq<int>)
    requires |counts| == |classes| && forall i :: 0 <= i < |counts| ==> counts[i] >= 0
    ensures |Labels(classes, counts)| == Sum(counts)
  {
    if classes != [] {
      LabelsPerCount(classes[..|classes| - 1], counts[..|classes| - 1]);
    }
  }

  predicate DistinctNames(classes: seq<CustomerClass>) {
    forall i, j :: 0 <= i < j < |classes| ==> classes[i].name != classes[j].name
  }

  lemma LabelsLackName(classes: seq<CustomerClass>, counts: seq<int>, name: string)
    requires |counts| == |classes| && forall i :: 0 <= i < |classes| ==> classes[i].name != name
    ensures multiset(Labels(classes, counts))[name] == 0
  {
    if classes != [] {
      var n := |classes| - 1;
      LabelsLackName(classes[..n], counts[..n], name);
      RepeatedCount(classes[n].name, counts[n], name);
    }
  }

  lemma RepeatedCount(own: string, count: int, name: string)
    ensures multiset(Repeated(own, count))[name] == if own == name then Max(0, count) else 0
    decreases Max(0, count)
  {
    var labels := Repeated(own, count);
    if count > 0 {
      RepeatedCount(own, count - 1, name);
      assert labels == Repeated(own, count - 1) + [own];
    } else {
      assert labels == [];
    }
  }

  /** Every class's label occurs as often as the class was given customers. */
  lemma {:induction false} LabelsPerClass(classes: seq<CustomerClass>, counts: seq<int>, i: nat)
    requires |counts| == |classes| && DistinctNames(classes) && i < |classes| && counts[i] >= 0
    ensures multiset(Labels(classes, counts))[classes[i].name] == counts[i]
  {
    var n := |classes| - 1;
    RepeatedCount(classes[n].name, counts[n], classes[i].name);
    if i < n {
      LabelsPerClass(classes[..n], counts[..n], i);
    } else {
      LabelsLackName(classes[..n], counts[..n], classes[i].name);
    }
  }

  /** No class is given a negative number of customers. */
  lemma CountsAreNonNegative(classes: seq<CustomerClass>, customers: nat, counts: seq<int>)
    requires forall i :: 0 <= i < |classes| ==> classes[i].share >= 0.0
    requires Apportions(Quotas(classes, customers), customers, counts)
    ensures forall i :: 0 <= i < |classes| ==> counts[i] >= 0
  {
    var quotas := Quotas(classes, customers);
    ShareIsNonNegative(quotas, customers);
    forall i | 0 <= i < |classes|
      ensures counts[i] >= 0
    {
      ProductIsNonNegative(classes[i].share, customers);
      assert Truncated(quotas[i]) >= 0;
    }
  }

  lemma ShareIsNonNegative(values: seq<real>, total: int)
    ensures Share(values, total) >= 0
  {
  }

  lemma ProductIsNonNegative(x: real, n: nat)
    requires x >= 0.0
    ensures x * n as real >= 0.0
  {
  }

  predicate LabelledBy(classes: seq<CustomerClass>, customers: nat, counts: seq<int>, labels: seq<string>) {
    Apportions(Quotas(classes, customers), customers, counts) && multiset(labels) == multiset(Labels(classes, counts))
  }

  lemma LabelledPerShare(classes: seq<CustomerClass>, customers: nat, counts: seq<int>, labels: seq<string>)
    requires forall i :: 0 <= i < |classes| ==> classes[i].share >= 0.0
    requires DistinctNames(classes) && LabelledBy(classes, customers, counts, labels)
    ensures forall i :: 0 <= i < |classes| ==>
              multiset(labels)[classes[i].name] == counts[i] >= (classes[i].share * customers as real).Floor
  {
    forall i | 0 <= i < |classes|
      ensures multiset(labels)[classes[i].name] == counts[i] >= (classes[i].share * customers as real).Floor
    {
      QuotaAt(classes, customers, i);
      CountCoversValue(Quotas(classes, customers), customers, counts, i);
      LabelsPerClass(classes, counts, i);
    }
  }

  lemma QuotaAt(classes: seq<CustomerClass>, customers: nat, i: nat)
    requires i < |classes| && classes[i].share >= 0.0
    ensures Quotas(classes, customers)[i] == classes[i].share * customers as real >= 0.0
  {
    ProductIsNonNegative(classes[i].share, customers);
  }

  lemma CountCoversValue(values: seq<real>, total: int, counts: seq<int>, i: nat)
    requires i < |values| && values[i] >= 0.0 && Apportions(values, total, counts)
    ensures 0 <= values[i].Floor <= counts[i]
  {
    TruncatedIsFloor(values[i]);
    ShareIsNonNegative(values, total);
  }

  /** Python's `shuffle`: from the end, each label changes places with a drawn one not after it. */
  method Shuffle(labels: seq<string>, draw: nat -> nat) returns (shuffled: seq<string>)
    ensures multiset(shuffled) == multiset(labels)
  {
    shuffled := labels;
    var i := |labels|;
    while i > 1
      invariant |shuffled| == |labels| && i <= |labels|
      invariant multiset(shuffled) == multiset(labels)
    {
      i := i - 1;
      var j := draw(i) % (i + 1);
      shuffled := shuffled[i := shuffled[j]][j := shuffled[i]];
    }
  }

  lemma SameSize(a: seq<string>, b: seq<string>)
    requires multiset(a) == multiset(b)
    ensures |a| == |b|
  {
    assert |multiset(a)| == |a| && |multiset(b)| == |b|;
  }

  /** `_class_assignment`: one label a customer exactly when the truncated shares do not already exceed the
      customers, in some order, each class as often as it was given customers. */
  method ClassAssignment(customers: nat, classes: seq<CustomerClass>, draw: nat -> nat)
    returns (labels: Result<seq<string>, string>)
    requires forall i :: 0 <= i < |classes| ==> classes[i].share >= 0.0
    ensures labels.Err? <==> classes == [] && customers > 0
    ensures labels.Ok? ==> (|labels.value| == customers <==> Sum(Floors(Quotas(classes, customers))) <= customers)
    ensures labels.Ok? ==> exists counts :: LabelledBy(classes, customers, counts, labels.value)
    ensures labels.Ok? && DistinctNames(classes) ==>
              forall i :: 0 <= i < |classes| ==>
                multiset(labels.value)[classes[i].name] >= (classes[i].share * customers as real).Floor
  {
    var result := LargestRemainder(Quotas(classes, customers), customers);
    if result.Err? {
      return Err(result.error);
    }
    var counts := result.value;
    CountsAreNonNegative(classes, customers, counts);
    var assignment: seq<string> := [];
    for i := 0 to |classes|
      invariant assignment == Labels(classes[..i], counts[..i])
    {
      assert classes[..i + 1][..i] == classes[..i] && counts[..i + 1][..i] == counts[..i];
      assignment := assignment + Repeated(classes[i].name, counts[i]);
    }
    assert classes[..|classes|] == classes && counts[..|counts|] == counts;
    LabelsPerCount(classes, counts);
    var shuffled := Shuffle(assignment, draw);
    SameSize(shuffled, assignment);
    assert LabelledBy(classes, customers, counts, shuffled);
    if DistinctNames(classes) {
      LabelledPerShare(classes, customers, counts, shuffled);
    }
    return Ok(shuffled);
  }

  /** The configuration accepts shares whose sum is at most this far from one. */
  const SHARE_TOLERANCE := 0.000001

  /** Shares within the configured tolerance of one can still name one customer too many. */
  lemma TolerantSharesCanOverflow()
    ensures var classes := [CustomerClass("a", 0.5), CustomerClass("b", 0.5000008)];
            -SHARE_TOLERANCE < classes[0].share + classes[1].share - 1.0 < SHARE_TOLERANCE &&
            Sum(Floors(Quotas(classes, 1_250_000))) == 1_250_001
  {
    var classes := [CustomerClass("a", 0.5), CustomerClass("b", 0.5000008)];
    var floors := Floors(Quotas(classes, 1_250_000));
    assert floors == [625_000, 625_001];
    assert floors[..1] == [625_000];
    assert Sum([625_000]) == 625_000 by { assert [625_000][..0] == []; }
  }

  // ----- _weighted_index -----

  lemma {:induction false} TotalGrows(weights: seq<real>, n: nat)
    requires n <= |weights| && forall i :: 0 <= i < |weights| ==> weights[i] >= 0.0
    ensures Total(weights[..n]) <= Total(weights)
  {
    if n < |weights| {
      var m := |weights| - 1;
      TotalGrows(weights[..m], n);
      assert weights[..m][..n] == weights[..n];
    } else {
      assert weights[..n] == weights;
    }
  }

  function Portion(draw: real, total: real): real {
    draw * total
  }

  lemma DrawStaysBelow(draw: real, total: real)
    requires draw < 1.0
    ensures total > 0.0 ==> Portion(draw, total) < total
  {
    assert (1.0 - draw) * total == total - draw * total;
    assert total > 0.0 ==> (1.0 - draw) * total > 0.0;
  }

  /** `_weighted_index` with `draw` from [0, 1): the index whose cumulative interval holds the scaled
      draw, so never one of weight zero; only when every weight is zero is it the last index. */
  method WeightedIndex(draw: real, weights: seq<real>) returns (index: int)
    requires 0.0 <= draw < 1.0 && forall i :: 0 <= i < |weights| ==> weights[i] >= 0.0
    ensures Total(weights) > 0.0 ==>
              0 <= index < |weights| && weights[index] > 0.0 &&
              Total(weights[..index]) <= Portion(draw, Total(weights)) < Total(weights[..index + 1])
    ensures Total(weights) == 0.0 ==> index == |weights| - 1
  {
    var total := Total(weights);
    var target := Portion(draw, total);
    var cumulative := 0.0;
    TotalGrows(weights, 0);
    assert weights[..0] == [];
    for i := 0 to |weights|
      invariant cumulative == Total(weights[..i]) && cumulative <= target
    {
      assert weights[..i + 1][..i] == weights[..i];
      cumulative := cumulative + weights[i];
      if target < cumulative {
        TotalGrows(weights, i + 1);
        return i;
      }
    }
    assert weights[..|weights|] == weights;
    assert cumulative == total && cumulative <= target;
    DrawStaysBelow(draw, total);
    assert total <= 0.0;
    return |weights| - 1;
  }
}
