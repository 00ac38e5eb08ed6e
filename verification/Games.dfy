/** src/casino_bot/games/bonus_wheel.py and coin_flip.py: one random draw decides the payout.
    Draws and cumulative weights are idealised as reals. */
module Games {

  datatype Kind = Bust | Half | Equal | TwoAndHalf

  datatype Tier = Tier(name: string, kind: Kind, weight: int)

  const TIERS: seq<Tier> := [
    Tier("bust", Bust, 55), Tier("bronze", Half, 25), Tier("silver", Equal, 12), Tier("gold", TwoAndHalf, 8)
  ]

  /** Net payout of a tier in units; divisions round down. */
  function TierPayout(kind: Kind, stake: nat): int {
    match kind
    case Bust => 0 - stake
    case Half => stake / 2
    case Equal => stake
    case TwoAndHalf => (stake * 5) / 2
  }

  function WeightBefore(tiers: seq<Tier>, i: nat): int
    requires i <= |tiers|
  {
    if i == 0 then 0 else WeightBefore(tiers, i - 1) + tiers[i - 1].weight
  }

  function TotalWeight(tiers: seq<Tier>): int {
    WeightBefore(tiers, |tiers|)
  }

  ghost predicate PositiveWeights(tiers: seq<Tier>) {
    tiers != [] && forall t :: t in tiers ==> t.weight > 0
  }

  /** The draw falls into the tier's half-open cumulative interval. */
  ghost predicate Hits(tiers: seq<Tier>, u: real, i: nat)
    requires PositiveWeights(tiers)
  {
    && i < |tiers|
    && WeightBefore(tiers, i) as real <= u * TotalWeight(tiers) as real < WeightBefore(tiers, i + 1) as real
  }

  lemma {:induction false} WeightsGrow(tiers: seq<Tier>, i: nat, j: nat)
    requires PositiveWeights(tiers) && i <= j <= |tiers|
    ensures WeightBefore(tiers, j) - WeightBefore(tiers, i) >= j - i
  {
    if i < j {
      WeightsGrow(tiers, i, j - 1);
      assert tiers[j - 1] in tiers;
    }
  }

  /** A draw hits at most one tier. */
  lemma HitIsUnique(tiers: seq<Tier>, u: real, i: nat, j: nat)
    requires PositiveWeights(tiers) && Hits(tiers, u, i) && Hits(tiers, u, j)
    ensures i == j
  {
    if i < j {
      WeightsGrow(tiers, i + 1, j);
    } else if j < i {
      WeightsGrow(tiers, j + 1, i);
    }
  }

  /** A weight as a share of the total, as the wheel's loop adds them up. */
  function Share(weight: int, total: int): real
    requires total > 0
  {
    weight as real / total as real
  }

  lemma AddShare(before: int, weight: int, total: int)
    requires total > 0
    ensures Share(before, total) + Share(weight, total) == Share(before + weight, total)
  {
  }

  lemma WholeShare(total: int)
    requires total > 0
    ensures Share(total, total) == 1.0
  {
  }

  lemma Scale(a: real, b: real, t: real)
    requires t > 0.0
    ensures a < b <==> a * t < b * t
  {
    if a < b {
      assert (b - a) * t > 0.0;
    } else {
      assert (a - b) * t >= 0.0;
    }
  }

  /** Comparing the draw with a share is comparing it with a weight. */
  lemma ShareOfTotal(u: real, weight: int, total: int)
    requires total > 0
    ensures u < Share(weight, total) <==> u * total as real < weight as real
  {
    Scale(u, Share(weight, total), total as real);
    assert Share(weight, total) * total as real == weight as real;
  }

  lemma BetweenShares(tiers: seq<Tier>, u: real, i: nat)
    requires PositiveWeights(tiers) && i < |tiers| && TotalWeight(tiers) > 0
    requires Share(WeightBefore(tiers, i), TotalWeight(tiers)) <=
      u < Share(WeightBefore(tiers, i + 1), TotalWeight(tiers))
    ensures Hits(tiers, u, i)
  {
    ShareOfTotal(u, WeightBefore(tiers, i), TotalWeight(tiers));
    ShareOfTotal(u, WeightBefore(tiers, i + 1), TotalWeight(tiers));
  }

  /** The wheel's loop: add up shares until one exceeds the draw; the last tier is the default. */
  method SelectTier(tiers: seq<Tier>, u: real) returns (i: nat)
    requires PositiveWeights(tiers)
    requires 0.0 <= u < 1.0
    ensures Hits(tiers, u, i)
  {
    var total := 0;
    for k := 0 to |tiers|
      invariant total == WeightBefore(tiers, k)
    {
      total := total + tiers[k].weight;
    }
    WeightsGrow(tiers, 0, |tiers|);
    var cumulative := 0.0;
    i := |tiers| - 1;
    for k := 0 to |tiers|
      invariant cumulative == Share(WeightBefore(tiers, k), total) <= u
    {
      AddShare(WeightBefore(tiers, k), tiers[k].weight, total);
      cumulative := cumulative + tiers[k].weight as real / total as real;
      if u < cumulative {
        BetweenShares(tiers, u, k);
        return k;
      }
    }
    // Not reached for a draw below 1: the whole weight has been added up.
    WholeShare(total);
    assert false;
  }

  /** The tier the loop selects, as a function of the draw. */
  function Selected(tiers: seq<Tier>, u: real, i: nat): (k: nat)
    requires i < |tiers|
    ensures i <= k < |tiers|
    decreases |tiers| - i
  {
    if i == |tiers| - 1 || u * TotalWeight(tiers) as real < WeightBefore(tiers, i + 1) as real then i
    else Selected(tiers, u, i + 1)
  }

  lemma BelowAll(tiers: seq<Tier>, u: real)
    requires PositiveWeights(tiers) && u < 1.0
    ensures u * TotalWeight(tiers) as real < WeightBefore(tiers, |tiers|) as real
  {
    WeightsGrow(tiers, 0, |tiers|);
    BelowTotal(u, TotalWeight(tiers), WeightBefore(tiers, |tiers|));
  }

  lemma BelowTotal(u: real, total: int, weight: int)
    requires total == weight > 0 && u < 1.0
    ensures u * total as real < weight as real
  {
    Scale(u, 1.0, total as real);
  }

  lemma {:induction false} SelectedHits(tiers: seq<Tier>, u: real, i: nat)
    requires PositiveWeights(tiers) && u < 1.0 && i < |tiers|
    requires WeightBefore(tiers, i) as real <= u * TotalWeight(tiers) as real
    ensures Hits(tiers, u, Selected(tiers, u, i))
    decreases |tiers| - i
  {
    BelowAll(tiers, u);
    if i + 1 < |tiers| && u * TotalWeight(tiers) as real >= WeightBefore(tiers, i + 1) as real {
      SelectedHits(tiers, u, i + 1);
    }
  }

  // ----- exact odds -----

  /** The k-th of total equally spaced draws, each shifted by the same offset below one step. */
  function Draw(tiers: seq<Tier>, k: nat, offset: real): real
    requires TotalWeight(tiers) > 0
  {
    (k as real + offset) / TotalWeight(tiers) as real
  }

  lemma DrawHits(tiers: seq<Tier>, k: nat, offset: real, i: nat)
    requires PositiveWeights(tiers) && TotalWeight(tiers) > 0 && 0.0 <= offset < 1.0 && i < |tiers|
    ensures Hits(tiers, Draw(tiers, k, offset), i) <==> WeightBefore(tiers, i) <= k < WeightBefore(tiers, i + 1)
  {
    assert Draw(tiers, k, offset) * TotalWeight(tiers) as real == k as real + offset;
  }

  /** How many of the first n equally spaced draws hit a tier. */
  ghost function HitCount(tiers: seq<Tier>, n: nat, offset: real, i: nat): nat
    requires PositiveWeights(tiers) && TotalWeight(tiers) > 0
  {
    if n == 0 then 0 else
    HitCount(tiers, n - 1, offset, i) + if Hits(tiers, Draw(tiers, n - 1, offset), i) then 1 else 0
  }

  lemma {:induction false} HitCountSoFar(tiers: seq<Tier>, n: nat, offset: real, i: nat)
    requires PositiveWeights(tiers) && TotalWeight(tiers) > 0 && 0.0 <= offset < 1.0 && i < |tiers|
    ensures HitCount(tiers, n, offset, i)
         == if n <= WeightBefore(tiers, i) then 0
            else if n <= WeightBefore(tiers, i + 1) then n - WeightBefore(tiers, i)
            else tiers[i].weight
  {
    WeightsGrow(tiers, 0, i);
    WeightsGrow(tiers, i, i + 1);
    if n > 0 {
      HitCountSoFar(tiers, n - 1, offset, i);
      DrawHits(tiers, n - 1, offset, i);
    }
  }

  /** For any positive weights, exactly weight_i of total equally spaced draws select tier i. */
  lemma OddsAreExact(tiers: seq<Tier>, offset: real, i: nat)
    requires PositiveWeights(tiers) && 0.0 <= offset < 1.0 && i < |tiers|
    ensures TotalWeight(tiers) > 0
    ensures HitCount(tiers, TotalWeight(tiers), offset, i) == tiers[i].weight
  {
    WeightsGrow(tiers, 0, |tiers|);
    WeightsGrow(tiers, 0, i);
    WeightsGrow(tiers, i + 1, |tiers|);
    assert tiers[i] in tiers;
    HitCountSoFar(tiers, TotalWeight(tiers), offset, i);
  }

  // ----- the house edge -----

  /** What n equally spaced draws pay in total. */
  function Paid(tiers: seq<Tier>, n: nat, offset: real, stake: nat): int
    requires tiers != [] && TotalWeight(tiers) > 0
  {
    if n == 0 then 0 else
    Paid(tiers, n - 1, offset, stake) + TierPayout(tiers[Selected(tiers, Draw(tiers, n - 1, offset), 0)].kind, stake)
  }

  function WeightedPayout(tiers: seq<Tier>, i: nat, stake: nat): int
    requires i <= |tiers|
  {
    if i == 0 then 0 else
    WeightedPayout(tiers, i - 1, stake) + tiers[i - 1].weight * TierPayout(tiers[i - 1].kind, stake)
  }

  lemma DrawSelects(tiers: seq<Tier>, i: nat, k: nat, offset: real)
    requires PositiveWeights(tiers) && TotalWeight(tiers) > 0 && 0.0 <= offset < 1.0
    requires i < |tiers| && WeightBefore(tiers, i) <= k < WeightBefore(tiers, i + 1)
    ensures Selected(tiers, Draw(tiers, k, offset), 0) == i
  {
    var u := Draw(tiers, k, offset);
    WeightsGrow(tiers, i + 1, |tiers|);
    DrawHits(tiers, k, offset, i);
    assert u * TotalWeight(tiers) as real == k as real + offset;
    BelowOne(u, k as real + offset, TotalWeight(tiers) as real);
    SelectedHits(tiers, u, 0);
    HitIsUnique(tiers, u, i, Selected(tiers, u, 0));
  }

  lemma BelowOne(u: real, x: real, total: real)
    requires total > 0.0 && u * total == x && x < total
    ensures u < 1.0
  {
    Scale(u, 1.0, total);
  }

  /** The claim of PaidUpTo, for one tier and one number of draws. */
  ghost predicate PaidSoFar(tiers: seq<Tier>, i: nat, n: nat, offset: real, stake: nat)
    requires tiers != [] && TotalWeight(tiers) > 0 && i < |tiers|
  {
    Paid(tiers, n, offset, stake)
      == WeightedPayout(tiers, i, stake) + (n - WeightBefore(tiers, i)) * TierPayout(tiers[i].kind, stake)
  }

  lemma PaidOneMore(tiers: seq<Tier>, i: nat, n: nat, offset: real, stake: nat)
    requires PositiveWeights(tiers) && TotalWeight(tiers) > 0 && 0.0 <= offset < 1.0
    requires i < |tiers| && 0 <= WeightBefore(tiers, i) < n <= WeightBefore(tiers, i + 1)
    requires PaidSoFar(tiers, i, n - 1, offset, stake)
    ensures PaidSoFar(tiers, i, n, offset, stake)
  {
    DrawSelects(tiers, i, n - 1, offset);
    OneMoreTime(n - 1 - WeightBefore(tiers, i), TierPayout(tiers[i].kind, stake), Paid(tiers, n - 1, offset, stake),
                WeightedPayout(tiers, i, stake), Paid(tiers, n, offset, stake));
  }

  lemma {:induction false} PaidUpTo(tiers: seq<Tier>, i: nat, n: nat, offset: real, stake: nat)
    requires PositiveWeights(tiers) && TotalWeight(tiers) > 0 && 0.0 <= offset < 1.0
    requires i < |tiers| && WeightBefore(tiers, i) <= n <= WeightBefore(tiers, i + 1)
    ensures PaidSoFar(tiers, i, n, offset, stake)
    decreases i, n
  {
    WeightsGrow(tiers, 0, i);
    if n > WeightBefore(tiers, i) {
      PaidUpTo(tiers, i, n - 1, offset, stake);
      PaidOneMore(tiers, i, n, offset, stake);
    } else if i > 0 {
      WeightsGrow(tiers, i - 1, i);
      PaidUpTo(tiers, i - 1, n, offset, stake);
      PaidWholeTier(tiers, i, n, offset, stake);
    }
  }

  lemma PaidWholeTier(tiers: seq<Tier>, i: nat, n: nat, offset: real, stake: nat)
    requires tiers != [] && TotalWeight(tiers) > 0 && 0 < i < |tiers| && n == WeightBefore(tiers, i)
    requires PaidSoFar(tiers, i - 1, n, offset, stake)
    ensures PaidSoFar(tiers, i, n, offset, stake)
  {
    SameFactor(n - WeightBefore(tiers, i - 1), tiers[i - 1].weight, TierPayout(tiers[i - 1].kind, stake));
  }

  lemma SameFactor(a: int, b: int, x: int)
    requires a == b
    ensures a * x == b * x
  {
  }

  lemma OneMoreTime(n: int, x: int, before: int, base: int, after: int)
    requires before == base + n * x && after == before + x
    ensures after == base + (n + 1) * x
  {
  }

  /** The shipped wheel loses money for the player on average: its 100 equally spaced draws pay
      exactly minus 10.5 stakes, and 16.5 units less for an odd stake, whose payouts round down. */
  lemma HouseEdge(offset: real, stake: nat)
    requires 0.0 <= offset < 1.0
    ensures TotalWeight(TIERS) == 100
    ensures 2 * Paid(TIERS, 100, offset, stake) == -21 * stake - if stake % 2 == 0 then 0 else 33
    ensures stake >= 1 ==> Paid(TIERS, 100, offset, stake) < 0
  {
    assert WeightBefore(TIERS, 1) == 55 && WeightBefore(TIERS, 2) == 80 && WeightBefore(TIERS, 3) == 92;
    assert WeightBefore(TIERS, 4) == 100;
    assert forall t :: t in TIERS ==> t.weight > 0;
    PaidUpTo(TIERS, 3, 100, offset, stake);
    ShippedPayouts(stake);
    EdgeSum(stake, Paid(TIERS, 100, offset, stake));
  }

  lemma ShippedPayouts(stake: nat)
    ensures WeightedPayout(TIERS, 3, stake) == -(55 * stake) + 25 * (stake / 2) + 12 * stake
  {
    assert WeightedPayout(TIERS, 1, stake) == -(55 * stake);
    assert WeightedPayout(TIERS, 2, stake) == -(55 * stake) + 25 * (stake / 2);
  }

  lemma EdgeSum(stake: nat, paid: int)
    requires paid == -(55 * stake) + 25 * (stake / 2) + 12 * stake + 8 * ((stake * 5) / 2)
    ensures 2 * paid == -21 * stake - if stake % 2 == 0 then 0 else 33
  {
    var q := stake / 2;
    if stake % 2 == 0 {
      assert stake == 2 * q && (stake * 5) / 2 == 5 * q;
    } else {
      assert stake == 2 * q + 1 && (stake * 5) / 2 == 5 * q + 2;
    }
  }

  // ----- outcomes of the two games -----

  datatype Outcome = Outcome(name: string, payout: int)

  method WheelOutcome(stake: nat, u: real) returns (o: Outcome)
    requires 0.0 <= u < 1.0
    ensures o == Spin(stake, u)
  {
    assert WeightBefore(TIERS, 0) == 0;
    assert forall t :: t in TIERS ==> t.weight > 0;
    assert WeightBefore(TIERS, 1) == 55 && WeightBefore(TIERS, 2) == 80 && WeightBefore(TIERS, 3) == 92;
    assert TotalWeight(TIERS) == 100;
    var i := SelectTier(TIERS, u);
    SelectedHits(TIERS, u, 0);
    HitIsUnique(TIERS, u, i, Selected(TIERS, u, 0));
    o := Outcome(TIERS[i].name, TierPayout(TIERS[i].kind, stake));
  }

  function Spin(stake: nat, u: real): (o: Outcome)
    ensures 0 - stake <= o.payout <= (stake * 5) / 2
    ensures o.name in {"bust", "bronze", "silver", "gold"}
    ensures o.name == "bust" <==> u * 100.0 < 55.0
  {
    assert WeightBefore(TIERS, 1) == 55 && WeightBefore(TIERS, 2) == 80 && WeightBefore(TIERS, 3) == 92;
    assert WeightBefore(TIERS, 4) == 100;
    var i := Selected(TIERS, u, 0);
    Outcome(TIERS[i].name, TierPayout(TIERS[i].kind, stake))
  }

  /** What the shipped wheel pays: the stake is lost below 0.55, then half the stake, rounded down,
      is won below 0.80, the stake below 0.92, and two and a half stakes from there on. */
  lemma SpinPays(stake: nat, u: real)
    ensures Spin(stake, u) ==
      if u < 0.55 then Outcome("bust", 0 - stake)
      else if u < 0.80 then Outcome("bronze", stake / 2)
      else if u < 0.92 then Outcome("silver", stake)
      else Outcome("gold", (stake * 5) / 2)
  {
    assert WeightBefore(TIERS, 1) == 55 && WeightBefore(TIERS, 2) == 80 && WeightBefore(TIERS, 3) == 92;
    assert TotalWeight(TIERS) == 100;
    assert Selected(TIERS, u, 0) == if u < 0.55 then 0 else if u < 0.80 then 1 else if u < 0.92 then 2 else 3;
  }

  function Flip(stake: nat, u: real): Outcome {
    if u < 0.5 then Outcome("win", stake) else Outcome("lose", 0 - stake)
  }

  /** What the first n of `total` equally spaced draws of the coin pay in total, and how many win. */
  function Flips(n: nat, total: nat, offset: real, stake: nat): (int, nat)
    requires total > 0
  {
    if n == 0 then (0, 0) else
    var (paid, wins) := Flips(n - 1, total, offset, stake);
    var o := Flip(stake, ((n - 1) as real + offset) / total as real);
    (paid + o.payout, wins + if o.name == "win" then 1 else 0)
  }

  lemma FlipAt(k: nat, half: nat, offset: real, stake: nat)
    requires half > 0 && 0.0 <= offset < 1.0
    ensures Flip(stake, (k as real + offset) / (2 * half) as real)
         == if k < half then Outcome("win", stake) else Outcome("lose", 0 - stake)
  {
    var total := (2 * half) as real;
    WinningHalf(DrawOf(k, offset, total), k, half, offset, total);
    assert "win"[0] != "lose"[0];
  }

  function DrawOf(k: nat, offset: real, total: real): (u: real)
    requires total > 0.0
    ensures u * total == k as real + offset
  {
    (k as real + offset) / total
  }

  lemma WinningHalf(u: real, k: nat, half: nat, offset: real, total: real)
    requires total == 2.0 * half as real && half > 0 && 0.0 <= offset < 1.0 && u * total == k as real + offset
    ensures u < 0.5 <==> k < half
  {
    Scale(u, 0.5, total);
  }

  lemma {:induction false} FlipsSoFar(n: nat, half: nat, offset: real, stake: nat)
    requires half > 0 && 0.0 <= offset < 1.0
    ensures var wins := if n <= half then n else half;
      Flips(n, 2 * half, offset, stake) == ((2 * wins - n) * stake, wins)
  {
    if n > 0 {
      FlipsSoFar(n - 1, half, offset, stake);
      FlipAt(n - 1, half, offset, stake);
      var before := if n - 1 <= half then n - 1 else half;
      OneStakeMore(2 * before - (n - 1), stake);
      assert "win"[0] != "lose"[0];
    }
  }

  lemma OneStakeMore(k: int, stake: int)
    ensures k * stake + stake == (k + 1) * stake && k * stake + (0 - stake) == (k - 1) * stake
  {
  }

  /** The coin is fair and pays even money: of any even number of equally spaced draws exactly
      half win, and together they pay nothing. */
  lemma FlipIsEven(half: nat, offset: real, stake: nat)
    requires half > 0 && 0.0 <= offset < 1.0
    ensures Flips(2 * half, 2 * half, offset, stake) == (0, half)
  {
    FlipsSoFar(2 * half, half, offset, stake);
    SameFactor(2 * half - 2 * half, 0, stake);
  }
}
