/** The dispatch linear program (renewables_portfolio_dispatch/app/optimizer/dispatch.py): objective and
    constraints as formulated, an optimum being any feasible schedule that no feasible one beats. */
module Dispatch {
  import opened Reals

  datatype Asset = Asset(capacityMw: real, rampMwPerMin: real)

  /** Megawatts by asset and interval. */
  type Schedule = seq<seq<real>>

  predicate Shaped(p: Schedule, n: nat, t: nat) { |p| == n && forall i :: 0 <= i < n ==> |p[i]| == t }

  /** Total of one interval over all assets. */
  function Portfolio(p: Schedule, t: nat): real
    requires forall i :: 0 <= i < |p| ==> t < |p[i]|
  {
    if p == [] then 0.0 else p[0][t] + Portfolio(p[1..], t)
  }

  /** The totals of all intervals. */
  function Totals(p: Schedule, n: nat, t: nat): seq<real>
    requires Shaped(p, n, t)
  {
    seq(t, k requires 0 <= k < t => Portfolio(p, k))
  }

  function Revenue(prices: seq<real>, totals: seq<real>): real
    requires |prices| == |totals|
  {
    if prices == [] then 0.0 else prices[0] * totals[0] + Revenue(prices[1..], totals[1..])
  }

  /** The 1-norm of the difference between scheduled and forecast totals. */
  function Imbalance(totals: seq<real>, forecast: seq<real>): real
    requires |totals| == |forecast|
  {
    if totals == [] then 0.0 else Abs(totals[0] - forecast[0]) + Imbalance(totals[1..], forecast[1..])
  }

  datatype Problem = Problem(assets: seq<Asset>, prices: seq<real>, forecasts: Schedule,
                             tolerance: real, penalty: real) {
    predicate WellFormed() { Shaped(forecasts, |assets|, |prices|) }

    function Forecast(): seq<real>
      requires WellFormed()
    {
      Totals(forecasts, |assets|, |prices|)
    }

    function Objective(p: Schedule): real
      requires WellFormed() && Shaped(p, |assets|, |prices|)
    {
      var totals := Totals(p, |assets|, |prices|);
      Revenue(prices, totals) - penalty * Imbalance(totals, Forecast())
    }

    /** Capacity, nonnegativity and ramp, row by row. */
    predicate WithinLimits(p: Schedule)
      requires Shaped(p, |assets|, |prices|)
    {
      forall i :: 0 <= i < |assets| ==>
        && (forall t :: 0 <= t < |prices| ==> 0.0 <= p[i][t] <= assets[i].capacityMw)
        && (forall t :: 1 <= t < |prices| ==> Abs(p[i][t] - p[i][t - 1]) <= assets[i].rampMwPerMin * 60.0)
    }

    predicate Feasible(p: Schedule)
      requires WellFormed()
    {
      && Shaped(p, |assets|, |prices|)
      && WithinLimits(p)
      && Imbalance(Totals(p, |assets|, |prices|), Forecast()) <= tolerance
    }

    ghost predicate Optimal(p: Schedule)
      requires WellFormed()
    {
      Feasible(p) && forall q :: Feasible(q) ==> Objective(q) <= Objective(p)
    }
  }

  predicate PricesAtMost(prices: seq<real>, most: real) { forall t :: 0 <= t < |prices| ==> Abs(prices[t]) <= most }

  lemma {:induction false} ImbalanceNonNegative(a: seq<real>, b: seq<real>)
    requires |a| == |b|
    ensures Imbalance(a, b) >= 0.0
  {
    if a != [] { ImbalanceNonNegative(a[1..], b[1..]); }
  }

  lemma {:induction false} NoImbalanceWithItself(a: seq<real>)
    ensures Imbalance(a, a) == 0.0
  {
    if a != [] { NoImbalanceWithItself(a[1..]); }
  }

  /** Scheduled revenue exceeds the forecast's by at most the dearest price times the imbalance. */
  predicate RevenueGain(revenue: real, forecastRevenue: real, most: real, imbalance: real) {
    revenue - forecastRevenue <= most * imbalance
  }

  lemma {:induction false} DeviationEarnsAtMost(prices: seq<real>, totals: seq<real>, forecast: seq<real>, most: real)
    requires |prices| == |totals| == |forecast| && PricesAtMost(prices, most)
    ensures RevenueGain(Revenue(prices, totals), Revenue(prices, forecast), most, Imbalance(totals, forecast))
  {
    if prices != [] {
      var r, f := Revenue(prices[1..], totals[1..]), Revenue(prices[1..], forecast[1..]);
      var i := Imbalance(totals[1..], forecast[1..]);
      LaterPricesAtMost(prices, most);
      DeviationEarnsAtMost(prices[1..], totals[1..], forecast[1..], most);
      GainStep(prices[0], totals[0], forecast[0], most, r, f, i,
               Revenue(prices, totals), Revenue(prices, forecast), Imbalance(totals, forecast));
    }
  }

  lemma LaterPricesAtMost(prices: seq<real>, most: real)
    requires prices != [] && PricesAtMost(prices, most)
    ensures PricesAtMost(prices[1..], most) && Abs(prices[0]) <= most
  {}

  lemma GainStep(price: real, total: real, forecast: real, most: real, r: real, f: real, i: real,
                 revenue: real, forecastRevenue: real, imbalance: real)
    requires Abs(price) <= most && RevenueGain(r, f, most, i)
    requires revenue == price * total + r && forecastRevenue == price * forecast + f
    requires imbalance == Abs(total - forecast) + i
    ensures RevenueGain(revenue, forecastRevenue, most, imbalance)
  {
    var d := total - forecast;
    assert price * total - price * forecast == price * d;
    assert price * d <= most * Abs(d) by {
      if d >= 0.0 { MulMono(price, most, d); } else { MulMono(-price, most, -d); }
    }
    assert most * (Abs(d) + i) == most * Abs(d) + most * i;
  }

  // ----- Bounds on every feasible schedule -----

  predicate ObjectiveWithin(objective: real, revenue: real, excess: real, imbalance: real) {
    objective <= revenue + excess * imbalance
  }

  lemma ObjectiveStep(most: real, penalty: real, imbalance: real, revenue: real, forecastRevenue: real)
    requires RevenueGain(revenue, forecastRevenue, most, imbalance) && imbalance >= 0.0
    ensures ObjectiveWithin(revenue - penalty * imbalance, forecastRevenue, Max(0.0, most - penalty), imbalance)
  {
    MulMono(most - penalty, Max(0.0, most - penalty), imbalance);
    assert (most - penalty) * imbalance == most * imbalance - penalty * imbalance;
  }

  lemma WithinTolerance(objective: real, revenue: real, excess: real, imbalance: real, tolerance: real)
    requires ObjectiveWithin(objective, revenue, excess, imbalance) && excess >= 0.0 && imbalance <= tolerance
    ensures ObjectiveWithin(objective, revenue, excess, tolerance)
  {
    MulMono(imbalance, tolerance, excess);
  }

  /** No feasible schedule earns more than the forecast's revenue plus max(0, max|price| - penalty) times
      the imbalance tolerance. */
  lemma FeasibleObjectiveBound(pr: Problem, p: Schedule, most: real)
    requires pr.WellFormed() && pr.Feasible(p) && PricesAtMost(pr.prices, most)
    ensures ObjectiveWithin(pr.Objective(p), Revenue(pr.prices, pr.Forecast()),
                            Max(0.0, most - pr.penalty), pr.tolerance)
  {
    var totals, forecast := Totals(p, |pr.assets|, |pr.prices|), pr.Forecast();
    var imbalance := Imbalance(totals, forecast);
    DeviationEarnsAtMost(pr.prices, totals, forecast, most);
    ImbalanceNonNegative(totals, forecast);
    ObjectiveStep(most, pr.penalty, imbalance, Revenue(pr.prices, totals), Revenue(pr.prices, forecast));
    WithinTolerance(pr.Objective(p), Revenue(pr.prices, forecast), Max(0.0, most - pr.penalty),
                    imbalance, pr.tolerance);
  }

  /** A forecast inside the assets' limits is itself a feasible schedule, and earns its revenue. */
  lemma ForecastIsFeasible(pr: Problem)
    requires pr.WellFormed() && pr.WithinLimits(pr.forecasts) && pr.tolerance >= 0.0
    ensures pr.Feasible(pr.forecasts) && pr.Objective(pr.forecasts) == Revenue(pr.prices, pr.Forecast())
  {
    NoImbalanceWithItself(pr.Forecast());
  }

  /** When no price exceeds the penalty, scheduling a forecast inside the limits is optimal. */
  lemma ForecastIsOptimal(pr: Problem)
    requires pr.WellFormed() && pr.WithinLimits(pr.forecasts) && pr.tolerance >= 0.0
    requires PricesAtMost(pr.prices, pr.penalty)
    ensures pr.Optimal(pr.forecasts)
  {
    ForecastIsFeasible(pr);
    forall q | pr.Feasible(q) ensures pr.Objective(q) <= pr.Objective(pr.forecasts) {
      FeasibleObjectiveBound(pr, q, pr.penalty);
    }
  }

  /** When every price is strictly below the penalty, every optimum keeps the portfolio balanced. */
  lemma OptimaAreBalanced(pr: Problem, p: Schedule, most: real)
    requires pr.WellFormed() && pr.WithinLimits(pr.forecasts) && pr.tolerance >= 0.0
    requires PricesAtMost(pr.prices, most) && most < pr.penalty && pr.Optimal(p)
    ensures Imbalance(Totals(p, |pr.assets|, |pr.prices|), pr.Forecast()) == 0.0
  {
    var totals, forecast := Totals(p, |pr.assets|, |pr.prices|), pr.Forecast();
    OptimumEarnsForecast(pr, p);
    DeviationEarnsAtMost(pr.prices, totals, forecast, most);
    ImbalanceNonNegative(totals, forecast);
    BalancedStep(Revenue(pr.prices, totals), Revenue(pr.prices, forecast), most, pr.penalty,
                 Imbalance(totals, forecast));
  }

  predicate EarnsAtLeast(revenue: real, penalty: real, imbalance: real, least: real) {
    revenue - penalty * imbalance >= least
  }

  lemma OptimumEarnsForecast(pr: Problem, p: Schedule)
    requires pr.WellFormed() && pr.WithinLimits(pr.forecasts) && pr.tolerance >= 0.0 && pr.Optimal(p)
    ensures var totals := Totals(p, |pr.assets|, |pr.prices|);
            EarnsAtLeast(Revenue(pr.prices, totals), pr.penalty, Imbalance(totals, pr.Forecast()),
                         Revenue(pr.prices, pr.Forecast()))
  {
    ForecastIsFeasible(pr);
    assert pr.Objective(pr.forecasts) <= pr.Objective(p);
  }

  lemma BalancedStep(revenue: real, forecastRevenue: real, most: real, penalty: real, imbalance: real)
    requires RevenueGain(revenue, forecastRevenue, most, imbalance) && imbalance >= 0.0 && most < penalty
    requires EarnsAtLeast(revenue, penalty, imbalance, forecastRevenue)
    ensures imbalance == 0.0
  {
    if imbalance > 0.0 { MulPositive(penalty - most, imbalance); }
  }

  // ----- The bound is attained -----

  /** The schedule with one entry moved. */
  function Shifted(p: Schedule, i: nat, t: nat, delta: real): Schedule
    requires i < |p| && t < |p[i]|
  {
    p[i := p[i][t := p[i][t] + delta]]
  }

  lemma {:induction false} PortfolioShifted(p: Schedule, i: nat, t: nat, delta: real, k: nat)
    requires i < |p| && t < |p[i]| && forall j :: 0 <= j < |p| ==> k < |p[j]|
    ensures Portfolio(Shifted(p, i, t, delta), k) == Portfolio(p, k) + if k == t then delta else 0.0
  {
    var s := Shifted(p, i, t, delta);
    if i == 0 {
      assert s[1..] == p[1..];
    } else {
      assert s[1..] == Shifted(p[1..], i - 1, t, delta);
      PortfolioShifted(p[1..], i - 1, t, delta, k);
    }
  }

  lemma TotalsShifted(p: Schedule, n: nat, m: nat, i: nat, t: nat, delta: real)
    requires Shaped(p, n, m) && i < n && t < m
    ensures Shaped(Shifted(p, i, t, delta), n, m)
    ensures Totals(Shifted(p, i, t, delta), n, m) == Totals(p, n, m)[t := Totals(p, n, m)[t] + delta]
  {
    forall k | 0 <= k < m
      ensures Portfolio(Shifted(p, i, t, delta), k) == Portfolio(p, k) + if k == t then delta else 0.0
    {
      PortfolioShifted(p, i, t, delta, k);
    }
  }

  lemma {:induction false} RevenueShifted(prices: seq<real>, totals: seq<real>, t: nat, delta: real)
    requires |prices| == |totals| && t < |totals|
    ensures Revenue(prices, totals[t := totals[t] + delta]) == Revenue(prices, totals) + prices[t] * delta
  {
    var s := totals[t := totals[t] + delta];
    if t == 0 {
      assert s[1..] == totals[1..];
      assert prices[0] * s[0] == prices[0] * totals[0] + prices[0] * delta;
    } else {
      assert s[1..] == totals[1..][t - 1 := totals[1..][t - 1] + delta];
      RevenueShifted(prices[1..], totals[1..], t - 1, delta);
    }
  }

  lemma {:induction false} ImbalanceShifted(totals: seq<real>, t: nat, delta: real)
    requires t < |totals|
    ensures Imbalance(totals[t := totals[t] + delta], totals) == Abs(delta)
  {
    var s := totals[t := totals[t] + delta];
    if t == 0 {
      assert s[1..] == totals[1..];
      NoImbalanceWithItself(totals[1..]);
    } else {
      assert s[1..] == totals[1..][t - 1 := totals[1..][t - 1] + delta];
      ImbalanceShifted(totals[1..], t - 1, delta);
    }
  }

  /** The whole tolerance, in the direction the price pays for. */
  function Stake(price: real, tolerance: real): real { if price >= 0.0 then tolerance else -tolerance }

  /** What moving one entry by delta earns over the unmoved schedule. */
  predicate Earns(objective: real, revenue: real, price: real, penalty: real, delta: real) {
    objective == revenue + price * delta - penalty * Abs(delta)
  }

  lemma ShiftedParts(pr: Problem, i: nat, t: nat, delta: real, totals: seq<real>)
    requires pr.WellFormed() && i < |pr.assets| && t < |pr.prices|
    requires totals == pr.Forecast()[t := pr.Forecast()[t] + delta]
    ensures Imbalance(totals, pr.Forecast()) == Abs(delta)
    ensures Revenue(pr.prices, totals) == Revenue(pr.prices, pr.Forecast()) + pr.prices[t] * delta
  {
    RevenueShifted(pr.prices, pr.Forecast(), t, delta);
    ImbalanceShifted(pr.Forecast(), t, delta);
  }

  lemma ShiftedObjective(pr: Problem, i: nat, t: nat, delta: real)
    requires pr.WellFormed() && i < |pr.assets| && t < |pr.prices|
    ensures var p := Shifted(pr.forecasts, i, t, delta);
            && Shaped(p, |pr.assets|, |pr.prices|)
            && Imbalance(Totals(p, |pr.assets|, |pr.prices|), pr.Forecast()) == Abs(delta)
            && Earns(pr.Objective(p), Revenue(pr.prices, pr.Forecast()), pr.prices[t], pr.penalty, delta)
  {
    TotalsShifted(pr.forecasts, |pr.assets|, |pr.prices|, i, t, delta);
    var p := Shifted(pr.forecasts, i, t, delta);
    ShiftedParts(pr, i, t, delta, Totals(p, |pr.assets|, |pr.prices|));
  }

  predicate AtBound(objective: real, revenue: real, excess: real, tolerance: real) {
    objective == revenue + excess * tolerance
  }

  lemma StakeEarns(price: real, tolerance: real, penalty: real, revenue: real, objective: real)
    requires tolerance >= 0.0 && Abs(price) >= penalty
    requires Earns(objective, revenue, price, penalty, Stake(price, tolerance))
    ensures AtBound(objective, revenue, Max(0.0, Abs(price) - penalty), tolerance)
  {
    assert price * Stake(price, tolerance) == Abs(price) * tolerance;
    assert (Abs(price) - penalty) * tolerance == Abs(price) * tolerance - penalty * tolerance;
  }

  lemma BestAtBound(pr: Problem, p: Schedule, most: real)
    requires pr.WellFormed() && pr.Feasible(p) && PricesAtMost(pr.prices, most)
    requires AtBound(pr.Objective(p), Revenue(pr.prices, pr.Forecast()), Max(0.0, most - pr.penalty), pr.tolerance)
    ensures pr.Optimal(p)
  {
    forall q | pr.Feasible(q) ensures pr.Objective(q) <= pr.Objective(p) {
      FeasibleObjectiveBound(pr, q, most);
    }
  }

  /** The bound cannot be lowered: when the dearest price is at least the penalty and some asset has
      headroom and ramps for the whole tolerance at its interval, moving that one entry of the forecast
      by the tolerance earns exactly the bound, and is optimal. */
  lemma BoundIsAttained(pr: Problem, i: nat, t: nat, p: Schedule)
    requires pr.WellFormed() && pr.tolerance >= 0.0 && i < |pr.assets| && t < |pr.prices|
    requires PricesAtMost(pr.prices, Abs(pr.prices[t])) && Abs(pr.prices[t]) >= pr.penalty
    requires p == Shifted(pr.forecasts, i, t, Stake(pr.prices[t], pr.tolerance))
    requires Shaped(p, |pr.assets|, |pr.prices|) && pr.WithinLimits(p)
    ensures pr.Optimal(p)
    ensures AtBound(pr.Objective(p), Revenue(pr.prices, pr.Forecast()),
                    Max(0.0, Abs(pr.prices[t]) - pr.penalty), pr.tolerance)
  {
    var delta := Stake(pr.prices[t], pr.tolerance);
    ShiftedObjective(pr, i, t, delta);
    StakeEarns(pr.prices[t], pr.tolerance, pr.penalty, Revenue(pr.prices, pr.Forecast()), pr.Objective(p));
    BestAtBound(pr, p, Abs(pr.prices[t]));
  }

  // ----- What the limits mean for the portfolio -----

  function TotalCapacity(assets: seq<Asset>): real {
    if assets == [] then 0.0 else assets[0].capacityMw + TotalCapacity(assets[1..])
  }

  /** How far all assets together can move in one hour. */
  function TotalRamp(assets: seq<Asset>): real {
    if assets == [] then 0.0 else 60.0 * assets[0].rampMwPerMin + TotalRamp(assets[1..])
  }

  lemma {:induction false} PortfolioWithinCapacity(assets: seq<Asset>, p: Schedule, t: nat)
    requires |p| == |assets| && forall i :: 0 <= i < |p| ==> t < |p[i]|
    requires forall i :: 0 <= i < |p| ==> 0.0 <= p[i][t] <= assets[i].capacityMw
    ensures 0.0 <= Portfolio(p, t) <= TotalCapacity(assets)
  {
    if p != [] { PortfolioWithinCapacity(assets[1..], p[1..], t); }
  }

  lemma {:induction false} PortfolioWithinRamp(assets: seq<Asset>, p: Schedule, t: nat)
    requires |p| == |assets| && t > 0 && forall i :: 0 <= i < |p| ==> t < |p[i]|
    requires forall i :: 0 <= i < |p| ==> Abs(p[i][t] - p[i][t - 1]) <= 60.0 * assets[i].rampMwPerMin
    ensures Abs(Portfolio(p, t) - Portfolio(p, t - 1)) <= TotalRamp(assets)
  {
    if p != [] { PortfolioWithinRamp(assets[1..], p[1..], t); }
  }

  /** In every feasible schedule each interval's total lies between zero and the total capacity, and moves
      from its neighbour by at most 60 times the ramp rates together, up or down. */
  lemma FeasiblePortfolio(pr: Problem, p: Schedule, t: nat)
    requires pr.WellFormed() && pr.Feasible(p) && t < |pr.prices|
    ensures 0.0 <= Portfolio(p, t) <= TotalCapacity(pr.assets)
    ensures t > 0 ==> Abs(Portfolio(p, t) - Portfolio(p, t - 1)) <= TotalRamp(pr.assets)
  {
    PortfolioWithinCapacity(pr.assets, p, t);
    if t > 0 {
      forall i | 0 <= i < |p| ensures Abs(p[i][t] - p[i][t - 1]) <= 60.0 * pr.assets[i].rampMwPerMin {
        assert pr.assets[i].rampMwPerMin * 60.0 == 60.0 * pr.assets[i].rampMwPerMin;
      }
      PortfolioWithinRamp(pr.assets, p, t);
    }
  }

  /** Single intervals weigh no more than the whole norm. */
  lemma {:induction false} ImbalanceCoversOne(a: seq<real>, b: seq<real>, t: nat)
    requires |a| == |b| && t < |a|
    ensures Abs(a[t] - b[t]) <= Imbalance(a, b)
  {
    ImbalanceNonNegative(a[1..], b[1..]);
    if t > 0 { ImbalanceCoversOne(a[1..], b[1..], t - 1); }
  }

  lemma {:induction false} ImbalanceCoversTwo(a: seq<real>, b: seq<real>, t: nat)
    requires |a| == |b| && 0 < t < |a|
    ensures Abs(a[t] - b[t]) + Abs(a[t - 1] - b[t - 1]) <= Imbalance(a, b)
  {
    if t == 1 {
      ImbalanceCoversOne(a[1..], b[1..], 0);
    } else {
      ImbalanceCoversTwo(a[1..], b[1..], t - 1);
    }
  }

  /** A forecast total out of the portfolio's reach at interval t by more than the tolerance. */
  predicate OutOfReach(pr: Problem, t: nat)
    requires pr.WellFormed() && t < |pr.prices|
  {
    var f := pr.Forecast();
    || f[t] < -pr.tolerance
    || f[t] > TotalCapacity(pr.assets) + pr.tolerance
    || (t > 0 && Abs(f[t] - f[t - 1]) > TotalRamp(pr.assets) + pr.tolerance)
  }

  /** Such a forecast makes the problem infeasible. */
  lemma OutOfReachIsInfeasible(pr: Problem, t: nat, p: Schedule)
    requires pr.WellFormed() && t < |pr.prices| && OutOfReach(pr, t)
    ensures !pr.Feasible(p)
  {
    if pr.Feasible(p) {
      var totals, f := Totals(p, |pr.assets|, |pr.prices|), pr.Forecast();
      FeasiblePortfolio(pr, p, t);
      ImbalanceCoversOne(totals, f, t);
      if t > 0 { ImbalanceCoversTwo(totals, f, t); }
      assert false;
    }
  }

  lemma {:induction false} NoImbalanceMeansEqual(a: seq<real>, b: seq<real>)
    requires |a| == |b| && Imbalance(a, b) <= 0.0
    ensures a == b
  {
    forall t | 0 <= t < |a| ensures a[t] == b[t] { ImbalanceCoversOne(a, b, t); }
  }

  lemma OneRow(row: seq<real>)
    ensures Shaped([row], 1, |row|) && Totals([row], 1, |row|) == row
  {
    forall k | 0 <= k < |row| ensures Portfolio([row], k) == row[k] { assert [row][1..] == []; }
  }

  /** What one asset can deliver: between zero and its capacity, and at most 60 times its ramp rate per
      minute from one hour to the next, up or down. */
  predicate Deliverable(asset: Asset, row: seq<real>) {
    && (forall t :: 0 <= t < |row| ==> 0.0 <= row[t] <= asset.capacityMw)
    && (forall t :: 1 <= t < |row| ==> row[t - 1] - 60.0 * asset.rampMwPerMin <= row[t]
                                       <= row[t - 1] + 60.0 * asset.rampMwPerMin)
  }

  function OneAsset(asset: Asset, prices: seq<real>, row: seq<real>, penalty: real): Problem {
    Problem([asset], prices, [row], 0.0, penalty)
  }

  lemma LimitsOfOneRow(asset: Asset, prices: seq<real>, row: seq<real>, penalty: real, q: seq<real>)
    requires |prices| == |row| == |q|
    ensures OneAsset(asset, prices, row, penalty).WithinLimits([q]) <==> Deliverable(asset, q)
  {
    assert asset.rampMwPerMin * 60.0 == 60.0 * asset.rampMwPerMin;
    assert [q][0] == q && [asset][0] == asset;
  }

  lemma OnlyTheForecast(asset: Asset, prices: seq<real>, row: seq<real>, penalty: real, p: Schedule)
    requires |prices| == |row| && OneAsset(asset, prices, row, penalty).WellFormed()
    requires OneAsset(asset, prices, row, penalty).Feasible(p)
    ensures p == [row]
  {
    assert p == [p[0]];
    OneRow(row);
    OneRow(p[0]);
    NoImbalanceMeansEqual(p[0], row);
  }

  /** One asset that must follow its forecast exactly has a feasible schedule exactly when it can deliver
      the forecast. */
  lemma SingleAssetFeasibleIff(asset: Asset, prices: seq<real>, row: seq<real>, penalty: real)
    requires |prices| == |row|
    ensures OneAsset(asset, prices, row, penalty).WellFormed()
    ensures (exists p :: OneAsset(asset, prices, row, penalty).Feasible(p)) <==> Deliverable(asset, row)
  {
    var pr := OneAsset(asset, prices, row, penalty);
    OneRow(row);
    LimitsOfOneRow(asset, prices, row, penalty, row);
    if Deliverable(asset, row) { ForecastIsFeasible(pr); }
    forall p | pr.Feasible(p) ensures Deliverable(asset, row) { OnlyTheForecast(asset, prices, row, penalty, p); }
  }
}
