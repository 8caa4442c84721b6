/**
 * Per-turn cost of a model call and the running totals of a session.
 * Prices are dollars per token; cached input tokens are billed at the
 * cached rate and the rest of the input at the full rate. Amounts are
 * exact reals, where the program uses floating point.
 */
module Cost {
  import opened Wrappers

  datatype Prices = Prices(input: real, cachedInput: real, output: real)

  const DefaultModel: string := "gpt-5.2"

  /** The flex-tier prices of the default model, per token. */
  const DefaultPrices: Prices := Prices(0.875 / 1000000.0, 0.0875 / 1000000.0, 7.0 / 1000000.0)

  const PriceTable: map<string, Prices> := map[DefaultModel := DefaultPrices]

  /** One entry of the provider's input-token details. */
  type Detail = map<string, int>

  /**
   * A JavaScript number as the cost computation can produce it: a finite
   * amount, or NaN once a price is missing. NaN absorbs every sum.
   */
  datatype Amount = Finite(value: real) | NaN

  function Plus(a: Amount, b: Amount): (r: Amount)
    ensures r.Finite? <==> a.Finite? && b.Finite?
    ensures r.Finite? ==> r.value - a.value == b.value
  {
    if a.Finite? && b.Finite? then Finite(a.value + b.value) else NaN
  }

  /**
   * The names every object literal inherits from `Object.prototype`. Looking
   * one of them up in the price table finds a function or an object, which is
   * truthy but has no `input`, `cachedInput` or `output` price.
   */
  const InheritedNames: set<string> := {
    "constructor", "__proto__", "hasOwnProperty", "isPrototypeOf", "propertyIsEnumerable",
    "toLocaleString", "toString", "valueOf",
    "__defineGetter__", "__defineSetter__", "__lookupGetter__", "__lookupSetter__"
  }

  /**
   * The prices for a model: a missing or empty name means the default model,
   * and an unknown one falls back to the default's prices. An inherited name
   * finds no prices at all.
   */
  function PricesFor(model: Option<string>): (r: Option<Prices>)
    ensures model.Some? && model.value in PriceTable ==> r == Some(PriceTable[model.value])
    ensures model.None? || model == Some("") ==> r == Some(PriceTable[DefaultModel])
    ensures model.Some? && model.value !in PriceTable && model.value !in InheritedNames
            ==> r == Some(PriceTable[DefaultModel])
    ensures r.None? <==> model.Some? && model.value in InheritedNames
  {
    var key := if model.None? || model.value == "" then DefaultModel else model.value;
    if key in PriceTable then Some(PriceTable[key])
    else if key in InheritedNames then None
    else Some(PriceTable[DefaultModel])
  }

  /** A detail's `cached_tokens` when present and non-zero (truthy), else nothing. */
  function CachedOf(d: Detail): int {
    if "cached_tokens" in d && d["cached_tokens"] != 0 then d["cached_tokens"] else 0
  }

  /** `extractCachedTokens`: the sum of the details' cached token counts; none for no details. */
  function ExtractCachedTokens(details: Option<seq<Detail>>): (r: int)
    ensures details.None? || details == Some([]) ==> r == 0
    ensures details.Some? && (forall i :: 0 <= i < |details.value| ==> CachedOf(details.value[i]) >= 0) ==> r >= 0
  {
    if details.None? then 0 else SumCachedNonNegative(details.value); SumCached(details.value)
  }

  function SumCached(ds: seq<Detail>): int {
    if |ds| == 0 then 0 else SumCached(ds[..|ds| - 1]) + CachedOf(ds[|ds| - 1])
  }

  lemma {:induction false} SumCachedNonNegative(ds: seq<Detail>)
    ensures (forall i :: 0 <= i < |ds| ==> CachedOf(ds[i]) >= 0) ==> SumCached(ds) >= 0
    decreases |ds|
  {
    if |ds| > 0 {
      SumCachedNonNegative(ds[..|ds| - 1]);
    }
  }

  /** The price formula: uncached input at the full rate, cached input at the cached rate, output at its rate. */
  function Charge(p: Prices, inputTokens: int, cached: int, outputTokens: int): real {
    (inputTokens - cached) as real * p.input + cached as real * p.cachedInput + outputTokens as real * p.output
  }

  /** `calculateCost`: NaN exactly for the inherited names, else the charge at the model's prices. */
  function CalculateCost(model: Option<string>, inputTokens: int, outputTokens: int, details: Option<seq<Detail>>): (r: Amount)
    ensures r.NaN? <==> model.Some? && model.value in InheritedNames
    ensures r.Finite? ==> r.value == Charge(PricesFor(model).value, inputTokens, ExtractCachedTokens(details), outputTokens)
  {
    match PricesFor(model)
    case None => NaN
    case Some(p) => Finite(Charge(p, inputTokens, ExtractCachedTokens(details), outputTokens))
  }

  // ---------------------------------------------------------------------
  // Properties of the price computation
  // ---------------------------------------------------------------------

  /** Cached counts add up across concatenated detail lists. */
  lemma {:induction false} SumCachedAppend(a: seq<Detail>, b: seq<Detail>)
    ensures SumCached(a + b) == SumCached(a) + SumCached(b)
    decreases |b|
  {
    if |b| == 0 {
      assert a + b == a;
    } else {
      assert (a + b)[..|a + b| - 1] == a + b[..|b| - 1];
      SumCachedAppend(a, b[..|b| - 1]);
    }
  }

  /** Details that never mention cached tokens contribute nothing. */
  lemma {:induction false} NoCachedKey(ds: seq<Detail>)
    requires forall i :: 0 <= i < |ds| ==> "cached_tokens" !in ds[i]
    ensures ExtractCachedTokens(Some(ds)) == 0
    decreases |ds|
  {
    if |ds| > 0 {
      NoCachedKey(ds[..|ds| - 1]);
    }
  }

  /**
   * A missing model and every name outside the table cost what the default
   * model costs, except the inherited names, which cost NaN.
   */
  lemma UnknownModelCostsDefault(model: Option<string>, i: int, o: int, d: Option<seq<Detail>>)
    ensures model.None? || (model.value !in PriceTable && model.value !in InheritedNames)
            ==> CalculateCost(model, i, o, d) == CalculateCost(Some(DefaultModel), i, o, d)
    ensures model.Some? && model.value in InheritedNames ==> CalculateCost(model, i, o, d) == NaN
  {
  }

  /** Input and output are priced independently (NaN on both sides for an inherited name). */
  lemma CostSplits(model: Option<string>, i: int, o: int, d: Option<seq<Detail>>)
    ensures CalculateCost(model, i, o, d) == Plus(CalculateCost(model, i, 0, d), CalculateCost(model, 0, o, None))
  {
  }

  /**
   * Reporting `c` cached tokens lowers the cost by `c` times the gap between
   * the full and the cached input rate, and that gap is positive for every model.
   */
  lemma CachingDiscount(model: Option<string>, i: int, o: int, d: Option<seq<Detail>>)
    ensures PricesFor(model).Some? ==> PricesFor(model).value.cachedInput < PricesFor(model).value.input
    ensures PricesFor(model).Some? ==>
            CalculateCost(model, i, o, d).value ==
            CalculateCost(model, i, o, None).value
            - ExtractCachedTokens(d) as real * (PricesFor(model).value.input - PricesFor(model).value.cachedInput)
    ensures PricesFor(model).Some? && ExtractCachedTokens(d) > 0
            ==> CalculateCost(model, i, o, d).value < CalculateCost(model, i, o, None).value
  {
    if PricesFor(model).None? {
      return;
    }
    var p := PricesFor(model).value;
    var c := ExtractCachedTokens(d) as real;
    assert (i as real - c) * p.input == i as real * p.input - c * p.input;
    if c > 0.0 {
      assert c * (p.input - p.cachedInput) > 0.0;
    }
  }

  /** A million input and a million output tokens of the default model cost 0.875 + 7.00 dollars. */
  lemma MillionTokenPrice()
    ensures CalculateCost(Some(DefaultModel), 1000000, 1000000, None) == Finite(0.875 + 7.0)
    ensures CalculateCost(Some(DefaultModel), 1000000, 0, Some([map["cached_tokens" := 500000]]))
            == Finite(500000.0 * (0.875 / 1000000.0) + 500000.0 * (0.0875 / 1000000.0))
  {
    var ds := [map["cached_tokens" := 500000]];
    assert ds[..0] == [];
    assert ExtractCachedTokens(Some(ds)) == 500000;
  }

  /** Every count in a detail list multiplied by `k`. */
  function ScaleDetails(ds: seq<Detail>, k: int): (r: seq<Detail>)
    ensures |r| == |ds|
  {
    seq(|ds|, i requires 0 <= i < |ds| => map key | key in ds[i] :: k * ds[i][key])
  }

  lemma {:induction false} SumCachedScales(ds: seq<Detail>, k: int)
    ensures SumCached(ScaleDetails(ds, k)) == k * SumCached(ds)
    decreases |ds|
  {
    if |ds| > 0 {
      assert ScaleDetails(ds, k)[..|ds| - 1] == ScaleDetails(ds[..|ds| - 1], k);
      SumCachedScales(ds[..|ds| - 1], k);
    }
  }

  /** An amount multiplied by `k`; NaN stays NaN. */
  function Times(k: real, a: Amount): (r: Amount)
    ensures r.Finite? <==> a.Finite?
    ensures r.Finite? && k != 0.0 ==> r.value / k == a.value
  {
    if a.Finite? then Finite(k * a.value) else NaN
  }

  /** Cost is linear: scaling every token count by `k` scales the cost by `k`. */
  lemma CostScales(model: Option<string>, i: int, o: int, ds: Option<seq<Detail>>, k: int)
    ensures var scaled := if ds.None? then None else Some(ScaleDetails(ds.value, k));
            CalculateCost(model, k * i, k * o, scaled) == Times(k as real, CalculateCost(model, i, o, ds))
  {
    var scaled := if ds.None? then None else Some(ScaleDetails(ds.value, k));
    CachedScales(ds, k);
    if PricesFor(model).Some? {
      ScaledCost(PricesFor(model).value, k, i, ExtractCachedTokens(ds), o);
    }
  }

  lemma CachedScales(ds: Option<seq<Detail>>, k: int)
    ensures var scaled := if ds.None? then None else Some(ScaleDetails(ds.value, k));
            ExtractCachedTokens(scaled) == k * ExtractCachedTokens(ds)
  {
    if ds.Some? {
      SumCachedScales(ds.value, k);
    }
  }

  /** The price formula with every count scaled by `k`. */
  lemma ScaledCost(p: Prices, k: int, i: int, c: int, o: int)
    ensures Charge(p, k * i, k * c, k * o) == k as real * Charge(p, i, c, o)
  {
    assert k * i - k * c == k * (i - c);
    CastMul(k, i - c);
    CastMul(k, c);
    CastMul(k, o);
    ScaleSum(k as real, (i - c) as real, c as real, o as real, p);
  }

  lemma CastMul(k: int, x: int)
    ensures (k * x) as real == k as real * x as real
  {
  }

  lemma ScaleSum(k: real, x: real, y: real, z: real, p: Prices)
    ensures (k * x) * p.input + (k * y) * p.cachedInput + (k * z) * p.output
         == k * (x * p.input + y * p.cachedInput + z * p.output)
  {
    assert (k * x) * p.input == k * (x * p.input);
    assert (k * y) * p.cachedInput == k * (y * p.cachedInput);
    assert (k * z) * p.output == k * (z * p.output);
  }

  // ---------------------------------------------------------------------
  // The tracker
  // ---------------------------------------------------------------------

  datatype Usage = Usage(inputTokens: int, outputTokens: int, details: Option<seq<Detail>>)

  datatype Tracker = Tracker(totalInput: int, totalCached: int, totalOutput: int, totalCost: Amount)

  const Fresh: Tracker := Tracker(0, 0, 0, Finite(0.0))

  function TurnCost(model: string, u: Usage): Amount {
    CalculateCost(Some(model), u.inputTokens, u.outputTokens, u.details)
  }

  /** `recordTurn`: the turn's cost, and totals grown by this turn's usage and cost. */
  function RecordTurn(t: Tracker, model: string, u: Usage): (r: (Amount, Tracker))
    ensures r.0 == TurnCost(model, u)
    ensures r.1.totalInput - t.totalInput == u.inputTokens
    ensures r.1.totalCached - t.totalCached == ExtractCachedTokens(u.details)
    ensures r.1.totalOutput - t.totalOutput == u.outputTokens
    ensures r.1.totalCost.Finite? <==> t.totalCost.Finite? && model !in InheritedNames
    ensures r.1.totalCost.Finite? ==> r.1.totalCost.value - t.totalCost.value == r.0.value
  {
    var cost := TurnCost(model, u);
    (cost, Tracker(t.totalInput + u.inputTokens, t.totalCached + ExtractCachedTokens(u.details),
                   t.totalOutput + u.outputTokens, Plus(t.totalCost, cost)))
  }

  /** The running total shown in the status line before the turn is recorded. */
  function StatusTotal(t: Tracker, model: string, u: Usage): Amount {
    Plus(t.totalCost, TurnCost(model, u))
  }

  /** The status line's running total is what the total becomes once the turn is recorded. */
  lemma StatusTotalAnticipatesRecord(t: Tracker, model: string, u: Usage)
    ensures StatusTotal(t, model, u) == RecordTurn(t, model, u).1.totalCost
  {
  }

  /** Reference totals over a list of turns. */
  function SumInput(turns: seq<(string, Usage)>): int {
    if |turns| == 0 then 0 else SumInput(turns[..|turns| - 1]) + turns[|turns| - 1].1.inputTokens
  }

  function SumOutput(turns: seq<(string, Usage)>): int {
    if |turns| == 0 then 0 else SumOutput(turns[..|turns| - 1]) + turns[|turns| - 1].1.outputTokens
  }

  function SumCachedTurns(turns: seq<(string, Usage)>): int {
    if |turns| == 0 then 0
    else SumCachedTurns(turns[..|turns| - 1]) + ExtractCachedTokens(turns[|turns| - 1].1.details)
  }

  function SumCost(turns: seq<(string, Usage)>): Amount {
    if |turns| == 0 then Finite(0.0) else Plus(SumCost(turns[..|turns| - 1]), TurnCost(turns[|turns| - 1].0, turns[|turns| - 1].1))
  }

  /** One turn on an inherited model name makes the session total NaN for good; otherwise it stays finite. */
  lemma {:induction false} NaNPoisonsTotal(turns: seq<(string, Usage)>)
    ensures SumCost(turns).NaN? <==> exists k :: 0 <= k < |turns| && turns[k].0 in InheritedNames
    decreases |turns|
  {
    if |turns| > 0 {
      var front := turns[..|turns| - 1];
      NaNPoisonsTotal(front);
      if exists k :: 0 <= k < |front| && front[k].0 in InheritedNames {
        var k :| 0 <= k < |front| && front[k].0 in InheritedNames;
        assert turns[k] == front[k];
      }
      if exists k :: 0 <= k < |turns| && turns[k].0 in InheritedNames {
        var k :| 0 <= k < |turns| && turns[k].0 in InheritedNames;
        if k < |front| {
          assert front[k] == turns[k];
        }
      }
    }
  }

  /** Recording a session's turns one after another: the totals are the sums over all turns. */
  method RecordTurns(turns: seq<(string, Usage)>) returns (t: Tracker, costs: seq<Amount>)
    ensures t.totalInput == SumInput(turns) && t.totalOutput == SumOutput(turns)
    ensures t.totalCached == SumCachedTurns(turns) && t.totalCost == SumCost(turns)
    ensures |costs| == |turns|
    ensures forall k :: 0 <= k < |turns| ==> costs[k] == TurnCost(turns[k].0, turns[k].1)
  {
    t := Fresh;
    costs := [];
    var i := 0;
    while i < |turns|
      invariant 0 <= i <= |turns|
      invariant t.totalInput == SumInput(turns[..i]) && t.totalOutput == SumOutput(turns[..i])
      invariant t.totalCached == SumCachedTurns(turns[..i]) && t.totalCost == SumCost(turns[..i])
      invariant |costs| == i
      invariant forall k :: 0 <= k < i ==> costs[k] == TurnCost(turns[k].0, turns[k].1)
    {
      assert turns[..i + 1][..i] == turns[..i];
      var step := RecordTurn(t, turns[i].0, turns[i].1);
      costs := costs + [step.0];
      t := step.1;
      i := i + 1;
    }
    assert turns[..|turns|] == turns;
  }
}
