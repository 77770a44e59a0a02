/** Token usage, list prices, and the spend meter. */
module Cost {
  import opened Wrappers
  import opened Sums

  datatype Usage = Usage(input: nat, output: nat, cacheWrite: nat, cacheRead: nat) {
    function Plus(o: Usage): Usage {
      Usage(input + o.input, output + o.output, cacheWrite + o.cacheWrite, cacheRead + o.cacheRead)
    }
  }

  const NO_USAGE := Usage(0, 0, 0, 0)

  /** USD per million tokens. */
  datatype ModelRate = ModelRate(input: real, output: real, cacheWrite: real, cacheRead: real)

  const MODEL_RATES: map<string, ModelRate> := map[
    "claude-opus-4-8" := ModelRate(15.0, 75.0, 18.75, 1.5),
    "claude-sonnet-4-6" := ModelRate(3.0, 15.0, 3.75, 0.3),
    "claude-haiku-4-5-20251001" := ModelRate(1.0, 5.0, 1.25, 0.1),
    "gpt-5" := ModelRate(1.25, 10.0, 1.25, 0.125),
    "gpt-5-mini" := ModelRate(0.25, 2.0, 0.25, 0.025),
    "gpt-5-nano" := ModelRate(0.05, 0.4, 0.05, 0.005)]

  function RateFor(model: string): ModelRate {
    if model in MODEL_RATES then MODEL_RATES[model] else MODEL_RATES["claude-opus-4-8"]
  }

  function PriceAt(u: Usage, r: ModelRate): real {
    (u.input as real * r.input + u.output as real * r.output
     + u.cacheWrite as real * r.cacheWrite + u.cacheRead as real * r.cacheRead) / 1000000.0
  }

  function PriceUsage(u: Usage, model: string): real {
    PriceAt(u, RateFor(model))
  }

  lemma PriceAtIsAdditive(a: Usage, b: Usage, r: ModelRate)
    ensures PriceAt(a.Plus(b), r) == PriceAt(a, r) + PriceAt(b, r)
  {
    assert (a.input + b.input) as real * r.input == a.input as real * r.input + b.input as real * r.input;
    assert (a.output + b.output) as real * r.output == a.output as real * r.output + b.output as real * r.output;
    assert (a.cacheWrite + b.cacheWrite) as real * r.cacheWrite
        == a.cacheWrite as real * r.cacheWrite + b.cacheWrite as real * r.cacheWrite;
    assert (a.cacheRead + b.cacheRead) as real * r.cacheRead
        == a.cacheRead as real * r.cacheRead + b.cacheRead as real * r.cacheRead;
  }

  lemma NothingIsFree(r: ModelRate)
    ensures PriceAt(NO_USAGE, r) == 0.0
  {}

  /** Rates are per million tokens of their own kind. */
  lemma MillionTokensCostTheRate(n: nat, r: ModelRate)
    ensures PriceAt(Usage(1000000 * n, 0, 0, 0), r) == n as real * r.input
    ensures PriceAt(Usage(0, 1000000 * n, 0, 0), r) == n as real * r.output
    ensures PriceAt(Usage(0, 0, 1000000 * n, 0), r) == n as real * r.cacheWrite
    ensures PriceAt(Usage(0, 0, 0, 1000000 * n), r) == n as real * r.cacheRead
  {
    assert (1000000 * n) as real == 1000000.0 * n as real;
    Millions(n as real, r.input);
    Millions(n as real, r.output);
    Millions(n as real, r.cacheWrite);
    Millions(n as real, r.cacheRead);
  }

  lemma Millions(n: real, rate: real)
    ensures 1000000.0 * n * rate / 1000000.0 == n * rate && 0 as real * rate == 0.0
  {}

  /** A listed model reads its cache at a tenth of its input rate and writes at five times it or more;
    * Claude models also pay a quarter extra to write the cache. */
  lemma ListedRates(model: string)
    requires model in MODEL_RATES
    ensures var r := RateFor(model);
      && r.cacheRead * 10.0 == r.input > 0.0 && r.output >= 5.0 * r.input
      && r.cacheWrite == if model[0] == 'c' then 1.25 * r.input else r.input
  {}

  /** What a million tokens in and a million out come to; an unlisted model is billed as the dearest. */
  lemma ListPrices(model: string)
    ensures var million := PriceUsage(Usage(1000000, 1000000, 0, 0), model);
      if model == "claude-sonnet-4-6" then million == 18.0
      else if model == "claude-haiku-4-5-20251001" then million == 6.0
      else if model == "gpt-5" then million == 11.25
      else if model == "gpt-5-mini" then million == 2.25
      else if model == "gpt-5-nano" then million == 0.45
      else million == 90.0
  {
    hide PriceAt;
    var r := RateFor(model);
    PriceAtIsAdditive(Usage(1000000, 0, 0, 0), Usage(0, 1000000, 0, 0), r);
    MillionTokensCostTheRate(1, r);
    assert Usage(1000000, 0, 0, 0).Plus(Usage(0, 1000000, 0, 0)) == Usage(1000000, 1000000, 0, 0);
  }

  predicate RateAtMost(a: ModelRate, b: ModelRate) {
    a.input <= b.input && a.output <= b.output && a.cacheWrite <= b.cacheWrite && a.cacheRead <= b.cacheRead
  }

  lemma PriceAtIsMonotone(u: Usage, a: ModelRate, b: ModelRate)
    requires RateAtMost(a, b)
    ensures PriceAt(u, a) <= PriceAt(u, b)
  {
    Scale(u.input, a.input, b.input);
    Scale(u.output, a.output, b.output);
    Scale(u.cacheWrite, a.cacheWrite, b.cacheWrite);
    Scale(u.cacheRead, a.cacheRead, b.cacheRead);
  }

  lemma Scale(n: nat, a: real, b: real)
    requires a <= b
    ensures n as real * a <= n as real * b
  {}

  lemma NothingForNothing(u: Usage)
    ensures PriceAt(u, ModelRate(0.0, 0.0, 0.0, 0.0)) == 0.0
  {}

  /** An unlisted model is billed as an upper bound of every listed one, never as free. */
  lemma UnknownModelIsAnUpperBound(u: Usage, known: string, unknown: string)
    requires unknown !in MODEL_RATES
    ensures 0.0 <= PriceUsage(u, known) <= PriceUsage(u, unknown)
  {
    NothingForNothing(u);
    hide PriceAt;
    PriceAtIsMonotone(u, ModelRate(0.0, 0.0, 0.0, 0.0), RateFor(known));
    PriceAtIsMonotone(u, RateFor(known), RateFor(unknown));
  }

  // ---------------------------------------------------------------- the spend meter

  const EPSILON := 0.000000001

  function Id(x: real): real {
    x
  }

  predicate Exceeds(spent: real, next: real, budget: Option<real>) {
    budget.Some? && spent + next > budget.value + EPSILON
  }

  datatype BudgetError = BudgetError(spent: real, budget: real, attempted: real)

  /** One caller at a time; the ledger is the durable store's cost column. */
  class SpendMeter {
    const budget: Option<real>
    const hasStore: bool
    var spent: real
    var ledger: seq<real>

    /** The ledger reconciles with the meter exactly. */
    ghost predicate Valid()
      reads this
    {
      if hasStore then spent == Sum(Id, ledger) else ledger == []
    }

    constructor (budget: Option<real>, hasStore: bool)
      ensures Valid() && spent == 0.0 && ledger == []
      ensures this.budget == budget && this.hasStore == hasStore
    {
      this.budget, this.hasStore := budget, hasStore;
      spent, ledger := 0.0, [];
    }

    method Guard(next: real) returns (r: Result<(), BudgetError>)
      ensures r.Err? <==> budget.Some? && spent + next > budget.value + 0.000000001
      ensures r.Err? ==> r.error == BudgetError(spent, budget.value, next)
    {
      if Exceeds(spent, next, budget) {
        return Err(BudgetError(spent, budget.value, next));
      }
      return Ok(());
    }

    method Record(usage: Usage, model: string) returns (cost: real)
      requires Valid()
      modifies this
      ensures Valid()
      ensures cost == PriceAt(usage, RateFor(model)) && spent == old(spent) + cost
      ensures ledger == if hasStore then old(ledger) + [cost] else []
    {
      cost := PriceUsage(usage, model);
      SumAppend(Id, ledger, cost);
      spent := spent + cost;
      if hasStore {
        ledger := ledger + [cost];
      }
    }
  }
}
