/** Cost of a token count in real arithmetic (crates/twl-pricing/src/lib.rs). */
module Pricing {
  import opened Common
  import opened Json

  datatype ModelPrice = ModelPrice(input: real, output: real, inputCached: real)
  datatype Pricing = Pricing(unit: real, models: map<string, ModelPrice>)
  datatype Cost = Cost(input: real, inputCached: real, output: real, total: real)

  const FREE := Cost(0.0, 0.0, 0.0, 0.0)
  const DEFAULT_UNIT := 1_000_000.0

  /** Up to the first colon: a quantized variant falls back to its base model. */
  function BaseModel(model: string): (base: string)
    ensures base <= model && ':' !in base
    ensures base == model <==> ':' !in model
    ensures base != model ==> model[|base|] == ':'
  {
    if model == [] || model[0] == ':' then []
    else [model[0]] + BaseModel(model[1..])
  }

  function PriceOf(p: Pricing, model: string): Option<ModelPrice> {
    if model in p.models then Some(p.models[model])
    else if BaseModel(model) in p.models then Some(p.models[BaseModel(model)])
    else None
  }

  function NonNegative(v: real): real {
    if v < 0.0 then 0.0 else v
  }

  function UnitOf(p: Pricing): (unit: real)
    ensures unit > 0.0
  {
    if p.unit > 0.0 then p.unit else DEFAULT_UNIT
  }

  function SatSub(a: int, b: int): int {
    if a - b > I64_MAX then I64_MAX else if a - b < I64_MIN then I64_MIN else a - b
  }

  function Charge(tokens: int, rate: real, unit: real): real
    requires unit > 0.0
  {
    NonNegative((Max(tokens, 0) as real) * NonNegative(rate) / unit)
  }

  function CostOf(p: Pricing, model: string, input: int, output: int, cached: int): Cost {
    var price := PriceOf(p, model);
    if price.None? then FREE
    else
      var unit := UnitOf(p);
      var full := Charge(SatSub(input, cached), price.value.input, unit);
      var discounted := Charge(cached, price.value.inputCached, unit);
      var generated := Charge(output, price.value.output, unit);
      Cost(full, discounted, generated, NonNegative(full + discounted + generated))
  }

  lemma Quotient(x: real, y: real, unit: real)
    requires unit > 0.0
    ensures (x + y) / unit == x / unit + y / unit
    ensures x >= 0.0 ==> x / unit >= 0.0
  {
  }

  lemma Distributes(a: int, b: int, rate: real)
    ensures ((a + b) as real) * rate == (a as real) * rate + (b as real) * rate
    ensures a >= 0 && rate >= 0.0 ==> (a as real) * rate >= 0.0
  {
  }

  lemma ChargeAdds(a: int, b: int, rate: real, unit: real)
    requires unit > 0.0 && a >= 0 && b >= 0
    ensures Charge(a + b, rate, unit) == Charge(a, rate, unit) + Charge(b, rate, unit)
    ensures Charge(a, rate, unit) >= 0.0
  {
    var r := NonNegative(rate);
    Distributes(a, b, r);
    Distributes(b, a, r);
    Quotient((a as real) * r, (b as real) * r, unit);
    Quotient((b as real) * r, (a as real) * r, unit);
  }

  /** Non-negative counts that fit an i64, cached within input or not. */
  predicate Counts(input: int, output: int, cached: int) {
    0 <= input <= I64_MAX && 0 <= output <= I64_MAX && 0 <= cached <= I64_MAX
  }

  /** What comes before the first colon, however it was found. */
  lemma {:induction false} BaseUnique(model: string, base: string)
    requires base <= model && ':' !in base && (base != model ==> model[|base|] == ':')
    ensures base == BaseModel(model)
  {
    if base != [] {
      BaseUnique(model[1..], base[1..]);
    }
  }

  lemma ChargeIs(tokens: nat, rate: real, unit: real)
    requires unit > 0.0
    ensures Charge(tokens, rate, unit) * unit == (tokens as real) * (if rate > 0.0 then rate else 0.0)
    ensures Charge(tokens, rate, unit) >= 0.0
  {
    ChargeAdds(tokens, 0, rate, unit);
    var bill := (tokens as real) * NonNegative(rate);
    assert Charge(tokens, rate, unit) == bill / unit;
  }

  lemma PriceIs(p: Pricing, model: string, base: string, price: ModelPrice)
    requires base <= model && ':' !in base && (base != model ==> model[|base|] == ':')
    requires (model in p.models && price == p.models[model])
          || (model !in p.models && base in p.models && price == p.models[base])
    ensures PriceOf(p, model) == Some(price)
  {
    BaseUnique(model, base);
  }

  /** `part` is the price of `tokens` at `rate` for each `unit` of them; nothing below zero counts. */
  ghost predicate Bills(part: real, tokens: int, rate: real, unit: real) {
    part * unit == ((if tokens > 0 then tokens else 0) as real) * (if rate > 0.0 then rate else 0.0)
  }

  lemma PartIs(tokens: int, rate: real, unit: real)
    requires unit > 0.0
    ensures Bills(Charge(tokens, rate, unit), tokens, rate, unit) && Charge(tokens, rate, unit) >= 0.0
  {
    ChargeIs(if tokens > 0 then tokens else 0, rate, unit);
  }

  lemma CostParts(p: Pricing, model: string, price: ModelPrice, input: int, output: int, cached: int)
    requires Counts(input, output, cached) && PriceOf(p, model) == Some(price)
    ensures var cost, unit := CostOf(p, model, input, output, cached), UnitOf(p);
            && cost.input == Charge(input - cached, price.input, unit)
            && cost.inputCached == Charge(cached, price.inputCached, unit)
            && cost.output == Charge(output, price.output, unit)
            && cost.total == NonNegative(cost.input + cost.inputCached + cost.output)
  {
  }

  /**
   * The price list, in writing: a model's own entry comes first, then that of the name before the
   * first colon. Per unit of tokens, or per million where the unit makes no sense, cached tokens
   * cost the cached rate and the rest of the input the full one; a negative rate costs nothing.
   */
  lemma CostIs(p: Pricing, model: string, base: string, price: ModelPrice, input: int, output: int, cached: int)
    requires Counts(input, output, cached)
    requires base <= model && ':' !in base && (base != model ==> model[|base|] == ':')
    requires (model in p.models && price == p.models[model])
          || (model !in p.models && base in p.models && price == p.models[base])
    ensures var cost := CostOf(p, model, input, output, cached);
            var unit := if p.unit > 0.0 then p.unit else 1_000_000.0;
            && Bills(cost.input, input - cached, price.input, unit)
            && Bills(cost.inputCached, cached, price.inputCached, unit)
            && Bills(cost.output, output, price.output, unit)
            && cost.total == cost.input + cost.inputCached + cost.output
  {
    PriceIs(p, model, base, price);
    CostParts(p, model, price, input, output, cached);
    PartIs(input - cached, price.input, UnitOf(p));
    PartIs(cached, price.inputCached, UnitOf(p));
    PartIs(output, price.output, UnitOf(p));
  }

  /** A model with neither entry is free. */
  lemma Unpriced(p: Pricing, model: string, base: string, input: int, output: int, cached: int)
    requires base <= model && ':' !in base && (base != model ==> model[|base|] == ':')
    requires model !in p.models && base !in p.models
    ensures CostOf(p, model, input, output, cached) == Cost(0.0, 0.0, 0.0, 0.0)
  {
    BaseUnique(model, base);
  }

  /** Token counts as the store keeps them: cached is part of input, nothing negative. */
  predicate Countable(input: int, output: int, cached: int) {
    0 <= cached <= input <= I64_MAX && 0 <= output <= I64_MAX
  }

  /** Pricing a sum is summing prices, class by class, as long as the sum fits an i64. */
  lemma CostIsAdditive(p: Pricing, model: string, i1: int, o1: int, c1: int, i2: int, o2: int, c2: int)
    requires Countable(i1, o1, c1) && Countable(i2, o2, c2) && Countable(i1 + i2, o1 + o2, c1 + c2)
    ensures var a, b := CostOf(p, model, i1, o1, c1), CostOf(p, model, i2, o2, c2);
            var whole := CostOf(p, model, i1 + i2, o1 + o2, c1 + c2);
            && whole == Cost(a.input + b.input, a.inputCached + b.inputCached, a.output + b.output, a.total + b.total)
            && a.total >= 0.0
  {
    var price := PriceOf(p, model);
    if price.Some? {
      var unit := UnitOf(p);
      ChargeAdds(i1 - c1, i2 - c2, price.value.input, unit);
      ChargeAdds(i2 - c2, i1 - c1, price.value.input, unit);
      ChargeAdds(c1, c2, price.value.inputCached, unit);
      ChargeAdds(c2, c1, price.value.inputCached, unit);
      ChargeAdds(o1, o2, price.value.output, unit);
      ChargeAdds(o2, o1, price.value.output, unit);
    }
  }

  lemma ChargePositive(tokens: int, rate: real, unit: real)
    requires tokens > 0 && rate > 0.0 && unit > 0.0
    ensures Charge(tokens, rate, unit) > 0.0
  {
    assert (tokens as real) * rate > 0.0;
  }

  lemma ChargeAddsExactly(a: int, b: int, rate: real, unit: real)
    requires rate > 0.0 && unit > 0.0
    ensures Charge(a + b, rate, unit) == Charge(a, rate, unit) + Charge(b, rate, unit)
       <==> (a >= 0 && b >= 0) || (a <= 0 && b <= 0)
  {
    if a >= 0 && b >= 0 {
      ChargeAdds(a, b, rate, unit);
    } else if a > 0 {
      Overcharged(a, b, rate, unit);
    } else if b > 0 {
      Overcharged(b, a, rate, unit);
    }
  }

  lemma Overcharged(a: int, b: int, rate: real, unit: real)
    requires rate > 0.0 && unit > 0.0 && a > 0 && b < 0
    ensures Charge(a + b, rate, unit) < Charge(a, rate, unit) + Charge(b, rate, unit)
  {
    var kept := Max(a + b, 0);
    ChargeAdds(kept, a - kept, rate, unit);
    ChargePositive(a - kept, rate, unit);
  }

  lemma TotalIs(p: Pricing, model: string, input: int, output: int, cached: int)
    requires Counts(input, output, cached) && PriceOf(p, model).Some?
    ensures var price, unit := PriceOf(p, model).value, UnitOf(p);
            CostOf(p, model, input, output, cached).total
              == Charge(input - cached, price.input, unit) + Charge(cached, price.inputCached, unit)
                 + Charge(output, price.output, unit)
  {
    var price, unit := PriceOf(p, model).value, UnitOf(p);
    ChargeAdds(if input >= cached then input - cached else 0, 0, price.input, unit);
    ChargeAdds(cached, 0, price.inputCached, unit);
    ChargeAdds(output, 0, price.output, unit);
  }

  /**
   * That cached tokens are part of the input is exactly what additivity needs: for a model whose
   * input has a price, the total cost of a sum is the sum of the total costs if and only if the
   * two counts do not lie on opposite sides of it.
   */
  lemma CostAdditiveExactly(p: Pricing, model: string, i1: int, o1: int, c1: int, i2: int, o2: int, c2: int)
    requires Counts(i1, o1, c1) && Counts(i2, o2, c2) && Counts(i1 + i2, o1 + o2, c1 + c2)
    requires PriceOf(p, model).Some? && PriceOf(p, model).value.input > 0.0
    ensures CostOf(p, model, i1 + i2, o1 + o2, c1 + c2).total
         == CostOf(p, model, i1, o1, c1).total + CostOf(p, model, i2, o2, c2).total
       <==> (c1 <= i1 && c2 <= i2) || (c1 >= i1 && c2 >= i2)
  {
    var price, unit := PriceOf(p, model).value, UnitOf(p);
    TotalIs(p, model, i1, o1, c1);
    TotalIs(p, model, i2, o2, c2);
    TotalIs(p, model, i1 + i2, o1 + o2, c1 + c2);
    ChargeAdds(c1, c2, price.inputCached, unit);
    ChargeAdds(o1, o2, price.output, unit);
    ChargeAddsExactly(i1 - c1, i2 - c2, price.input, unit);
    assert i1 - c1 + (i2 - c2) == i1 + i2 - (c1 + c2);
  }
}
