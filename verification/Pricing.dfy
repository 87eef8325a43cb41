/**
 * Model prices and billed costs. Prices are whole cents per million tokens, which is the same
 * as hundredths of a micro-dollar per token; a billed cost is a whole number of micro-dollars.
 */
module Pricing {
  import opened Windows

  datatype ModelPricing = ModelPricing(input: nat, output: nat)
  {
    /** The exact cost in hundredths of a micro-dollar. */
    function Cost(promptTokens: nat, completionTokens: nat): nat {
      promptTokens * input + completionTokens * output
    }
  }

  datatype Price = Price(model: string, pricing: ModelPricing)

  const PRICING: seq<Price> := [
    Price("anthropic.claude-sonnet-4-5-20250929-v1:0", ModelPricing(300, 1500)),
    Price("us.anthropic.claude-sonnet-4-5-20250929-v1:0", ModelPricing(300, 1500)),
    Price("anthropic.claude-haiku-4-5", ModelPricing(80, 400)),
    Price("gpt-4o", ModelPricing(250, 1000)),
    Price("gpt-4o-mini", ModelPricing(15, 60)),
    Price("gpt-4.1", ModelPricing(200, 800)),
    Price("gpt-4.1-mini", ModelPricing(40, 160))
  ]

  /** Dictionary lookup in a price table. */
  function Lookup(table: seq<Price>, model: string): Option<ModelPricing> {
    if table == [] then None
    else if table[0].model == model then Some(table[0].pricing)
    else Lookup(table[1..], model)
  }

  predicate EndsWith(text: string, suffix: string) {
    |suffix| <= |text| && text[|text| - |suffix|..] == suffix
  }

  /** The two names are equal up to a prefix that only one of them has. */
  predicate SameFamily(model: string, known: string) {
    EndsWith(model, known) || EndsWith(known, model)
  }

  /** Rounding to a whole micro-dollar; a tie goes to the even neighbour. */
  function Rounded(hundredths: nat): nat {
    var q, r := hundredths / 100, hundredths % 100;
    if r < 50 || (r == 50 && q % 2 == 0) then q else q + 1
  }

  /** The pricing that a model is billed at: its own entry, or else the first entry of its family. */
  ghost predicate BilledAt(table: seq<Price>, model: string, pricing: ModelPricing) {
    || Lookup(table, model) == Some(pricing)
    || (Lookup(table, model).None? &&
        exists i :: 0 <= i < |table| && SameFamily(model, table[i].model) && table[i].pricing == pricing
          && forall j :: 0 <= j < i ==> !SameFamily(model, table[j].model))
  }

  /** The first entry of the model's family. */
  function FamilyPrice(table: seq<Price>, model: string): Option<ModelPricing> {
    if table == [] then None
    else if SameFamily(model, table[0].model) then Some(table[0].pricing)
    else FamilyPrice(table[1..], model)
  }

  function Estimate(table: seq<Price>, model: string, promptTokens: nat, completionTokens: nat): Option<nat> {
    var pricing := if Lookup(table, model).Some? then Lookup(table, model) else FamilyPrice(table, model);
    if pricing.None? then None else Some(Rounded(pricing.value.Cost(promptTokens, completionTokens)))
  }

  lemma {:induction false} FamilyPriceSkips(table: seq<Price>, model: string, n: nat)
    requires n <= |table| && forall j :: 0 <= j < n ==> !SameFamily(model, table[j].model)
    ensures FamilyPrice(table, model) == FamilyPrice(table[n..], model)
  {
    if n == 0 {
      assert table[0..] == table;
    } else {
      FamilyPriceSkips(table[1..], model, n - 1);
      assert table[1..][n - 1..] == table[n..];
    }
  }

  /** One name is a tail of the other: what is in front of it is the prefix of a region or vendor. */
  lemma SameFamilyIff(model: string, known: string)
    ensures SameFamily(model, known) <==> exists prefix :: model == prefix + known || known == prefix + model
  {
    if EndsWith(model, known) {
      assert model == model[..|model| - |known|] + known;
    } else if EndsWith(known, model) {
      assert known == known[..|known| - |model|] + model;
    }
  }

  /** A name is looked up by equality, and the entry found is the first of that name. */
  lemma {:induction false} LookupFinds(table: seq<Price>, model: string)
    ensures Lookup(table, model).Some? <==> exists i :: 0 <= i < |table| && table[i].model == model
    ensures Lookup(table, model).Some? ==>
      exists i :: 0 <= i < |table| && table[i] == Price(model, Lookup(table, model).value)
        && forall j :: 0 <= j < i ==> table[j].model != model
  {
    if table != [] && table[0].model != model {
      LookupFinds(table[1..], model);
      if i :| 0 <= i < |table| && table[i].model == model {
        assert table[1..][i - 1].model == model;
      }
      if Lookup(table[1..], model).Some? {
        var i :| 0 <= i < |table[1..]| && table[1..][i] == Price(model, Lookup(table[1..], model).value)
          && forall j :: 0 <= j < i ==> table[1..][j].model != model;
        assert table[i + 1] == table[1..][i];
        assert forall j :: 1 <= j < i + 1 ==> table[j] == table[1..][j - 1];
      }
    }
  }

  /** Billed at the first entry of exactly this name; without one, at the first of the family. */
  lemma {:induction false} BilledAtTheFirst(table: seq<Price>, model: string, pricing: ModelPricing)
    requires BilledAt(table, model, pricing)
    ensures exists i :: (0 <= i < |table| && table[i].pricing == pricing &&
      if exists k :: 0 <= k < |table| && table[k].model == model
      then table[i].model == model && forall j :: 0 <= j < i ==> table[j].model != model
      else SameFamily(model, table[i].model) && forall j :: 0 <= j < i ==> !SameFamily(model, table[j].model))
  {
    LookupFinds(table, model);
    if Lookup(table, model).Some? {
      var i :| 0 <= i < |table| && table[i] == Price(model, pricing) && forall j :: 0 <= j < i ==> table[j].model != model;
      assert table[i].model == model;
    }
  }

  method EstimateCost(table: seq<Price>, model: string, promptTokens: nat, completionTokens: nat)
    returns (cost: Option<nat>)
    ensures cost == Estimate(table, model, promptTokens, completionTokens)
    ensures cost.None? <==> forall i :: 0 <= i < |table| ==> !SameFamily(model, table[i].model)
    ensures cost.Some? ==>
      exists pricing ::
        BilledAt(table, model, pricing) && cost.value == Rounded(pricing.Cost(promptTokens, completionTokens))
        && -50 <= 100 * cost.value - (promptTokens * pricing.input + completionTokens * pricing.output) <= 50
  {
    LookupFinds(table, model);
    var pricing := Lookup(table, model);
    if pricing.None? {
      for i := 0 to |table|
        invariant pricing.None?
        invariant forall j :: 0 <= j < i ==> !SameFamily(model, table[j].model)
      {
        if SameFamily(model, table[i].model) {
          FamilyPriceSkips(table, model, i);
          pricing := Some(table[i].pricing);
          assert BilledAt(table, model, table[i].pricing);
          break;
        }
      }
    }
    if pricing.None? {
      FamilyPriceSkips(table, model, |table|);
      return None;
    }
    cost := Some(Rounded(pricing.value.Cost(promptTokens, completionTokens)));
    RoundedIsNearest(pricing.value.Cost(promptTokens, completionTokens));
  }

  /** A model is billed at one price only. */
  lemma BilledAtIsUnique(table: seq<Price>, model: string, p: ModelPricing, q: ModelPricing)
    requires BilledAt(table, model, p) && BilledAt(table, model, q)
    ensures p == q
  {
    if Lookup(table, model).None? {
      var i :| 0 <= i < |table| && SameFamily(model, table[i].model) && table[i].pricing == p
        && forall j :: 0 <= j < i ==> !SameFamily(model, table[j].model);
      var k :| 0 <= k < |table| && SameFamily(model, table[k].model) && table[k].pricing == q
        && forall j :: 0 <= j < k ==> !SameFamily(model, table[j].model);
      assert i == k;
    }
  }

  // ---------- rounding error of a bill ----------

  datatype Usage = Usage(pricing: ModelPricing, promptTokens: nat, completionTokens: nat)
  {
    function Exact(): nat { pricing.Cost(promptTokens, completionTokens) }
    function Billed(): nat { Rounded(Exact()) }
  }

  function Sum(amounts: seq<nat>): nat {
    if amounts == [] then 0 else Sum(amounts[..|amounts| - 1]) + amounts[|amounts| - 1]
  }

  /** What calls are billed, one by one. */
  function Bills(usages: seq<Usage>): (bills: seq<nat>)
    ensures |bills| == |usages| && forall i :: 0 <= i < |bills| ==> bills[i] == usages[i].Billed()
  {
    if usages == [] then [] else Bills(usages[..|usages| - 1]) + [usages[|usages| - 1].Billed()]
  }

  lemma RoundedIsNearest(hundredths: nat)
    ensures -50 <= 100 * Rounded(hundredths) - hundredths <= 50
    ensures forall other: int :: -50 < 100 * other - hundredths < 50 ==> other == Rounded(hundredths)
    ensures hundredths % 100 == 50 ==> Rounded(hundredths) % 2 == 0
  {
  }

  lemma RoundedMonotone(a: nat, b: nat)
    requires a <= b
    ensures Rounded(a) <= Rounded(b)
  {
    RoundedIsNearest(a);
    RoundedIsNearest(b);
  }

  /** More tokens never cost less. */
  lemma CostMonotone(pricing: ModelPricing, p: nat, c: nat, p': nat, c': nat)
    requires p <= p' && c <= c'
    ensures Usage(pricing, p, c).Billed() <= Usage(pricing, p', c').Billed()
  {
    assert p * pricing.input <= p' * pricing.input;
    assert c * pricing.output <= c' * pricing.output;
    RoundedMonotone(pricing.Cost(p, c), pricing.Cost(p', c'));
  }

  /** `n` billed costs add up to within n half micro-dollars of the exact total. */
  lemma {:induction false} BillingErrorBound(usages: seq<Usage>, exact: seq<nat>)
    requires |exact| == |usages|
    requires forall i :: 0 <= i < |usages| ==>
      exact[i] == usages[i].promptTokens * usages[i].pricing.input + usages[i].completionTokens * usages[i].pricing.output
    ensures -50 * |usages| <= 100 * Sum(Bills(usages)) - Sum(exact) <= 50 * |usages|
  {
    if usages != [] {
      var n := |usages| - 1;
      assert Bills(usages)[..n] == Bills(usages[..n]);
      BillingErrorBound(usages[..n], exact[..n]);
      RoundedIsNearest(usages[n].Exact());
    }
  }

  /** The bound is attained at a listed price: `n` calls of one "gpt-4o" prompt token, 2.5 micro-dollars each, billed as 2. */
  lemma {:induction false} BillingErrorIsReached(n: nat) returns (usages: seq<Usage>, exact: seq<nat>)
    ensures |usages| == |exact| == n && 100 * Sum(Bills(usages)) - Sum(exact) == -50 * n
    ensures forall i :: 0 <= i < n ==>
      && BilledAt(PRICING, "gpt-4o", usages[i].pricing) && usages[i].promptTokens == 1 && usages[i].completionTokens == 0
      && exact[i] == usages[i].pricing.input == 250
  {
    usages, exact := [], [];
    if n > 0 {
      var usages', exact' := BillingErrorIsReached(n - 1);
      var usage := HalfMicroDollar();
      usages, exact := usages' + [usage], exact' + [250];
      assert usages[..n - 1] == usages' && exact[..n - 1] == exact';
      assert Bills(usages)[..n - 1] == Bills(usages');
    }
  }

  lemma {:induction false} HalfMicroDollar() returns (usage: Usage)
    ensures BilledAt(PRICING, "gpt-4o", usage.pricing) && usage.pricing.input == 250
    ensures usage.promptTokens == 1 && usage.completionTokens == 0 && usage.Billed() == 2
  {
    usage := Usage(ModelPricing(250, 1000), 1, 0);
    ListedPrice();
    assert usage.Exact() == 250;
  }

  lemma {:induction false} ListedPrice()
    ensures BilledAt(PRICING, "gpt-4o", ModelPricing(250, 1000))
  {
    var table := PRICING;
    assert |table| == 7;
    var name := "gpt-4o";
    assert table[0].model[0] == 'a' && table[1].model[0] == 'u' && table[2].model[0] == 'a' && name[0] == 'g';
    assert Lookup(table[3..], name) == Some(ModelPricing(250, 1000));
    assert table[1..][1..] == table[2..] && table[2..][1..] == table[3..];
    assert Lookup(table[2..], name) == Lookup(table[3..], name);
    assert Lookup(table[1..], name) == Lookup(table[2..], name);
  }
}
