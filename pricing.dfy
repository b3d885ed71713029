/** The condition adjustment of the `/negotiate` endpoint. After
    depreciation the estimated value is scaled by a factor chosen from the
    listing's condition string: "Like New" raises it by a tenth, "Fair"
    lowers it by a fifth, and every other string leaves it alone. The
    comparison is exact and case-sensitive. Factors are exact rationals
    here, not binary floating-point numbers. */
module Pricing {

  /** The three ways the condition string can steer the adjustment. */
  datatype ConditionClass = LikeNew | Fair | Neutral

  /** Which branch of the if/elif chain a condition string takes. */
  function ClassOf(condition: string): (c: ConditionClass)
    ensures c == LikeNew <==> condition == "Like New"
    ensures c == Fair <==> condition == "Fair"
    ensures c == Neutral <==> condition != "Like New" && condition != "Fair"
  {
    if condition == "Like New" then LikeNew
    else if condition == "Fair" then Fair
    else Neutral
  }

  /** The multiplier each branch applies. */
  function Factor(c: ConditionClass): (f: real)
    ensures f > 0.0
  {
    match c
    case LikeNew => 11.0 / 10.0
    case Fair => 8.0 / 10.0
    case Neutral => 1.0
  }

  /** The multiplier a condition string selects. */
  function ConditionFactor(condition: string): (f: real)
    ensures condition == "Like New" ==> f == 11.0 / 10.0
    ensures condition == "Fair" ==> f == 8.0 / 10.0
    ensures condition != "Like New" && condition != "Fair" ==> f == 1.0
    ensures f > 0.0
  {
    Factor(ClassOf(condition))
  }

  /** The in-place update of the estimated value: untouched unless one of
      the two branches fires, in which case it is multiplied once. */
  method ApplyCondition(estimatedValue: real, condition: string) returns (v: real)
    ensures v == estimatedValue * ConditionFactor(condition)
    ensures condition != "Like New" && condition != "Fair" ==> v == estimatedValue
  {
    v := estimatedValue;
    if condition == "Like New" {
      v := v * 1.1;
    } else if condition == "Fair" {
      v := v * 0.8;
    }
  }

  /** The factors are strictly ordered: "Like New" above no adjustment,
      no adjustment above "Fair". */
  lemma FactorsOrdered()
    ensures Factor(LikeNew) > Factor(Neutral) > Factor(Fair)
  {
  }

  /** With everything else the same, a positive estimate comes out higher
      for "Like New" than for a neutral condition, and higher for a neutral
      condition than for "Fair". A zero estimate stays zero, and a negative
      one (the asking price is an unconstrained integer) is ordered the
      other way round. */
  lemma AdjustedValueOrdered(e: real, other: string)
    requires other != "Like New" && other != "Fair"
    ensures e > 0.0 ==>
      e * ConditionFactor("Like New") > e * ConditionFactor(other) > e * ConditionFactor("Fair")
    ensures e == 0.0 ==>
      e * ConditionFactor("Like New") == e * ConditionFactor(other) == e * ConditionFactor("Fair") == 0.0
    ensures e < 0.0 ==>
      e * ConditionFactor("Like New") < e * ConditionFactor(other) < e * ConditionFactor("Fair")
  {
  }

  /** The match is case-sensitive: lower-case or padded spellings of the
      two recognised conditions select no adjustment. */
  lemma MatchIsExact()
    ensures ConditionFactor("like new") == 1.0
    ensures ConditionFactor("fair") == 1.0
    ensures ConditionFactor("Like New ") == 1.0
  {
  }
}
