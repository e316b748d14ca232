/** The allocation of a CHP plant's fuel input to its two products, heat
    and electricity (src/deflex/tools/chp.py). Each method yields the
    electricity share of the fuel; the heat share is the rest. The keyword
    arguments are a map from parameter names to values. */
module Chp {
  import opened Wrappers

  /** `fuel_factors(heat, electricity)` */
  datatype FuelFactors = FuelFactors(heat: real, electricity: real)

  datatype ChpError =
    | MissingParameters(methodName: string, names: seq<string>)   // ValueError of `_check_input`
    | NotImplemented(methodName: string)                          // NotImplementedError
    | UnexpectedParameters(unexpected: set<string>)                // TypeError of the `**kwargs` call
    | DivisionByZero                                          // ZeroDivisionError

  /** The keyword arguments. */
  type Params = map<string, real>

  /** The allocation methods `allocate_fuel` knows. */
  datatype AllocationMethod = Finnish | Efficiency | Exergy | Iea | Electricity | Heat

  /** The method names, with "alternative_generation" for the Finnish
      method and "carnot" for the exergy method. */
  function MethodOf(name: string): (r: Option<AllocationMethod>)
    ensures r == Some(Finnish) <==> name in {"alternative_generation", "finnish"}
    ensures r == Some(Exergy) <==> name in {"exergy", "carnot"}
    ensures r == Some(Efficiency) <==> name == "efficiency"
    ensures r == Some(Iea) <==> name == "iea"
    ensures r == Some(Electricity) <==> name == "electricity"
    ensures r == Some(Heat) <==> name == "heat"
  {
    if name == "alternative_generation" || name == "finnish" then Some(Finnish)
    else if name == "efficiency" then Some(Efficiency)
    else if name == "exergy" || name == "carnot" then Some(Exergy)
    else if name == "iea" then Some(Iea)
    else if name == "electricity" then Some(Electricity)
    else if name == "heat" then Some(Heat)
    else None
  }

  /** The parameters each method function takes, in the order
      `allocate_fuel` checks them. */
  function Mandatory(m: AllocationMethod): seq<string>
  {
    match m
    case Finnish => ["eta_e", "eta_th", "eta_e_ref", "eta_th_ref"]
    case Efficiency => ["eta_e", "eta_th"]
    case Exergy => ["eta_e", "eta_th", "eta_c"]
    case Iea => ["eta_e", "eta_th"]
    case Electricity => []
    case Heat => []
  }

  /** Float division, which raises on a zero divisor. */
  function Div(a: real, b: real): (r: Result<real, ChpError>)
    ensures r.Success? <==> b != 0.0
    ensures r.Success? ==> r.value * b == a
    ensures r.Failure? ==> r.error == DivisionByZero
  {
    if b == 0.0 then Failure(DivisionByZero) else Success(a / b)
  }

  /** `iea_method`: the electricity share is the electrical efficiency's
      part of the total efficiency. */
  function IeaMethod(etaE: real, etaTh: real): (r: Result<real, ChpError>)
    ensures r.Success? <==> etaE + etaTh != 0.0
    ensures r.Success? ==> r.value * (etaE + etaTh) == etaE
    ensures r.Success? && etaE >= 0.0 && etaTh >= 0.0 ==> 0.0 <= r.value <= 1.0
  {
    var r := Div(etaE * 1.0, etaE + etaTh);
    if r.Success? && etaE >= 0.0 && etaTh >= 0.0 then ShareInUnit(etaE, etaE + etaTh, r.value); r else r
  }

  /** `efficiency_method`: the electricity share is the thermal
      efficiency's part of the total efficiency. */
  function EfficiencyMethod(etaE: real, etaTh: real): (r: Result<real, ChpError>)
    ensures r.Success? <==> etaE + etaTh != 0.0
    ensures r.Success? ==> r.value * (etaE + etaTh) == etaTh
    ensures r.Success? && etaE >= 0.0 && etaTh >= 0.0 ==> 0.0 <= r.value <= 1.0
  {
    var r := Div(etaTh, etaE + etaTh);
    if r.Success? && etaE >= 0.0 && etaTh >= 0.0 then ShareInUnit(etaTh, etaE + etaTh, r.value); r else r
  }

  /** `finnish_method`: each efficiency is first measured against its
      reference plant, and the electricity share is the electrical part
      of the sum of the two. */
  function FinnishMethod(etaE: real, etaTh: real, etaERef: real, etaThRef: real): (r: Result<real, ChpError>)
    ensures r.Success? <==> etaERef != 0.0 && etaThRef != 0.0 && etaE / etaERef + etaTh / etaThRef != 0.0
    ensures r.Success? ==> r.value * (etaE / etaERef + etaTh / etaThRef) == etaE / etaERef
    ensures r.Success? && etaE >= 0.0 && etaTh >= 0.0 && etaERef > 0.0 && etaThRef > 0.0 ==> 0.0 <= r.value <= 1.0
  {
    var e :- Div(etaE, etaERef);
    var th :- Div(etaTh, etaThRef);
    var r := Div(e, e + th);
    if r.Success? && etaE >= 0.0 && etaTh >= 0.0 && etaERef > 0.0 && etaThRef > 0.0 then
      QuotientNonNegative(etaE, etaERef, e);
      QuotientNonNegative(etaTh, etaThRef, th);
      ShareInUnit(e, e + th, r.value); r
    else r
  }

  /** `exergy_method`: the heat is weighted with the Carnot factor before
      the electricity share of the total is taken. */
  function ExergyMethod(etaE: real, etaTh: real, etaC: real): (r: Result<real, ChpError>)
    ensures r.Success? <==> etaE + etaC * etaTh != 0.0
    ensures r.Success? ==> r.value * (etaE + etaC * etaTh) == etaE
    ensures r.Success? && etaE >= 0.0 && etaTh >= 0.0 && etaC >= 0.0 ==> 0.0 <= r.value <= 1.0
  {
    var r := Div(etaE, etaE + etaC * etaTh);
    if r.Success? && etaE >= 0.0 && etaTh >= 0.0 && etaC >= 0.0 then
      assert etaC * etaTh >= 0.0;
      ShareInUnit(etaE, etaE + etaC * etaTh, r.value); r
    else r
  }

  /** A part of a non-zero whole, no larger than the whole, is a share
      between 0 and 1. */
  lemma ShareInUnit(part: real, whole: real, q: real)
    requires 0.0 <= part <= whole && whole != 0.0 && q * whole == part
    ensures 0.0 <= q <= 1.0
  {
    assert whole > 0.0;
    assert q == part / whole;
  }

  /** The quotient of a non-negative number by a positive one is not
      negative. */
  lemma QuotientNonNegative(a: real, b: real, q: real)
    requires a >= 0.0 && b > 0.0 && q * b == a
    ensures q >= 0.0
  {
    assert q == a / b;
  }

  /** The mandatory parameters that are not given, in the order of
      `mandatory`: the list `_check_input` collects. */
  function Missing(mandatory: seq<string>, params: Params): (r: seq<string>)
    ensures forall n :: n in r <==> n in mandatory && n !in params
    ensures |r| <= |mandatory|
  {
    if |mandatory| == 0 then []
    else (if mandatory[0] in params then [] else [mandatory[0]]) + Missing(mandatory[1..], params)
  }

  /** `_check_input` followed by the call of the method function with
      `**kwargs`: missing parameters raise one `ValueError` naming all of
      them, and a parameter the function does not take raises `TypeError`. */
  function CheckInput(name: string, mandatory: seq<string>, params: Params): (r: Outcome<ChpError>)
    ensures r == Pass <==> params.Keys == set n | n in mandatory
    ensures r.Fail? && r.error.MissingParameters? ==> r.error == MissingParameters(name, Missing(mandatory, params)) && |r.error.names| > 0
    ensures r.Fail? && !r.error.MissingParameters? ==> r.error == UnexpectedParameters(params.Keys - set n | n in mandatory)
  {
    var missing := Missing(mandatory, params);
    if |missing| > 0 then
      assert missing[0] in mandatory && missing[0] !in params.Keys by {
        assert missing[0] in missing;
      }
      Fail(MissingParameters(name, missing))
    else
      var extra := params.Keys - set n | n in mandatory;
      if extra != {} then Fail(UnexpectedParameters(extra))
      else
        assert params.Keys == set n | n in mandatory by {
          forall n | n in mandatory ensures n in params {
            assert n !in missing;
          }
          forall n | n in params ensures n in mandatory {
            assert n !in extra;
          }
        }
        Pass
  }

  /** The electricity share `f_elec` of a method whose parameters passed
      `_check_input`. */
  function Formula(m: AllocationMethod, params: Params): (r: Result<real, ChpError>)
    requires forall n :: n in Mandatory(m) ==> n in params
    ensures r.Failure? ==> r.error == DivisionByZero
  {
    match m
    case Finnish => FinnishMethod(params["eta_e"], params["eta_th"], params["eta_e_ref"], params["eta_th_ref"])
    case Efficiency => EfficiencyMethod(params["eta_e"], params["eta_th"])
    case Exergy => ExergyMethod(params["eta_e"], params["eta_th"], params["eta_c"])
    case Iea => IeaMethod(params["eta_e"], params["eta_th"])
    case Electricity => Success(1.0)
    case Heat => Success(0.0)
  }

  /** `allocate_fuel(method, **kwargs)`, with `name` the method: "electricity" and "heat" ignore
      the keyword arguments; the other methods check them first. */
  function AllocateFuel(name: string, params: Params): (r: Result<FuelFactors, ChpError>)
    ensures r.Success? ==> r.value.heat + r.value.electricity == 1.0
  {
    match MethodOf(name)
    case None => Failure(NotImplemented(name))
    case Some(m) => Allocate(name, m, params)
  }

  /** `allocate_fuel` once the name has been resolved to method `m`. */
  function Allocate(name: string, m: AllocationMethod, params: Params): (r: Result<FuelFactors, ChpError>)
    ensures r.Success? ==> r.value.heat + r.value.electricity == 1.0
  {
    var check := if m.Electricity? || m.Heat? then Pass else CheckInput(name, Mandatory(m), params);
    if check.Fail? then Failure(check.error)
    else
      var elec :- Formula(m, params);
      Success(FuelFactors(1.0 - elec, elec))
  }

  /** The outcome of `allocate_fuel` case by case: unknown names raise
      `NotImplementedError`, "electricity" and "heat" give the whole fuel
      to one product whatever the arguments, and the other methods raise
      one `ValueError` listing exactly the absent parameters, in order. */
  lemma AllocateFuelCases(name: string, params: Params)
    ensures MethodOf(name).None? <==> AllocateFuel(name, params) == Failure(NotImplemented(name))
    ensures name == "electricity" ==> AllocateFuel(name, params) == Success(FuelFactors(0.0, 1.0))
    ensures name == "heat" ==> AllocateFuel(name, params) == Success(FuelFactors(1.0, 0.0))
    ensures MethodOf(name).Some? && |Missing(Mandatory(MethodOf(name).value), params)| > 0 && !(name in {"electricity", "heat"}) ==>
      AllocateFuel(name, params) == Failure(MissingParameters(name, Missing(Mandatory(MethodOf(name).value), params)))
    ensures AllocateFuel(name, params).Failure? && AllocateFuel(name, params).error.MissingParameters? ==>
      var missing := AllocateFuel(name, params).error.names;
      |missing| > 0 && forall n :: n in missing <==> n in Mandatory(MethodOf(name).value) && n !in params
  {
    match MethodOf(name)
    case None =>
    case Some(m) =>
      AllocateErrors(name, m, params);
      assert AllocateFuel(name, params) == Allocate(name, m, params);
  }

  /** What a resolved method can raise: never `NotImplementedError`, the
      `ValueError` of missing parameters exactly when some are missing
      (the whole-fuel methods aside), and it names all of them. */
  lemma AllocateErrors(name: string, m: AllocationMethod, params: Params)
    ensures Allocate(name, m, params) != Failure(NotImplemented(name))
    ensures m == Electricity ==> Allocate(name, m, params) == Success(FuelFactors(0.0, 1.0))
    ensures m == Heat ==> Allocate(name, m, params) == Success(FuelFactors(1.0, 0.0))
    ensures |Missing(Mandatory(m), params)| > 0 && !(m.Electricity? || m.Heat?) ==>
      Allocate(name, m, params) == Failure(MissingParameters(name, Missing(Mandatory(m), params)))
    ensures Allocate(name, m, params).Failure? && Allocate(name, m, params).error.MissingParameters? ==>
      Allocate(name, m, params).error == MissingParameters(name, Missing(Mandatory(m), params)) &&
      |Missing(Mandatory(m), params)| > 0
  {
    if !(m.Electricity? || m.Heat?) {
      var check := CheckInput(name, Mandatory(m), params);
      if check.Fail? {
        assert Allocate(name, m, params) == Failure(check.error);
        if |Missing(Mandatory(m), params)| > 0 {
          assert check == Fail(MissingParameters(name, Missing(Mandatory(m), params)));
        }
      } else {
        var elec := Formula(m, params);
        assert elec.Failure? ==> Allocate(name, m, params) == Failure(DivisionByZero);
        assert elec.Success? ==> Allocate(name, m, params).Success?;
      }
    }
  }

  /** A method other than "electricity" and "heat" computes exactly when
      it is given its own parameters and no others. */
  lemma AllocateFuelComputes(name: string, params: Params)
    requires MethodOf(name).Some? && !(name in {"electricity", "heat"})
    ensures AllocateFuel(name, params).Success? ==> params.Keys == set n | n in Mandatory(MethodOf(name).value)
    ensures params.Keys == (set n | n in Mandatory(MethodOf(name).value)) ==>
      AllocateFuel(name, params).Success? == Formula(MethodOf(name).value, params).Success?
  {
  }

  /** Two names of one method compute the same factors. */
  lemma SameMethodAgrees(a: string, b: string, params: Params)
    requires MethodOf(a) == MethodOf(b)
    ensures AllocateFuel(a, params).Success? == AllocateFuel(b, params).Success?
    ensures AllocateFuel(a, params).Success? ==> AllocateFuel(a, params) == AllocateFuel(b, params)
  {
    match MethodOf(a)
    case None =>
    case Some(m) =>
      if !(m.Electricity? || m.Heat?) {
        assert CheckInput(a, Mandatory(m), params).Pass? == CheckInput(b, Mandatory(m), params).Pass?;
      }
  }

  /** "carnot" is the exergy method and "alternative_generation" the
      Finnish method. */
  lemma AliasesAgree(params: Params)
    ensures AllocateFuel("carnot", params).Success? == AllocateFuel("exergy", params).Success?
    ensures AllocateFuel("carnot", params).Success? ==> AllocateFuel("carnot", params) == AllocateFuel("exergy", params)
    ensures AllocateFuel("alternative_generation", params).Success? == AllocateFuel("finnish", params).Success?
    ensures AllocateFuel("alternative_generation", params).Success? ==>
      AllocateFuel("alternative_generation", params) == AllocateFuel("finnish", params)
  {
    SameMethodAgrees("carnot", "exergy", params);
    SameMethodAgrees("alternative_generation", "finnish", params);
  }

  /** The IEA share of electricity and the efficiency-method share add up
      to the whole fuel. */
  lemma IeaEfficiencyComplement(etaE: real, etaTh: real)
    requires etaE + etaTh != 0.0
    ensures IeaMethod(etaE, etaTh).Success? && EfficiencyMethod(etaE, etaTh).Success?
    ensures IeaMethod(etaE, etaTh).value + EfficiencyMethod(etaE, etaTh).value == 1.0
  {
    var s := etaE + etaTh;
    var a := IeaMethod(etaE, etaTh).value;
    var b := EfficiencyMethod(etaE, etaTh).value;
    assert a == etaE / s && b == etaTh / s;
    assert a + b == s / s;
  }

  /** With equal reference efficiencies the Finnish method is the IEA
      method. */
  lemma FinnishEqualReferences(etaE: real, etaTh: real, etaRef: real)
    requires etaRef != 0.0
    ensures FinnishMethod(etaE, etaTh, etaRef, etaRef) == IeaMethod(etaE, etaTh)
  {
    var e := etaE / etaRef;
    var th := etaTh / etaRef;
    assert e + th == (etaE + etaTh) / etaRef;
    if etaE + etaTh != 0.0 {
      assert e / (e + th) == etaE / (etaE + etaTh);
    }
  }

  /** With a Carnot factor of 1 the exergy method is the IEA method. */
  lemma ExergyUnitCarnot(etaE: real, etaTh: real)
    ensures ExergyMethod(etaE, etaTh, 1.0) == IeaMethod(etaE, etaTh)
  {
  }

  /** x / (x + y) lies strictly between 0 and 1 for positive x and y. */
  lemma ShareBounds(x: real, y: real)
    requires x > 0.0 && y > 0.0
    ensures 0.0 < x / (x + y) < 1.0
  {
    assert x / (x + y) * (x + y) == x;
  }

  /** For strictly positive efficiencies, reference efficiencies and
      Carnot factor every method computes a share strictly between 0
      and 1. */
  lemma FactorsStrictlyBetween(etaE: real, etaTh: real, etaERef: real, etaThRef: real, etaC: real)
    requires etaE > 0.0 && etaTh > 0.0 && etaERef > 0.0 && etaThRef > 0.0 && etaC > 0.0
    ensures IeaMethod(etaE, etaTh).Success? && 0.0 < IeaMethod(etaE, etaTh).value < 1.0
    ensures EfficiencyMethod(etaE, etaTh).Success? && 0.0 < EfficiencyMethod(etaE, etaTh).value < 1.0
    ensures FinnishMethod(etaE, etaTh, etaERef, etaThRef).Success?
    ensures 0.0 < FinnishMethod(etaE, etaTh, etaERef, etaThRef).value < 1.0
    ensures ExergyMethod(etaE, etaTh, etaC).Success? && 0.0 < ExergyMethod(etaE, etaTh, etaC).value < 1.0
  {
    ShareBounds(etaE, etaTh);
    ShareBounds(etaTh, etaE);
    assert etaTh + etaE == etaE + etaTh;
    var e := etaE / etaERef;
    var th := etaTh / etaThRef;
    assert e * etaERef == etaE;
    assert th * etaThRef == etaTh;
    ShareBounds(e, th);
    ShareBounds(etaE, etaC * etaTh);
  }

  /** The values of the module's examples: the IEA method on 0.3 and 0.5
      gives 0.375 of the fuel to electricity and 0.625 to heat. */
  lemma IeaExample()
    ensures AllocateFuel("iea", map["eta_e" := 0.3, "eta_th" := 0.5]) == Success(FuelFactors(0.625, 0.375))
  {
    var params := map["eta_e" := 0.3, "eta_th" := 0.5];
    assert MethodOf("iea") == Some(Iea);
    assert params.Keys == set n | n in Mandatory(Iea);
    assert CheckInput("iea", Mandatory(Iea), params) == Pass;
    assert Formula(Iea, params) == Div(0.3, 0.8);
    assert Allocate("iea", Iea, params) == Success(FuelFactors(0.625, 0.375));
  }
}
