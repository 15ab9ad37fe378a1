/**
 * The parametric azimuth/elevation pointing model of a radio telescope: a
 * fixed registry of named basis terms per axis, a selection resolved against
 * it, the sorted list of distinct parameter names the selection needs, and
 * the evaluation that binds a positional parameter vector to those names and
 * sums the selected terms of each axis.
 *
 * Sample values are `real`; numpy's `sin` and `cos` are kept abstract (a
 * `Trig` value supplied by the caller), so every property proved here holds
 * whatever those functions are and whatever units they are fed.
 */
module Pointing {
  import opened Lex

  datatype Result<T, E> = Ok(value: T) | Err(error: E)

  datatype Axis = Az | El

  /** The two trigonometric functions the basis terms use, left uninterpreted. */
  datatype Trig = Trig(sin: real -> real, cos: real -> real)

  /** The evaluation rule of a basis term, for one sample and one parameter value `p`. */
  datatype Rule =
    | Constant       // p * ones(az.size)
    | CosEl          // p * cos(el)
    | SinEl          // p * sin(el)
    | NegSinAzSinEl  // -p * sin(az) * sin(el)
    | NegCosAzSinEl  // -p * cos(az) * sin(el)
    | NegCosAz       // -p * cos(az)
    | SinAz          // p * sin(az)

  /** A registered lambda applied to one sample with parameter value `p`. */
  function Apply(rule: Rule, trig: Trig, az: real, el: real, p: real): (r: real)
    ensures r == p * Basis(rule, trig, az, el)
  {
    var s, k := trig.sin, trig.cos;
    match rule
    case Constant => p
    case CosEl => p * k(el)
    case SinEl => p * s(el)
    case NegSinAzSinEl => assert -p * s(az) * s(el) == p * -(s(az) * s(el)); -p * s(az) * s(el)
    case NegCosAzSinEl => assert -p * k(az) * s(el) == p * -(k(az) * s(el)); -p * k(az) * s(el)
    case NegCosAz => -p * k(az)
    case SinAz => p * s(az)
  }

  /**
   * The basis function of a rule: the pointing-dependent factor that its
   * parameter multiplies.
   */
  function Basis(rule: Rule, trig: Trig, az: real, el: real): real
  {
    match rule
    case Constant => 1.0
    case CosEl => trig.cos(el)
    case SinEl => trig.sin(el)
    case NegSinAzSinEl => -(trig.sin(az) * trig.sin(el))
    case NegCosAzSinEl => -(trig.cos(az) * trig.sin(el))
    case NegCosAz => -trig.cos(az)
    case SinAz => trig.sin(az)
  }

  /**
   * A registered basis term. Every term of the registry declares exactly one
   * parameter name, so the record keeps that one name.
   */
  datatype Term = Term(name: string, param: string, rule: Rule)

  const AzFunctionA := Term("function_A", "A", Constant)
  const AzFunctionB := Term("function_B", "B", CosEl)
  const AzFunctionC := Term("function_C", "C", SinEl)
  const AzFunctionD := Term("function_D", "D", NegSinAzSinEl)
  const AzFunctionE := Term("function_E", "E", NegCosAzSinEl)

  // The elevation terms c and d reuse the azimuth parameter names D and E;
  // this aliasing is part of the registry and is kept as it is.
  const ElFunctionA := Term("function_a", "a", Constant)
  const ElFunctionB := Term("function_b", "b", CosEl)
  const ElFunctionC := Term("function_c", "D", NegCosAz)
  const ElFunctionD := Term("function_d", "E", SinAz)

  /** The fixed registry of basis terms of each axis, keyed by function name. */
  function Registry(axis: Axis): (r: map<string, Term>)
    ensures axis == Az ==> r.Keys == {"function_A", "function_B", "function_C", "function_D", "function_E"}
    ensures axis == El ==> r.Keys == {"function_a", "function_b", "function_c", "function_d"}
    ensures forall name :: name in r ==> r[name].name == name
  {
    match axis
    case Az =>
      map["function_A" := AzFunctionA, "function_B" := AzFunctionB, "function_C" := AzFunctionC,
          "function_D" := AzFunctionD, "function_E" := AzFunctionE]
    case El =>
      map["function_a" := ElFunctionA, "function_b" := ElFunctionB,
          "function_c" := ElFunctionC, "function_d" := ElFunctionD]
  }

  /** The KeyError raised when a requested name is not registered for its axis. */
  datatype ConfigError = UnknownFunction(axis: Axis, name: string)

  /** The selection of one axis: each requested name looked up, in order, in that axis's registry only. */
  function Resolve(axis: Axis, names: seq<string>): (r: Result<seq<Term>, ConfigError>)
    ensures r.Ok? <==> forall i :: 0 <= i < |names| ==> names[i] in Registry(axis)
    ensures r.Ok? ==>
      && |r.value| == |names|
      && forall i :: 0 <= i < |names| ==> r.value[i] == Registry(axis)[names[i]]
    ensures r.Err? ==>
      exists k :: 0 <= k < |names| && names[k] !in Registry(axis)
        && r.error == UnknownFunction(axis, names[k])
        && forall i :: 0 <= i < k ==> names[i] in Registry(axis)
  {
    if |names| == 0 then Ok([])
    else if names[0] !in Registry(axis) then Err(UnknownFunction(axis, names[0]))
    else
      match Resolve(axis, names[1..])
      case Err(e) =>
        var k :| 0 <= k < |names[1..]| && names[1..][k] !in Registry(axis)
          && e == UnknownFunction(axis, names[1..][k])
          && forall i :: 0 <= i < k ==> names[1..][i] in Registry(axis);
        assert names[k + 1] == names[1..][k];
        Err(e)
      case Ok(rest) => Ok([Registry(axis)[names[0]]] + rest)
  }

  /** The parameter names of the selected terms, in selection order, repetitions kept. */
  function ParamNames(terms: seq<Term>): (r: seq<string>)
    ensures |r| == |terms| && forall i :: 0 <= i < |terms| ==> r[i] == terms[i].param
  {
    seq(|terms|, i requires 0 <= i < |terms| => terms[i].param)
  }

  /** `p` is the parameter of some term of `terms`. */
  predicate Uses(terms: seq<Term>, p: string)
  {
    exists i :: 0 <= i < |terms| && terms[i].param == p
  }

  /**
   * The distinct parameter names of both selections, sorted: the set of each
   * axis's names, then the set of their union, then the sort.
   */
  function UniqueParams(az: seq<Term>, el: seq<Term>): (r: seq<string>)
    ensures StrictlySorted(r)
    ensures forall p :: p in r <==> Uses(az, p) || Uses(el, p)
  {
    var azNames := SortedSet(ParamNames(az));
    var elNames := SortedSet(ParamNames(el));
    var all := SortedSet(azNames + elNames);
    assert forall p :: p in ParamNames(az) <==> Uses(az, p);
    assert forall p :: p in ParamNames(el) <==> Uses(el, p);
    all
  }

  /** `dict(zip(names, values))`: pairs up to the shorter of the two; a repeated name keeps its last value. */
  function Bind(names: seq<string>, values: seq<real>): (d: map<string, real>)
    ensures d.Keys == set i | 0 <= i < Min(|names|, |values|) :: names[i]
    ensures forall i :: (0 <= i < Min(|names|, |values|) && LastAt(names, Min(|names|, |values|), i)
                         ==> d[names[i]] == values[i])
    decreases |names|
  {
    var n := Min(|names|, |values|);
    if n == 0 then map[]
    else
      var front := Bind(names[..n - 1], values[..n - 1]);
      BindExtend(names, values, names[..n - 1], values[..n - 1], front);
      front[names[n - 1] := values[n - 1]]
  }

  /** Binding one more pair on top of the binding of the first `n - 1` pairs binds the first `n`. */
  lemma BindExtend(names: seq<string>, values: seq<real>, fnames: seq<string>, fvalues: seq<real>,
                   front: map<string, real>)
    requires 0 < Min(|names|, |values|)
    requires fnames == names[..Min(|names|, |values|) - 1] && fvalues == values[..Min(|names|, |values|) - 1]
    requires front.Keys == set i | 0 <= i < Min(|fnames|, |fvalues|) :: fnames[i]
    requires forall i :: (0 <= i < Min(|fnames|, |fvalues|) && LastAt(fnames, Min(|fnames|, |fvalues|), i)
                          ==> front[fnames[i]] == fvalues[i])
    ensures var n := Min(|names|, |values|);
            front[names[n - 1] := values[n - 1]].Keys == set i | 0 <= i < n :: names[i]
    ensures var n := Min(|names|, |values|);
            forall i :: (0 <= i < n && LastAt(names, n, i)
                         ==> front[names[n - 1] := values[n - 1]][names[i]] == values[i])
  {
    var n := Min(|names|, |values|);
    var m := n - 1;
    assert Min(|fnames|, |fvalues|) == m;
    assert forall i :: 0 <= i < m ==> fnames[i] == names[i];
    assert front.Keys == set i | 0 <= i < m :: names[i];
    assert (set i | 0 <= i < n :: names[i]) == front.Keys + {names[m]};
    forall i | 0 <= i < n && LastAt(names, n, i)
      ensures front[names[m] := values[m]][names[i]] == values[i]
    {
      if i < m {
        assert names[i] != names[m];
        assert LastAt(fnames, m, i);
      }
    }
  }

  function Min(a: nat, b: nat): nat
  {
    if a <= b then a else b
  }

  /** No later position before `n` repeats the name at position `i`. */
  predicate LastAt(names: seq<string>, n: nat, i: nat)
    requires i < n <= |names|
  {
    forall j :: i < j < n ==> names[j] != names[i]
  }

  /** The KeyError raised when a selected term's parameter received no value. */
  datatype EvalError = MissingParameter(name: string)

  /**
   * An axis correction: the scalar 0 that `sum` returns for an empty
   * selection, or one value per input sample.
   */
  datatype Correction = Scalar(x: real) | Samples(xs: seq<real>)

  /** One term evaluated on every sample. */
  function TermSamples(t: Term, trig: Trig, azimuth: seq<real>, elevation: seq<real>, p: real): (r: seq<real>)
    requires |azimuth| == |elevation|
    ensures |r| == |azimuth|
    ensures forall j :: 0 <= j < |r| ==> r[j] == Apply(t.rule, trig, azimuth[j], elevation[j], p)
  {
    seq(|azimuth|, j requires 0 <= j < |azimuth| => Apply(t.rule, trig, azimuth[j], elevation[j], p))
  }

  /** `acc + ys` with numpy broadcasting of a scalar accumulator. */
  function Plus(acc: Correction, ys: seq<real>): (r: Correction)
    requires acc.Samples? ==> |acc.xs| == |ys|
    ensures r.Samples? && |r.xs| == |ys|
    ensures forall j :: 0 <= j < |ys| ==> r.xs[j] == (if acc.Scalar? then acc.x else acc.xs[j]) + ys[j]
  {
    match acc
    case Scalar(c) => Samples(seq(|ys|, j requires 0 <= j < |ys| => c + ys[j]))
    case Samples(xs) => Samples(seq(|ys|, j requires 0 <= j < |ys| => xs[j] + ys[j]))
  }

  /** Every selected term finds its parameter in the binding. */
  predicate AllBound(terms: seq<Term>, binding: map<string, real>)
  {
    forall k :: 0 <= k < |terms| ==> terms[k].param in binding
  }

  /** The basis functions of all rules at one pointing (az, el). */
  function Weights(trig: Trig, az: real, el: real): Rule -> real
  {
    rule => Basis(rule, trig, az, el)
  }

  /**
   * Reference definition for one sample: the linear combination of the
   * terms' basis-function values `w` with their bound parameters as
   * coefficients, added in selection order starting from 0.
   */
  function PointSum(terms: seq<Term>, w: Rule -> real, binding: map<string, real>): real
    requires AllBound(terms, binding)
  {
    if |terms| == 0 then 0.0
    else
      var last := terms[|terms| - 1];
      PointSum(terms[..|terms| - 1], w, binding) + binding[last.param] * w(last.rule)
  }

  /** `c` is the sum of `terms` on every sample: 0 for no term, else one entry per sample. */
  ghost predicate IsSumOf(c: Correction, terms: seq<Term>, trig: Trig, azimuth: seq<real>, elevation: seq<real>,
                          binding: map<string, real>)
    requires |azimuth| == |elevation| && AllBound(terms, binding)
  {
    && (|terms| == 0 ==> c == Scalar(0.0))
    && (|terms| > 0 ==>
          && c.Samples? && |c.xs| == |azimuth|
          && forall j :: 0 <= j < |azimuth| ==> c.xs[j] == PointSum(terms, Weights(trig, azimuth[j], elevation[j]), binding))
  }

  /**
   * `sum(func(az, el, *[binding[p] for p in params]) for func in terms)`:
   * a left fold from 0 that stops at the first term whose parameter is unbound.
   */
  function SumTerms(terms: seq<Term>, trig: Trig, azimuth: seq<real>, elevation: seq<real>,
                    binding: map<string, real>): (r: Result<Correction, EvalError>)
    requires |azimuth| == |elevation|
    ensures r.Ok? <==> AllBound(terms, binding)
    ensures r.Ok? ==> IsSumOf(r.value, terms, trig, azimuth, elevation, binding)
    ensures r.Err? ==>
      exists k :: 0 <= k < |terms| && terms[k].param !in binding
        && r.error == MissingParameter(terms[k].param)
        && forall i :: 0 <= i < k ==> terms[i].param in binding
    decreases |terms|
  {
    if |terms| == 0 then Ok(Scalar(0.0))
    else
      var front := terms[..|terms| - 1];
      var last := terms[|terms| - 1];
      assert forall i :: 0 <= i < |front| ==> front[i] == terms[i];
      match SumTerms(front, trig, azimuth, elevation, binding)
      case Err(e) => Err(e)
      case Ok(acc) =>
        if last.param !in binding then Err(MissingParameter(last.param))
        else
          PlusExtendsSum(acc, terms, trig, azimuth, elevation, binding);
          Ok(Plus(acc, TermSamples(last, trig, azimuth, elevation, binding[last.param])))
  }

  /** Adding the last term's samples to the sum of the others gives the sum of all the terms. */
  lemma PlusExtendsSum(acc: Correction, terms: seq<Term>, trig: Trig, azimuth: seq<real>, elevation: seq<real>,
                       binding: map<string, real>)
    requires |azimuth| == |elevation| && |terms| > 0 && AllBound(terms, binding)
    requires AllBound(terms[..|terms| - 1], binding)
    requires IsSumOf(acc, terms[..|terms| - 1], trig, azimuth, elevation, binding)
    ensures var last := terms[|terms| - 1];
      IsSumOf(Plus(acc, TermSamples(last, trig, azimuth, elevation, binding[last.param])),
              terms, trig, azimuth, elevation, binding)
  {
    var last := terms[|terms| - 1];
    var r := Plus(acc, TermSamples(last, trig, azimuth, elevation, binding[last.param]));
    forall j | 0 <= j < |azimuth|
      ensures r.xs[j] == PointSum(terms, Weights(trig, azimuth[j], elevation[j]), binding)
    {
      PlusExtendsSample(acc, terms, trig, azimuth, elevation, binding, j);
    }
  }

  /** `PlusExtendsSum` at one sample `j`. */
  lemma PlusExtendsSample(acc: Correction, terms: seq<Term>, trig: Trig, azimuth: seq<real>, elevation: seq<real>,
                          binding: map<string, real>, j: nat)
    requires |azimuth| == |elevation| && |terms| > 0 && AllBound(terms, binding) && j < |azimuth|
    requires AllBound(terms[..|terms| - 1], binding)
    requires IsSumOf(acc, terms[..|terms| - 1], trig, azimuth, elevation, binding)
    ensures var last := terms[|terms| - 1];
      Plus(acc, TermSamples(last, trig, azimuth, elevation, binding[last.param])).xs[j]
        == PointSum(terms, Weights(trig, azimuth[j], elevation[j]), binding)
  {
    var last := terms[|terms| - 1];
    var ys := TermSamples(last, trig, azimuth, elevation, binding[last.param]);
    var w := Weights(trig, azimuth[j], elevation[j]);
    var basis := Basis(last.rule, trig, azimuth[j], elevation[j]);
    assert w(last.rule) == basis;
    SampleOfTerm(last, trig, azimuth, elevation, binding[last.param], j);
    SumAtSample(acc, terms[..|terms| - 1], trig, azimuth, elevation, binding, j);
    SampleStep(terms, w, binding, if acc.Scalar? then acc.x else acc.xs[j], basis, ys[j]);
  }

  /** Sample `j` of a sum is the point sum at that pointing, also for the scalar 0 of an empty selection. */
  lemma SumAtSample(c: Correction, terms: seq<Term>, trig: Trig, azimuth: seq<real>, elevation: seq<real>,
                    binding: map<string, real>, j: nat)
    requires |azimuth| == |elevation| && AllBound(terms, binding) && j < |azimuth|
    requires IsSumOf(c, terms, trig, azimuth, elevation, binding)
    ensures (if c.Scalar? then c.x else c.xs[j]) == PointSum(terms, Weights(trig, azimuth[j], elevation[j]), binding)
  {
    if |terms| == 0 {
      assert PointSum(terms, Weights(trig, azimuth[j], elevation[j]), binding) == 0.0;
    }
  }

  /** Sample `j` of a term is its parameter times its basis function at that pointing. */
  lemma SampleOfTerm(t: Term, trig: Trig, azimuth: seq<real>, elevation: seq<real>, p: real, j: nat)
    requires |azimuth| == |elevation| && j < |azimuth|
    ensures TermSamples(t, trig, azimuth, elevation, p)[j] == p * Basis(t.rule, trig, azimuth[j], elevation[j])
  {
    assert TermSamples(t, trig, azimuth, elevation, p)[j] == Apply(t.rule, trig, azimuth[j], elevation[j], p);
  }

  /** One sample of the fold: the sum of the front terms plus the last term's value. */
  lemma SampleStep(terms: seq<Term>, w: Rule -> real, binding: map<string, real>, front: real, basis: real, y: real)
    requires |terms| > 0 && AllBound(terms, binding) && AllBound(terms[..|terms| - 1], binding)
    requires front == PointSum(terms[..|terms| - 1], w, binding)
    requires basis == w(terms[|terms| - 1].rule) && y == binding[terms[|terms| - 1].param] * basis
    ensures front + y == PointSum(terms, w, binding)
  {
  }

  /** The constructed model: the two selections and the derived, sorted unique parameter names. */
  datatype PointingModel = PointingModel(az: seq<Term>, el: seq<Term>, uniqueParams: seq<string>)
  {
    /** The model as construction leaves it: `uniqueParams` derived from the selections. */
    predicate Valid()
    {
      uniqueParams == UniqueParams(az, el)
    }

    /** The `nparams` property: how many distinct parameter names the two selections use. */
    function NParams(): (n: nat)
      ensures Valid() ==> n == |UsedNames(az, el)|
    {
      if Valid() then
        UsedNamesAreUnique(az, el);
        DistinctCount(uniqueParams);
        |uniqueParams|
      else |uniqueParams|
    }

    /**
     * The positional binding of a parameter vector to the unique parameter
     * names: value i goes to the i-th sorted name, and only names receive values.
     */
    function Binding(values: seq<real>): (b: map<string, real>)
      ensures forall p :: p in b ==> p in uniqueParams
      ensures Valid() ==>
        forall i :: 0 <= i < Min(|uniqueParams|, |values|) ==> uniqueParams[i] in b && b[uniqueParams[i]] == values[i]
    {
      if Valid() then
        (forall i | 0 <= i < Min(|uniqueParams|, |values|)
           ensures uniqueParams[i] in Bind(uniqueParams, values) && Bind(uniqueParams, values)[uniqueParams[i]] == values[i] {
           BindAt(uniqueParams, values, i);
         }
         Bind(uniqueParams, values))
      else Bind(uniqueParams, values)
    }

    /**
     * `model_components`: the azimuth correction sums the azimuth terms only,
     * the elevation correction the elevation terms only; evaluation succeeds
     * exactly when at least `nparams` values are supplied.
     */
    function ModelComponents(trig: Trig, azimuth: seq<real>, elevation: seq<real>, values: seq<real>)
      : (r: Result<(Correction, Correction), EvalError>)
      requires |azimuth| == |elevation|
      ensures Valid() ==> (r.Ok? <==> |values| >= NParams())
      ensures r.Ok? ==>
        && AllBound(az, Binding(values)) && AllBound(el, Binding(values))
        && IsSumOf(r.value.0, az, trig, azimuth, elevation, Binding(values))
        && IsSumOf(r.value.1, el, trig, azimuth, elevation, Binding(values))
      ensures r.Err? ==>
        exists k :: FirstUnbound(az + el, Binding(values), k) && r.error == MissingParameter((az + el)[k].param)
    {
      var binding := Binding(values);
      BoundIffEnoughValues(this, values);
      match SumTerms(az, trig, azimuth, elevation, binding)
      case Err(e) =>
        var k :| 0 <= k < |az| && az[k].param !in binding && e == MissingParameter(az[k].param)
          && forall i :: 0 <= i < k ==> az[i].param in binding;
        FirstUnboundInFront(az, el, binding, k);
        Err(e)
      case Ok(azCorrection) =>
        match SumTerms(el, trig, azimuth, elevation, binding)
        case Err(e) =>
          var k :| 0 <= k < |el| && el[k].param !in binding && e == MissingParameter(el[k].param)
            && forall i :: 0 <= i < k ==> el[i].param in binding;
          FirstUnboundInBack(az, el, binding, k);
          Err(e)
        case Ok(elCorrection) => Ok((azCorrection, elCorrection))
    }

    /** `__call__`: exactly the pair `model_components` returns. */
    function Call(trig: Trig, azimuth: seq<real>, elevation: seq<real>, values: seq<real>)
      : (r: Result<(Correction, Correction), EvalError>)
      requires |azimuth| == |elevation|
      ensures r == ModelComponents(trig, azimuth, elevation, values)
    {
      ModelComponents(trig, azimuth, elevation, values)
    }
  }

  /** The parameter names the selected terms of both axes use. */
  function UsedNames(az: seq<Term>, el: seq<Term>): set<string>
  {
    set t | t in az + el :: t.param
  }

  /** The sorted unique parameter list holds exactly the used names. */
  lemma UsedNamesAreUnique(az: seq<Term>, el: seq<Term>)
    ensures UsedNames(az, el) == set x | x in UniqueParams(az, el)
  {
    forall p ensures p in UsedNames(az, el) <==> p in UniqueParams(az, el) {
      if p in UsedNames(az, el) {
        var t :| t in az + el && t.param == p;
        var k :| 0 <= k < |az + el| && (az + el)[k] == t;
        if k < |az| { assert az[k] == t; assert Uses(az, p); } else { assert el[k - |az|] == t; assert Uses(el, p); }
      }
      if p in UniqueParams(az, el) {
        if Uses(az, p) {
          var k :| 0 <= k < |az| && az[k].param == p;
          assert (az + el)[k] == az[k];
        } else {
          var k :| 0 <= k < |el| && el[k].param == p;
          assert (az + el)[|az| + k] == el[k];
        }
      }
    }
  }

  /** Position `k` holds the first term whose parameter is not bound. */
  predicate FirstUnbound(terms: seq<Term>, binding: map<string, real>, k: int)
  {
    && 0 <= k < |terms| && terms[k].param !in binding
    && forall i :: 0 <= i < k ==> terms[i].param in binding
  }

  /** The first unbound azimuth term is the first unbound term of both selections. */
  lemma FirstUnboundInFront(az: seq<Term>, el: seq<Term>, binding: map<string, real>, k: nat)
    requires FirstUnbound(az, binding, k)
    ensures FirstUnbound(az + el, binding, k) && (az + el)[k] == az[k]
  {
  }

  /** With every azimuth term bound, the first unbound elevation term is the first unbound term of both. */
  lemma FirstUnboundInBack(az: seq<Term>, el: seq<Term>, binding: map<string, real>, k: nat)
    requires AllBound(az, binding) && FirstUnbound(el, binding, k)
    ensures FirstUnbound(az + el, binding, |az| + k) && (az + el)[|az| + k] == el[k]
  {
    forall i | 0 <= i < |az| + k ensures (az + el)[i].param in binding {
      if i >= |az| { assert (az + el)[i] == el[i - |az|]; }
    }
  }

  /** Binding to strictly sorted names is positional. */
  lemma BindAt(u: seq<string>, values: seq<real>, i: nat)
    requires StrictlySorted(u) && i < Min(|u|, |values|)
    ensures u[i] in Bind(u, values) && Bind(u, values)[u[i]] == values[i]
  {
    var n := Min(|u|, |values|);
    assert LastAt(u, n, i) by {
      forall j | i < j < n ensures u[j] != u[i] {
        assert Less(u[i], u[j]);
        LessIrreflexive(u[i]);
      }
    }
  }

  /**
   * Construction: the azimuth names resolved in the azimuth registry, then the
   * elevation names in the elevation registry, then the unique parameters.
   */
  function Build(azNames: seq<string>, elNames: seq<string>): (r: Result<PointingModel, ConfigError>)
    ensures r.Ok? <==>
      && (forall i :: 0 <= i < |azNames| ==> azNames[i] in Registry(Az))
      && (forall i :: 0 <= i < |elNames| ==> elNames[i] in Registry(El))
    ensures r.Ok? ==>
      && r.value.Valid()
      && |r.value.az| == |azNames| && |r.value.el| == |elNames|
      && (forall i :: 0 <= i < |azNames| ==> r.value.az[i] == Registry(Az)[azNames[i]])
      && (forall i :: 0 <= i < |elNames| ==> r.value.el[i] == Registry(El)[elNames[i]])
    ensures r.Err? && r.error.axis == Az ==>
      exists k :: 0 <= k < |azNames| && r.error.name == azNames[k] && azNames[k] !in Registry(Az)
        && forall i :: 0 <= i < k ==> azNames[i] in Registry(Az)
    ensures r.Err? && r.error.axis == El ==>
      && (forall i :: 0 <= i < |azNames| ==> azNames[i] in Registry(Az))
      && exists k :: 0 <= k < |elNames| && r.error.name == elNames[k] && elNames[k] !in Registry(El)
           && forall i :: 0 <= i < k ==> elNames[i] in Registry(El)
  {
    match Resolve(Az, azNames)
    case Err(e) => Err(e)
    case Ok(az) =>
      match Resolve(El, elNames)
      case Err(e) => Err(e)
      case Ok(el) => Ok(PointingModel(az, el, UniqueParams(az, el)))
  }

  const DefaultAzFunctions: seq<string> := ["function_A", "function_B", "function_C", "function_D", "function_E"]
  const DefaultElFunctions: seq<string> := ["function_a", "function_b", "function_c"]

  /** In a valid model, the first `n` unique names are bound, and nothing else. */
  lemma BindingKeys(m: PointingModel, values: seq<real>, p: string)
    requires m.Valid()
    ensures p in m.Binding(values) <==>
      exists i :: 0 <= i < Min(m.NParams(), |values|) && m.uniqueParams[i] == p
  {
  }

  /**
   * Every selected term's parameter is bound exactly when at least `nparams`
   * values are supplied: each unique name is used by some term, and with
   * fewer values the name at position |values| stays unbound.
   */
  lemma BoundIffEnoughValues(m: PointingModel, values: seq<real>)
    ensures m.Valid() ==>
      (AllBound(m.az, m.Binding(values)) && AllBound(m.el, m.Binding(values)) <==> |values| >= m.NParams())
  {
    if !m.Valid() {
    } else if |values| >= m.NParams() {
      forall k | 0 <= k < |m.az| ensures m.az[k].param in m.uniqueParams {
        assert Uses(m.az, m.az[k].param);
      }
      forall k | 0 <= k < |m.el| ensures m.el[k].param in m.uniqueParams {
        assert Uses(m.el, m.el[k].param);
      }
      UniqueNamesBound(m, values, m.az);
      UniqueNamesBound(m, values, m.el);
    } else {
      var p := m.uniqueParams[|values|];
      FirstMissingUnbound(m, values);
      assert p in m.uniqueParams;
      if Uses(m.az, p) {
        var k :| 0 <= k < |m.az| && m.az[k].param == p;
        assert !AllBound(m.az, m.Binding(values));
      } else {
        var k :| 0 <= k < |m.el| && m.el[k].param == p;
        assert !AllBound(m.el, m.Binding(values));
      }
    }
  }

  /** With at least `nparams` values, every unique name is bound. */
  lemma UniqueNamesBound(m: PointingModel, values: seq<real>, terms: seq<Term>)
    requires m.Valid() && |values| >= m.NParams()
    requires forall k :: 0 <= k < |terms| ==> terms[k].param in m.uniqueParams
    ensures AllBound(terms, m.Binding(values))
  {
    forall k | 0 <= k < |terms| ensures terms[k].param in m.Binding(values) {
      var i :| 0 <= i < m.NParams() && m.uniqueParams[i] == terms[k].param;
      BindingKeys(m, values, terms[k].param);
    }
  }

  /** With fewer than `nparams` values, the unique name at position |values| is left unbound. */
  lemma FirstMissingUnbound(m: PointingModel, values: seq<real>)
    requires m.Valid() && |values| < m.NParams()
    ensures m.uniqueParams[|values|] !in m.Binding(values)
  {
    var u := m.uniqueParams;
    var p := u[|values|];
    BindingKeys(m, values, p);
    forall i | 0 <= i < |values| ensures u[i] != p {
      LessIrreflexive(u[i]);
      assert Less(u[i], u[|values|]);
    }
  }
}
