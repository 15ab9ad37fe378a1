/**
 * Properties of the pointing model: the registry's parameter aliasing, the
 * axis-local name lookup, the shape of the unique parameter list, positional
 * binding, linearity in the parameters, and the concrete default and
 * two-term scenarios.
 */
module PointingProperties {
  import opened Lex
  import opened Pointing

  /** Elevation terms c and d share the parameter names of azimuth terms D and E. */
  lemma RegistryAliasing()
    ensures Registry(El)["function_c"].param == Registry(Az)["function_D"].param == "D"
    ensures Registry(El)["function_d"].param == Registry(Az)["function_E"].param == "E"
    ensures |Registry(Az)| == 5 && |Registry(El)| == 4
  {
    assert Registry(Az).Keys == {"function_A", "function_B", "function_C", "function_D", "function_E"};
    assert Registry(El).Keys == {"function_a", "function_b", "function_c", "function_d"};
  }

  /** A name is looked up only in its own axis's registry: an elevation name among the azimuth names fails, and vice versa. */
  lemma NameLookedUpInItsOwnAxis()
    ensures Build(["function_a"], []) == Err(UnknownFunction(Az, "function_a"))
    ensures Build(DefaultAzFunctions, ["function_A"]) == Err(UnknownFunction(El, "function_A"))
  {
    assert "function_a" !in Registry(Az);
    assert "function_A" !in Registry(El);
  }

  /**
   * The unique parameter list depends only on which names the selections
   * use: not on the order of the selected terms, their repetition, or on
   * which axis a name comes from.
   */
  lemma UniqueParamsIgnoreOrderAndRepetition(m1: PointingModel, m2: PointingModel)
    requires m1.Valid() && m2.Valid()
    requires forall p :: (Uses(m1.az, p) || Uses(m1.el, p)) <==> (Uses(m2.az, p) || Uses(m2.el, p))
    ensures m1.uniqueParams == m2.uniqueParams
    ensures m1.NParams() == m2.NParams()
  {
    SortedSetsEqual(m1.uniqueParams, m2.uniqueParams);
  }

  /** The azimuth registry, name by name. */
  lemma AzimuthEntries()
    ensures "function_A" in Registry(Az) && Registry(Az)["function_A"] == AzFunctionA
    ensures "function_B" in Registry(Az) && Registry(Az)["function_B"] == AzFunctionB
    ensures "function_C" in Registry(Az) && Registry(Az)["function_C"] == AzFunctionC
    ensures "function_D" in Registry(Az) && Registry(Az)["function_D"] == AzFunctionD
    ensures "function_E" in Registry(Az) && Registry(Az)["function_E"] == AzFunctionE
  {
  }

  /** The elevation registry, name by name. */
  lemma ElevationEntries()
    ensures "function_a" in Registry(El) && Registry(El)["function_a"] == ElFunctionA
    ensures "function_b" in Registry(El) && Registry(El)["function_b"] == ElFunctionB
    ensures "function_c" in Registry(El) && Registry(El)["function_c"] == ElFunctionC
    ensures "function_d" in Registry(El) && Registry(El)["function_d"] == ElFunctionD
  {
  }

  /** The default names resolve to azimuth terms A to E and elevation terms a to c, in that order. */
  lemma DefaultSelection()
    ensures Build(DefaultAzFunctions, DefaultElFunctions).Ok?
    ensures Build(DefaultAzFunctions, DefaultElFunctions).value.az
         == [AzFunctionA, AzFunctionB, AzFunctionC, AzFunctionD, AzFunctionE]
    ensures Build(DefaultAzFunctions, DefaultElFunctions).value.el == [ElFunctionA, ElFunctionB, ElFunctionC]
  {
    DefaultAzSelection();
    DefaultElSelection();
  }

  lemma DefaultAzSelection()
    ensures Resolve(Az, DefaultAzFunctions) == Ok([AzFunctionA, AzFunctionB, AzFunctionC, AzFunctionD, AzFunctionE])
  {
    AzimuthEntries();
    assert forall i :: 0 <= i < |DefaultAzFunctions| ==> DefaultAzFunctions[i] in Registry(Az);
    assert Resolve(Az, DefaultAzFunctions).value == [AzFunctionA, AzFunctionB, AzFunctionC, AzFunctionD, AzFunctionE];
  }

  lemma DefaultElSelection()
    ensures Resolve(El, DefaultElFunctions) == Ok([ElFunctionA, ElFunctionB, ElFunctionC])
  {
    ElevationEntries();
    assert forall i :: 0 <= i < |DefaultElFunctions| ==> DefaultElFunctions[i] in Registry(El);
    assert Resolve(El, DefaultElFunctions).value == [ElFunctionA, ElFunctionB, ElFunctionC];
  }

  /**
   * With azimuth terms A to E and elevation terms a to c the unique
   * parameters are A, B, C, D, E, a, b: upper case sorts before lower case,
   * and elevation term c adds no new name because it reuses D.
   */
  lemma DefaultUniqueParams(m: PointingModel)
    requires m.Valid()
    requires m.az == [AzFunctionA, AzFunctionB, AzFunctionC, AzFunctionD, AzFunctionE]
    requires m.el == [ElFunctionA, ElFunctionB, ElFunctionC]
    ensures m.uniqueParams == ["A", "B", "C", "D", "E", "a", "b"]
    ensures m.NParams() == 7
  {
    var expected := ["A", "B", "C", "D", "E", "a", "b"];
    DefaultNamesSorted();
    forall p ensures p in expected <==> p in m.uniqueParams {
      DefaultNamesUsed(m.az, m.el, p);
    }
    SortedSetsEqual(m.uniqueParams, expected);
  }

  /** Upper case sorts before lower case. */
  lemma DefaultNamesSorted()
    ensures StrictlySorted(["A", "B", "C", "D", "E", "a", "b"])
  {
    var s := ["A", "B", "C", "D", "E", "a", "b"];
    forall i, j | 0 <= i < j < |s| ensures Less(s[i], s[j]) {
      assert s[i][0] < s[j][0];
    }
  }

  /** The names the default selections use are exactly A, B, C, D, E, a and b. */
  lemma DefaultNamesUsed(az: seq<Term>, el: seq<Term>, p: string)
    requires az == [AzFunctionA, AzFunctionB, AzFunctionC, AzFunctionD, AzFunctionE]
    requires el == [ElFunctionA, ElFunctionB, ElFunctionC]
    ensures p in ["A", "B", "C", "D", "E", "a", "b"] <==> Uses(az, p) || Uses(el, p)
  {
    var expected := ["A", "B", "C", "D", "E", "a", "b"];
    if p in expected {
      var i :| 0 <= i < |expected| && expected[i] == p;
      if i < 5 { assert az[i].param == p; } else { assert el[i - 5].param == p; }
    }
    if Uses(az, p) {
      var i :| 0 <= i < |az| && az[i].param == p;
      assert p == expected[i];
    }
    if Uses(el, p) {
      var i :| 0 <= i < |el| && el[i].param == p;
      assert p == [expected[5], expected[6], expected[3]][i];
    }
  }

  /** The default model has the seven unique parameters A, B, C, D, E, a, b, so `nparams` is 7, not 8. */
  lemma DefaultModelParams()
    ensures Build(DefaultAzFunctions, DefaultElFunctions).Ok?
    ensures Build(DefaultAzFunctions, DefaultElFunctions).value.uniqueParams == ["A", "B", "C", "D", "E", "a", "b"]
    ensures Build(DefaultAzFunctions, DefaultElFunctions).value.NParams() == 7
  {
    DefaultSelection();
    DefaultUniqueParams(Build(DefaultAzFunctions, DefaultElFunctions).value);
  }

  /**
   * Positional binding: the i-th value is bound to the i-th sorted unique
   * name, and exactly the first min(nparams, |values|) names are bound, so
   * surplus values are ignored.
   */
  lemma PositionalBinding(m: PointingModel, values: seq<real>, i: nat)
    requires m.Valid() && i < Min(m.NParams(), |values|)
    ensures m.uniqueParams[i] in m.Binding(values)
    ensures m.Binding(values)[m.uniqueParams[i]] == values[i]
    ensures |m.Binding(values)| == Min(m.NParams(), |values|)
  {
    BindAt(m.uniqueParams, values, i);
    DistinctKeysCount(m.uniqueParams, Min(m.NParams(), |values|));
  }

  /** Values beyond `nparams` are dropped by the positional binding and change nothing. */
  lemma SurplusValuesIgnored(m: PointingModel, trig: Trig, azimuth: seq<real>, elevation: seq<real>, values: seq<real>)
    requires m.Valid() && |azimuth| == |elevation| && |values| >= m.NParams()
    ensures m.ModelComponents(trig, azimuth, elevation, values)
         == m.ModelComponents(trig, azimuth, elevation, values[..m.NParams()])
  {
    BindPrefix(m.uniqueParams, values);
  }

  /** `dict(zip(names, values))` reads no value beyond the last name. */
  lemma BindPrefix(names: seq<string>, values: seq<real>)
    requires |values| >= |names|
    ensures Bind(names, values) == Bind(names, values[..|names|])
  {
    if |names| > 0 {
      assert values[..|names|][..|names| - 1] == values[..|names| - 1];
    }
  }

  /**
   * Two selected terms that declare the same parameter name (azimuth D and
   * elevation c, or azimuth E and elevation d) are both evaluated with the
   * single value bound to that name: at every sample each contributes that
   * value times its own basis function.
   */
  lemma SharedCalibrationValue(m: PointingModel, values: seq<real>, t: Term, e: Term, trig: Trig, az: real, el: real)
    requires m.Valid() && |values| >= m.NParams()
    requires t in m.az && e in m.el && t.param == e.param
    ensures t.param in m.Binding(values) && e.param in m.Binding(values)
    ensures exists i :: (0 <= i < m.NParams() && m.uniqueParams[i] == t.param
                         && Apply(t.rule, trig, az, el, m.Binding(values)[t.param]) == Apply(t.rule, trig, az, el, values[i])
                         && Apply(e.rule, trig, az, el, m.Binding(values)[e.param]) == Apply(e.rule, trig, az, el, values[i]))
  {
    var k :| 0 <= k < |m.az| && m.az[k] == t;
    assert Uses(m.az, t.param);
    var i :| 0 <= i < |m.uniqueParams| && m.uniqueParams[i] == t.param;
    PositionalBinding(m, values, i);
  }

  /** In the default model, azimuth term D and elevation term c both take the fourth value. */
  lemma DefaultModelAliasesD(m: PointingModel, values: seq<real>)
    requires m.Valid()
    requires m.az == [AzFunctionA, AzFunctionB, AzFunctionC, AzFunctionD, AzFunctionE]
    requires m.el == [ElFunctionA, ElFunctionB, ElFunctionC]
    requires |values| >= 7
    ensures AzFunctionD in m.az && ElFunctionC in m.el
    ensures AzFunctionD.param in m.Binding(values) && m.Binding(values)[AzFunctionD.param] == values[3]
    ensures ElFunctionC.param in m.Binding(values) && m.Binding(values)[ElFunctionC.param] == values[3]
  {
    DefaultUniqueParams(m);
    assert m.az[3] == AzFunctionD && m.el[2] == ElFunctionC;
    PositionalBinding(m, values, 3);
  }

  function ScaleValues(c: real, values: seq<real>): (r: seq<real>)
    ensures |r| == |values| && forall i :: 0 <= i < |values| ==> r[i] == c * values[i]
  {
    seq(|values|, i requires 0 <= i < |values| => c * values[i])
  }

  function ScaleCorrection(c: real, x: Correction): Correction
  {
    match x
    case Scalar(v) => Scalar(c * v)
    case Samples(xs) => Samples(ScaleValues(c, xs))
  }

  /** Every registered rule is linear in its one parameter. */
  lemma ApplyLinear(rule: Rule, trig: Trig, az: real, el: real, c: real, p: real)
    ensures Apply(rule, trig, az, el, c * p) == c * Apply(rule, trig, az, el, p)
  {
    var s, k := trig.sin, trig.cos;
    match rule
    case Constant =>
    case CosEl => assert (c * p) * k(el) == c * (p * k(el));
    case SinEl => assert (c * p) * s(el) == c * (p * s(el));
    case NegSinAzSinEl => assert -(c * p) * s(az) * s(el) == c * (-p * s(az) * s(el));
    case NegCosAzSinEl => assert -(c * p) * k(az) * s(el) == c * (-p * k(az) * s(el));
    case NegCosAz => assert -(c * p) * k(az) == c * (-p * k(az));
    case SinAz => assert (c * p) * s(az) == c * (p * s(az));
  }

  /** Scaling every bound parameter by `c` scales the sum at one sample by `c`. */
  lemma {:induction false} PointSumLinear(terms: seq<Term>, w: Rule -> real,
                                          b1: map<string, real>, b2: map<string, real>, c: real)
    requires AllBound(terms, b1) && AllBound(terms, b2)
    requires forall k :: 0 <= k < |terms| ==> b2[terms[k].param] == c * b1[terms[k].param]
    ensures PointSum(terms, w, b2) == c * PointSum(terms, w, b1)
    decreases |terms|
  {
    if |terms| > 0 {
      var front, last := terms[..|terms| - 1], terms[|terms| - 1];
      assert forall k :: 0 <= k < |front| ==> front[k] == terms[k];
      PointSumLinear(front, w, b1, b2, c);
      PointSumSnoc(terms, w, b1);
      PointSumSnoc(terms, w, b2);
      AddScaled(c, PointSum(front, w, b1), b1[last.param], w(last.rule), PointSum(terms, w, b1),
                PointSum(front, w, b2), b2[last.param], PointSum(terms, w, b2));
    } else {
      assert PointSum(terms, w, b1) == 0.0 == PointSum(terms, w, b2);
      ZeroScaled(c, PointSum(terms, w, b1));
    }
  }

  /** Scaling zero gives zero. */
  lemma ZeroScaled(c: real, x: real)
    requires x == 0.0
    ensures 0.0 == c * x
  {
  }

  /** The sum over a non-empty selection is the sum over all but the last term plus the last term. */
  lemma PointSumSnoc(terms: seq<Term>, w: Rule -> real, b: map<string, real>)
    requires |terms| > 0 && AllBound(terms, b)
    ensures AllBound(terms[..|terms| - 1], b)
    ensures PointSum(terms, w, b)
         == PointSum(terms[..|terms| - 1], w, b) + b[terms[|terms| - 1].param] * w(terms[|terms| - 1].rule)
  {
  }

  /** If the partial sum and the last weight scale by `c`, so does the total. */
  lemma AddScaled(c: real, s1: real, v1: real, w: real, t1: real, s2: real, v2: real, t2: real)
    requires t1 == s1 + v1 * w && t2 == s2 + v2 * w
    requires s2 == c * s1 && v2 == c * v1
    ensures t2 == c * t1
  {
    assert v2 * w == c * (v1 * w);
  }

  /** Scaling every parameter by `c` scales both corrections by `c`. */
  lemma LinearInParameters(m: PointingModel, trig: Trig, azimuth: seq<real>, elevation: seq<real>,
                           values: seq<real>, c: real)
    requires m.Valid() && |azimuth| == |elevation| && |values| >= m.NParams()
    ensures var r := m.ModelComponents(trig, azimuth, elevation, values);
      var s := m.ModelComponents(trig, azimuth, elevation, ScaleValues(c, values));
      && r.Ok? && s.Ok?
      && s.value.0 == ScaleCorrection(c, r.value.0)
      && s.value.1 == ScaleCorrection(c, r.value.1)
  {
    var scaled := ScaleValues(c, values);
    var b1, b2 := m.Binding(values), m.Binding(scaled);
    var f := x => c * x;
    BindingMaps(m.uniqueParams, values, scaled, f);
    var r := m.ModelComponents(trig, azimuth, elevation, values);
    var s := m.ModelComponents(trig, azimuth, elevation, scaled);
    assert r.Ok? && s.Ok?;
    SumScales(r.value.0, s.value.0, m.az, trig, azimuth, elevation, b1, b2, c);
    SumScales(r.value.1, s.value.1, m.el, trig, azimuth, elevation, b1, b2, c);
  }

  /**
   * Binding a vector whose entries are `f` of another's to strictly sorted
   * names binds every name to `f` of its value.
   */
  lemma BindingMaps(u: seq<string>, values: seq<real>, mapped: seq<real>, f: real -> real)
    requires StrictlySorted(u) && |values| >= |u| && |mapped| == |values|
    requires forall i :: 0 <= i < |values| ==> mapped[i] == f(values[i])
    ensures forall p :: p in Bind(u, values) ==> p in Bind(u, mapped) && Bind(u, mapped)[p] == f(Bind(u, values)[p])
  {
    forall p | p in Bind(u, values)
      ensures p in Bind(u, mapped) && Bind(u, mapped)[p] == f(Bind(u, values)[p])
    {
      var i := BoundPosition(u, values, p);
      BindAt(u, values, i);
      BindAt(u, mapped, i);
    }
  }

  /** A bound name sits at some position of the names. */
  lemma BoundPosition(u: seq<string>, values: seq<real>, p: string) returns (i: nat)
    requires p in Bind(u, values)
    ensures i < Min(|u|, |values|) && u[i] == p
  {
    i :| 0 <= i < Min(|u|, |values|) && u[i] == p;
  }

  lemma SumScales(x: Correction, y: Correction, terms: seq<Term>, trig: Trig, azimuth: seq<real>, elevation: seq<real>,
                  b1: map<string, real>, b2: map<string, real>, c: real)
    requires |azimuth| == |elevation| && AllBound(terms, b1) && AllBound(terms, b2)
    requires forall p :: p in b1 ==> p in b2 && b2[p] == c * b1[p]
    requires IsSumOf(x, terms, trig, azimuth, elevation, b1) && IsSumOf(y, terms, trig, azimuth, elevation, b2)
    ensures y == ScaleCorrection(c, x)
  {
    if |terms| > 0 {
      var scaled := ScaleValues(c, x.xs);
      forall j | 0 <= j < |azimuth| ensures y.xs[j] == scaled[j] {
        var w := Weights(trig, azimuth[j], elevation[j]);
        PointSumLinear(terms, w, b1, b2, c);
        SameScaled(c, x.xs[j], PointSum(terms, w, b1), y.xs[j], PointSum(terms, w, b2));
      }
      assert y.xs == scaled;
    } else {
      ZeroScaled(c, x.x);
    }
  }

  /** Scaling respects equal values: if `s2 == c * s1`, then the same holds for equal copies. */
  lemma SameScaled(c: real, x: real, s1: real, y: real, s2: real)
    requires x == s1 && y == s2 && s2 == c * s1
    ensures y == c * x
  {
  }

  /** Every entry of the correction is zero. */
  predicate IsZero(x: Correction)
  {
    match x
    case Scalar(v) => v == 0.0
    case Samples(xs) => forall j :: 0 <= j < |xs| ==> xs[j] == 0.0
  }

  /** An all-zero parameter vector yields zero azimuth and zero elevation corrections, for any az/el. */
  lemma ZeroParametersZeroCorrection(m: PointingModel, trig: Trig, azimuth: seq<real>, elevation: seq<real>,
                                     values: seq<real>)
    requires m.Valid() && |azimuth| == |elevation| && |values| >= m.NParams()
    requires forall i :: 0 <= i < |values| ==> values[i] == 0.0
    ensures var r := m.ModelComponents(trig, azimuth, elevation, values);
      r.Ok? && IsZero(r.value.0) && IsZero(r.value.1)
  {
    LinearInParameters(m, trig, azimuth, elevation, values, 0.0);
    assert ScaleValues(0.0, values) == values;
  }

  /** Azimuth names A, B and elevation name a resolve to those three terms. */
  lemma TwoTermSelection()
    ensures Build(["function_A", "function_B"], ["function_a"]).Ok?
    ensures Build(["function_A", "function_B"], ["function_a"]).value.az == [AzFunctionA, AzFunctionB]
    ensures Build(["function_A", "function_B"], ["function_a"]).value.el == [ElFunctionA]
  {
    AzimuthEntries();
    ElevationEntries();
    var azNames, elNames := ["function_A", "function_B"], ["function_a"];
    var r := Build(azNames, elNames);
    assert forall i :: 0 <= i < |azNames| ==> azNames[i] in Registry(Az);
    assert forall i :: 0 <= i < |elNames| ==> elNames[i] in Registry(El);
    assert r.value.az == [AzFunctionA, AzFunctionB];
  }

  /** Azimuth terms A, B and elevation term a need the unique parameters A, B, a. */
  lemma TwoTermUniqueParams(m: PointingModel)
    requires m.Valid() && m.az == [AzFunctionA, AzFunctionB] && m.el == [ElFunctionA]
    ensures m.uniqueParams == ["A", "B", "a"]
  {
    var expected := ["A", "B", "a"];
    forall p ensures p in expected <==> Uses(m.az, p) || Uses(m.el, p) {
      if p == "A" { assert m.az[0].param == p; }
      if p == "B" { assert m.az[1].param == p; }
      if p == "a" { assert m.el[0].param == p; }
    }
    SortedSetsEqual(m.uniqueParams, expected);
  }

  /** With values 1, 2, 3 bound to A, B, a and az = el = 0: the azimuth sum is 1 + 2 cos(0) = 3, the elevation sum 3. */
  lemma TwoTermSums(b: map<string, real>, trig: Trig)
    requires trig.cos(0.0) == 1.0
    requires "A" in b && "B" in b && "a" in b && b["A"] == 1.0 && b["B"] == 2.0 && b["a"] == 3.0
    ensures AllBound([AzFunctionA, AzFunctionB], b) && AllBound([ElFunctionA], b)
    ensures PointSum([AzFunctionA, AzFunctionB], Weights(trig, 0.0, 0.0), b) == 3.0
    ensures PointSum([ElFunctionA], Weights(trig, 0.0, 0.0), b) == 3.0
  {
    var az := [AzFunctionA, AzFunctionB];
    var w := Weights(trig, 0.0, 0.0);
    assert az[..1] == [AzFunctionA] && az[..1][..0] == [];
    assert w(Constant) == 1.0 && w(CosEl) == 1.0;
    assert PointSum(az[..1], w, b) == 1.0;
    assert [ElFunctionA][..0] == [];
  }

  /**
   * Azimuth terms A and B with elevation term a, evaluated at az = el = 0
   * with values 1, 2, 3: both corrections are the one-sample array [3].
   */
  lemma TwoTermEvaluation(m: PointingModel, trig: Trig)
    requires m.Valid() && m.az == [AzFunctionA, AzFunctionB] && m.el == [ElFunctionA]
    requires trig.cos(0.0) == 1.0
    ensures m.Call(trig, [0.0], [0.0], [1.0, 2.0, 3.0]) == Ok((Samples([3.0]), Samples([3.0])))
  {
    TwoTermUniqueParams(m);
    var values := [1.0, 2.0, 3.0];
    PositionalBinding(m, values, 0);
    PositionalBinding(m, values, 1);
    PositionalBinding(m, values, 2);
    var b := m.Binding(values);
    TwoTermSums(b, trig);
    var r := m.ModelComponents(trig, [0.0], [0.0], values);
    assert r.Ok?;
    OneSampleSum(r.value.0, m.az, trig, b, 3.0);
    OneSampleSum(r.value.1, m.el, trig, b, 3.0);
  }

  /** A non-empty selection summed over the single sample az = el = 0 is the one-entry array of its point sum. */
  lemma OneSampleSum(c: Correction, terms: seq<Term>, trig: Trig, b: map<string, real>, v: real)
    requires |terms| > 0 && AllBound(terms, b)
    requires IsSumOf(c, terms, trig, [0.0], [0.0], b)
    requires PointSum(terms, Weights(trig, 0.0, 0.0), b) == v
    ensures c == Samples([v])
  {
    assert c.xs[0] == v;
    assert c.xs == [v];
  }

  /** The two-term scenario from construction to the returned pair. */
  lemma TwoTermScenario(trig: Trig)
    requires trig.cos(0.0) == 1.0
    ensures Build(["function_A", "function_B"], ["function_a"]).Ok?
    ensures Build(["function_A", "function_B"], ["function_a"]).value.Call(trig, [0.0], [0.0], [1.0, 2.0, 3.0])
         == Ok((Samples([3.0]), Samples([3.0])))
  {
    TwoTermSelection();
    TwoTermEvaluation(Build(["function_A", "function_B"], ["function_a"]).value, trig);
  }
}
