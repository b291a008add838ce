/**
 * What evaluation and the `+` combinator promise, stated against reference
 * definitions that do not evaluate step by step: the left fold of the
 * children's values, the first failing child, and the first divisor a
 * quotient refuses.
 */
module TermLaws {
  import opened Wrappers
  import opened Terms
  import Variables

  // ---------------------------------------------------------------------------
  // Reference definitions

  /** Every child evaluates successfully. */
  predicate AllOk(ts: seq<Term>, values: Option<Bindings>, lib: MathLib)
    requires AllWellFormed(ts)
  {
    forall i :: 0 <= i < |ts| ==> Eval(ts[i], values, lib).Ok?
  }

  /** The values of children that all evaluate successfully, in order. */
  function ValuesOf(ts: seq<Term>, values: Option<Bindings>, lib: MathLib): (xs: seq<real>)
    requires AllWellFormed(ts) && AllOk(ts, values, lib)
    ensures |xs| == |ts|
    ensures forall i :: 0 <= i < |ts| ==> Eval(ts[i], values, lib) == Ok(xs[i])
  {
    if ts == [] then [] else [Eval(ts[0], values, lib).value] + ValuesOf(ts[1..], values, lib)
  }

  /** The least index of a failing child. */
  function FirstFailure(ts: seq<Term>, values: Option<Bindings>, lib: MathLib): (k: nat)
    requires AllWellFormed(ts) && !AllOk(ts, values, lib)
    ensures k < |ts| && Eval(ts[k], values, lib).Err?
    ensures forall j :: 0 <= j < k ==> Eval(ts[j], values, lib).Ok?
  {
    if Eval(ts[0], values, lib).Err? then 0
    else
      assert !AllOk(ts[1..], values, lib) by {
        var i :| 0 <= i < |ts| && Eval(ts[i], values, lib).Err?;
        assert ts[1..][i - 1] == ts[i];
      }
      1 + FirstFailure(ts[1..], values, lib)
  }

  /** `((acc op xs[0]) op xs[1]) ... op xs[n-1]`, associating to the left. */
  function LeftFold(op: Arith, acc: real, xs: seq<real>): real {
    if xs == [] then acc else Apply(op, LeftFold(op, acc, xs[..|xs| - 1]), xs[|xs| - 1])
  }

  /** `((acc / xs[0]) / xs[1]) ... / xs[n-1]` for nonzero divisors. */
  function LeftQuotient(acc: real, xs: seq<real>): real
    requires forall i :: 0 <= i < |xs| ==> xs[i] != 0.0
  {
    if xs == [] then acc else LeftQuotient(acc, xs[..|xs| - 1]) / xs[|xs| - 1]
  }

  /** A term a quotient may divide by: it evaluates, to a value not refused as zero. */
  predicate Admissible(t: Term, values: Option<Bindings>, lib: MathLib)
    requires WellFormed(t)
  {
    Eval(t, values, lib).Ok? && Abs(Eval(t, values, lib).value) >= Threshold
  }

  predicate AllAdmissible(ts: seq<Term>, values: Option<Bindings>, lib: MathLib)
    requires AllWellFormed(ts)
  {
    forall i :: 0 <= i < |ts| ==> Admissible(ts[i], values, lib)
  }

  /** The least index of a child a quotient cannot divide by. */
  function FirstInadmissible(ts: seq<Term>, values: Option<Bindings>, lib: MathLib): (k: nat)
    requires AllWellFormed(ts) && !AllAdmissible(ts, values, lib)
    ensures k < |ts| && !Admissible(ts[k], values, lib)
    ensures forall j :: 0 <= j < k ==> Admissible(ts[j], values, lib)
  {
    if !Admissible(ts[0], values, lib) then 0
    else
      assert !AllAdmissible(ts[1..], values, lib) by {
        var i :| 0 <= i < |ts| && !Admissible(ts[i], values, lib);
        assert ts[1..][i - 1] == ts[i];
      }
      1 + FirstInadmissible(ts[1..], values, lib)
  }

  /** Why a quotient stops at an inadmissible divisor: its own error, or a refused division. */
  function DivisionFailure(t: Term, values: Option<Bindings>, lib: MathLib): Result<real, string>
    requires WellFormed(t)
  {
    if Eval(t, values, lib).Err? then Eval(t, values, lib) else Err(DivisionByZero)
  }

  /** The values of admissible divisors are nonzero. */
  function DivisorValues(ts: seq<Term>, values: Option<Bindings>, lib: MathLib): (xs: seq<real>)
    requires AllWellFormed(ts) && AllAdmissible(ts, values, lib)
    ensures |xs| == |ts|
    ensures forall i :: 0 <= i < |ts| ==> Eval(ts[i], values, lib) == Ok(xs[i]) && xs[i] != 0.0
  {
    ValuesOf(ts, values, lib)
  }

  /** The term holds no `Variable` node. */
  predicate VariableFree(t: Term) {
    match t
    case Variable(_) => false
    case Constant(_) => true
    case Sum(ts) => forall i :: 0 <= i < |ts| ==> VariableFree(ts[i])
    case Difference(ts) => forall i :: 0 <= i < |ts| ==> VariableFree(ts[i])
    case Product(ts) => forall i :: 0 <= i < |ts| ==> VariableFree(ts[i])
    case Quotient(ts) => forall i :: 0 <= i < |ts| ==> VariableFree(ts[i])
    case Sine(u) => VariableFree(u)
    case Cosine(u) => VariableFree(u)
    case Tangent(u) => VariableFree(u)
    case ArcSine(u) => VariableFree(u)
    case ArcCosine(u) => VariableFree(u)
    case ArcTangent(u) => VariableFree(u)
  }

  /** The direct subterms of `t`, in order. */
  function Children(t: Term): (cs: seq<Term>)
    ensures forall i :: 0 <= i < |cs| ==> cs[i] < t
  {
    match t
    case Variable(_) => []
    case Constant(_) => []
    case Sum(ts) => ts
    case Difference(ts) => ts
    case Product(ts) => ts
    case Quotient(ts) => ts
    case Sine(u) => [u]
    case Cosine(u) => [u]
    case Tangent(u) => [u]
    case ArcSine(u) => [u]
    case ArcCosine(u) => [u]
    case ArcTangent(u) => [u]
  }

  /** A node whose first child evaluation would read, though it has none. */
  predicate EmptyRead(t: Term) {
    (t.Difference? || t.Quotient?) && |t.terms| == 0
  }

  /** `u` is `t` itself or a subterm of `t` at any depth. */
  predicate Occurs(u: Term, t: Term)
    decreases t
  {
    u == t || exists i :: 0 <= i < |Children(t)| && Occurs(u, Children(t)[i])
  }

  // ---------------------------------------------------------------------------
  // Well-formedness

  /** Well-formedness is a property of the node and of each of its children. */
  lemma WellFormedLocal(t: Term)
    ensures WellFormed(t) <==>
              !EmptyRead(t) && forall i :: 0 <= i < |Children(t)| ==> WellFormed(Children(t)[i])
  {
    var cs := Children(t);
    if t.Sum? || t.Difference? || t.Product? || t.Quotient? {
      assert cs == t.terms;
    } else if t.Variable? || t.Constant? {
      assert cs == [];
    } else {
      assert |cs| == 1 && cs[0] == t.arg;
      assert (forall i :: 0 <= i < |cs| ==> WellFormed(cs[i])) <==> WellFormed(cs[0]);
    }
  }

  /**
   * A term is well-formed exactly when no `Difference` or `Quotient` node
   * anywhere in it is empty, whether or not evaluation would reach that node.
   */
  lemma {:induction false} WellFormedIff(t: Term)
    ensures WellFormed(t) <==> forall u :: Occurs(u, t) ==> !EmptyRead(u)
    decreases t
  {
    WellFormedLocal(t);
    var cs := Children(t);
    forall i | 0 <= i < |cs| ensures WellFormed(cs[i]) <==> forall u :: Occurs(u, cs[i]) ==> !EmptyRead(u) {
      WellFormedIff(cs[i]);
    }
    if WellFormed(t) {
      forall u | Occurs(u, t) ensures !EmptyRead(u) {
        if u != t {
          var i :| 0 <= i < |cs| && Occurs(u, cs[i]);
        }
      }
    } else if !EmptyRead(t) {
      var i :| 0 <= i < |cs| && !WellFormed(cs[i]);
      var u :| Occurs(u, cs[i]) && EmptyRead(u);
      assert Occurs(u, t);
    } else {
      assert Occurs(t, t);
    }
  }

  // ---------------------------------------------------------------------------
  // Leaves and wrappers

  /** A constant evaluates to itself, with or without a table. */
  lemma ConstantEval(v: real, values: Option<Bindings>, lib: MathLib)
    ensures Eval(Constant(v), values, lib) == Ok(v)
  {
  }

  /** A variable is looked up; each way of not finding it has its own error. */
  lemma VariableEval(x: Variables.Variable, values: Option<Bindings>, lib: MathLib)
    ensures values.None? ==> Eval(Variable(x), values, lib) == Err(MissingBindings(x.symbol))
    ensures values.Some? && x.symbol !in values.value ==>
              Eval(Variable(x), values, lib) == Err(Unbound(x.symbol))
    ensures values.Some? && x.symbol in values.value ==>
              Eval(Variable(x), values, lib) == Ok(values.value[x.symbol])
  {
  }

  /** Each wrapper applies its function to the child's value and passes the child's error on. */
  lemma TrigEval(u: Term, values: Option<Bindings>, lib: MathLib)
    requires WellFormed(u)
    ensures Eval(Sine(u), values, lib) == MapOk(Eval(u, values, lib), lib.sin)
    ensures Eval(Cosine(u), values, lib) == MapOk(Eval(u, values, lib), lib.cos)
    ensures Eval(Tangent(u), values, lib) == MapOk(Eval(u, values, lib), lib.tan)
    ensures Eval(ArcSine(u), values, lib) == MapOk(Eval(u, values, lib), lib.asin)
    ensures Eval(ArcCosine(u), values, lib) == MapOk(Eval(u, values, lib), lib.acos)
    ensures Eval(ArcTangent(u), values, lib) == MapOk(Eval(u, values, lib), lib.atan)
  {
  }

  // ---------------------------------------------------------------------------
  // Sum, Difference, Product

  /** Folding from a first value is folding the rest from `acc op x`. */
  lemma {:induction false} LeftFoldCons(op: Arith, acc: real, x: real, xs: seq<real>)
    ensures LeftFold(op, acc, [x] + xs) == LeftFold(op, Apply(op, acc, x), xs)
    decreases |xs|
  {
    if xs != [] {
      var ys := [x] + xs;
      assert ys[..|ys| - 1] == [x] + xs[..|xs| - 1];
      LeftFoldCons(op, acc, x, xs[..|xs| - 1]);
    }
  }

  /** Removing a successful first child from the list of children. */
  lemma Uncons(ts: seq<Term>, values: Option<Bindings>, lib: MathLib)
    requires |ts| > 0 && AllWellFormed(ts) && Eval(ts[0], values, lib).Ok?
    ensures AllWellFormed(ts[1..])
    ensures AllOk(ts, values, lib) <==> AllOk(ts[1..], values, lib)
    ensures AllOk(ts, values, lib) ==>
              ValuesOf(ts, values, lib) == [Eval(ts[0], values, lib).value] + ValuesOf(ts[1..], values, lib)
    ensures !AllOk(ts, values, lib) ==>
              ts[FirstFailure(ts, values, lib)] == ts[1..][FirstFailure(ts[1..], values, lib)]
  {
    if AllOk(ts[1..], values, lib) {
      forall i | 0 <= i < |ts| ensures Eval(ts[i], values, lib).Ok? {
        if i > 0 { assert ts[i] == ts[1..][i - 1]; }
      }
    }
  }

  /**
   * The fold of `Sum`, `Difference` and `Product`: the left fold of all the
   * children's values when every child succeeds, and otherwise exactly the
   * error of the lowest-index failing child.
   */
  lemma {:induction false} AccumulateSpec(op: Arith, ts: seq<Term>, acc: real, values: Option<Bindings>, lib: MathLib)
    requires AllWellFormed(ts)
    ensures Accumulate(op, ts, acc, values, lib) ==
              if AllOk(ts, values, lib) then Ok(LeftFold(op, acc, ValuesOf(ts, values, lib)))
              else Eval(ts[FirstFailure(ts, values, lib)], values, lib)
    decreases ts
  {
    if ts != [] && Eval(ts[0], values, lib).Ok? {
      var v := Eval(ts[0], values, lib).value;
      Uncons(ts, values, lib);
      AccumulateSpec(op, ts[1..], Apply(op, acc, v), values, lib);
      if AllOk(ts, values, lib) {
        LeftFoldCons(op, acc, v, ValuesOf(ts[1..], values, lib));
      }
    }
  }

  /** A sum is `0 + c0 + c1 + ... + cn`, or the first child error. */
  lemma SumEval(ts: seq<Term>, values: Option<Bindings>, lib: MathLib)
    requires AllWellFormed(ts)
    ensures Eval(Sum(ts), values, lib) ==
              if AllOk(ts, values, lib) then Ok(LeftFold(Plus, 0.0, ValuesOf(ts, values, lib)))
              else Eval(ts[FirstFailure(ts, values, lib)], values, lib)
  {
    AccumulateSpec(Plus, ts, 0.0, values, lib);
  }

  /** A product is `1 * c0 * c1 * ... * cn`, or the first child error. */
  lemma ProductEval(ts: seq<Term>, values: Option<Bindings>, lib: MathLib)
    requires AllWellFormed(ts)
    ensures Eval(Product(ts), values, lib) ==
              if AllOk(ts, values, lib) then Ok(LeftFold(Times, 1.0, ValuesOf(ts, values, lib)))
              else Eval(ts[FirstFailure(ts, values, lib)], values, lib)
  {
    AccumulateSpec(Times, ts, 1.0, values, lib);
  }

  /** A difference is `c0 - c1 - ... - cn`, or the first child error (the first child included). */
  lemma DifferenceEval(ts: seq<Term>, values: Option<Bindings>, lib: MathLib)
    requires |ts| > 0 && AllWellFormed(ts)
    ensures Eval(Difference(ts), values, lib) ==
              if AllOk(ts, values, lib)
              then Ok(LeftFold(Minus, ValuesOf(ts, values, lib)[0], ValuesOf(ts, values, lib)[1..]))
              else Eval(ts[FirstFailure(ts, values, lib)], values, lib)
  {
    if Eval(ts[0], values, lib).Ok? {
      Uncons(ts, values, lib);
      AccumulateSpec(Minus, ts[1..], Eval(ts[0], values, lib).value, values, lib);
    }
  }

  // ---------------------------------------------------------------------------
  // Quotient

  /** Removing an admissible first divisor from the list of divisors. */
  lemma UnconsDivisor(ts: seq<Term>, values: Option<Bindings>, lib: MathLib)
    requires |ts| > 0 && AllWellFormed(ts) && Admissible(ts[0], values, lib)
    ensures AllWellFormed(ts[1..])
    ensures AllAdmissible(ts, values, lib) <==> AllAdmissible(ts[1..], values, lib)
    ensures AllAdmissible(ts, values, lib) ==>
              DivisorValues(ts, values, lib) == [Eval(ts[0], values, lib).value] + DivisorValues(ts[1..], values, lib)
    ensures !AllAdmissible(ts, values, lib) ==>
              ts[FirstInadmissible(ts, values, lib)] == ts[1..][FirstInadmissible(ts[1..], values, lib)]
  {
    if AllAdmissible(ts[1..], values, lib) {
      forall i | 0 <= i < |ts| ensures Admissible(ts[i], values, lib) {
        if i > 0 { assert ts[i] == ts[1..][i - 1]; }
      }
      assert AllOk(ts, values, lib);
      Uncons(ts, values, lib);
    }
  }

  lemma {:induction false} LeftQuotientCons(acc: real, x: real, xs: seq<real>)
    requires x != 0.0 && forall i :: 0 <= i < |xs| ==> xs[i] != 0.0
    ensures LeftQuotient(acc, [x] + xs) == LeftQuotient(acc / x, xs)
    decreases |xs|
  {
    if xs != [] {
      var ys := [x] + xs;
      assert ys[..|ys| - 1] == [x] + xs[..|xs| - 1];
      LeftQuotientCons(acc, x, xs[..|xs| - 1]);
    }
  }

  /**
   * The quotient loop divides by every child in order; it yields the left
   * quotient when every divisor is admissible, and otherwise stops at the
   * first inadmissible one, with that child's error or a refused division.
   */
  lemma {:induction false} DivideFromSpec(ts: seq<Term>, acc: real, values: Option<Bindings>, lib: MathLib)
    requires AllWellFormed(ts)
    ensures DivideFrom(ts, acc, values, lib) ==
              if AllAdmissible(ts, values, lib) then Ok(LeftQuotient(acc, DivisorValues(ts, values, lib)))
              else DivisionFailure(ts[FirstInadmissible(ts, values, lib)], values, lib)
    decreases ts
  {
    if ts != [] && Admissible(ts[0], values, lib) {
      var d := Eval(ts[0], values, lib).value;
      UnconsDivisor(ts, values, lib);
      DivideFromSpec(ts[1..], acc / d, values, lib);
      if AllAdmissible(ts, values, lib) {
        LeftQuotientCons(acc, d, DivisorValues(ts[1..], values, lib));
      }
    }
  }

  /**
   * A quotient evaluates its first child, then divides that value by every
   * child, the first one included: `c0 / c0 / c1 / ... / cn`. It fails with
   * the first child's error, or at the first divisor that fails or is refused.
   */
  lemma QuotientEval(ts: seq<Term>, values: Option<Bindings>, lib: MathLib)
    requires |ts| > 0 && AllWellFormed(ts)
    ensures Eval(Quotient(ts), values, lib) ==
              if Eval(ts[0], values, lib).Err? then Eval(ts[0], values, lib)
              else if AllAdmissible(ts, values, lib)
              then Ok(LeftQuotient(Eval(ts[0], values, lib).value, DivisorValues(ts, values, lib)))
              else DivisionFailure(ts[FirstInadmissible(ts, values, lib)], values, lib)
  {
    if Eval(ts[0], values, lib).Ok? {
      DivideFromSpec(ts, Eval(ts[0], values, lib).value, values, lib);
    }
  }

  /** A one-child quotient of a value not refused as zero is 1. */
  lemma QuotientOfOne(c: Term, values: Option<Bindings>, lib: MathLib)
    requires WellFormed(c) && Admissible(c, values, lib)
    ensures Eval(Quotient([c]), values, lib) == Ok(1.0)
  {
    assert AllAdmissible([c], values, lib);
    QuotientEval([c], values, lib);
    var v := Eval(c, values, lib).value;
    assert DivisorValues([c], values, lib) == [v];
    assert [v][..0] == [];
    assert v != 0.0;
    assert LeftQuotient(v, [v]) == v / v == 1.0;
  }

  /**
   * A divisor below the threshold, reached with every earlier child
   * admissible, makes the quotient fail with the division error; the first
   * child counts as a divisor.
   */
  lemma QuotientRefusesZero(ts: seq<Term>, k: nat, values: Option<Bindings>, lib: MathLib)
    requires k < |ts| && AllWellFormed(ts)
    requires forall j :: 0 <= j < k ==> Admissible(ts[j], values, lib)
    requires Eval(ts[k], values, lib).Ok? && Abs(Eval(ts[k], values, lib).value) < Threshold
    ensures Eval(Quotient(ts), values, lib) == Err(DivisionByZero)
  {
    QuotientEval(ts, values, lib);
    if Eval(ts[0], values, lib).Ok? {
      var f := FirstInadmissible(ts, values, lib);
      assert !(f < k) && !(k < f);
    }
  }

  // ---------------------------------------------------------------------------
  // Evaluation with and without a table

  /** Without variables the table is never consulted: `evaluate` agrees with `reduce`. */
  lemma {:induction false} TableIrrelevant(t: Term, m: Bindings, lib: MathLib)
    requires WellFormed(t) && VariableFree(t)
    ensures Eval(t, Some(m), lib) == Eval(t, None, lib)
    decreases t
  {
    match t
    case Constant(_) =>
    case Sum(ts) => AccumulateTableIrrelevant(Plus, ts, 0.0, m, lib);
    case Product(ts) => AccumulateTableIrrelevant(Times, ts, 1.0, m, lib);
    case Difference(ts) =>
      TableIrrelevant(ts[0], m, lib);
      if Eval(ts[0], None, lib).Ok? {
        assert forall i :: 0 <= i < |ts[1..]| ==> ts[1..][i] == ts[i + 1];
        AccumulateTableIrrelevant(Minus, ts[1..], Eval(ts[0], None, lib).value, m, lib);
      }
    case Quotient(ts) =>
      TableIrrelevant(ts[0], m, lib);
      if Eval(ts[0], None, lib).Ok? {
        DivideFromTableIrrelevant(ts, Eval(ts[0], None, lib).value, m, lib);
      }
    case Sine(u) => TableIrrelevant(u, m, lib);
    case Cosine(u) => TableIrrelevant(u, m, lib);
    case Tangent(u) => TableIrrelevant(u, m, lib);
    case ArcSine(u) => TableIrrelevant(u, m, lib);
    case ArcCosine(u) => TableIrrelevant(u, m, lib);
    case ArcTangent(u) => TableIrrelevant(u, m, lib);
  }

  lemma {:induction false} AccumulateTableIrrelevant(op: Arith, ts: seq<Term>, acc: real, m: Bindings, lib: MathLib)
    requires AllWellFormed(ts) && forall i :: 0 <= i < |ts| ==> VariableFree(ts[i])
    ensures Accumulate(op, ts, acc, Some(m), lib) == Accumulate(op, ts, acc, None, lib)
    decreases ts
  {
    if ts != [] {
      TableIrrelevant(ts[0], m, lib);
      if Eval(ts[0], None, lib).Ok? {
        AccumulateTableIrrelevant(op, ts[1..], Apply(op, acc, Eval(ts[0], None, lib).value), m, lib);
      }
    }
  }

  lemma {:induction false} DivideFromTableIrrelevant(ts: seq<Term>, acc: real, m: Bindings, lib: MathLib)
    requires AllWellFormed(ts) && forall i :: 0 <= i < |ts| ==> VariableFree(ts[i])
    ensures DivideFrom(ts, acc, Some(m), lib) == DivideFrom(ts, acc, None, lib)
    decreases ts
  {
    if ts != [] {
      TableIrrelevant(ts[0], m, lib);
      var d := Eval(ts[0], None, lib);
      if d.Ok? && Abs(d.value) >= Threshold {
        DivideFromTableIrrelevant(ts[1..], acc / d.value, m, lib);
      }
    }
  }

  /** `reduce` fails on any term that holds a variable. */
  lemma {:induction false} ReduceFailsOnVariable(t: Term, lib: MathLib)
    requires WellFormed(t) && !VariableFree(t)
    ensures Eval(t, None, lib).Err?
    decreases t
  {
    match t
    case Variable(_) =>
    case Sum(ts) => AccumulateFailsOnVariable(Plus, ts, 0.0, lib);
    case Product(ts) => AccumulateFailsOnVariable(Times, ts, 1.0, lib);
    case Difference(ts) =>
      if Eval(ts[0], None, lib).Ok? {
        var i :| 0 <= i < |ts| && !VariableFree(ts[i]);
        if i == 0 {
          ReduceFailsOnVariable(ts[0], lib);
        } else {
          assert ts[1..][i - 1] == ts[i];
          AccumulateFailsOnVariable(Minus, ts[1..], Eval(ts[0], None, lib).value, lib);
        }
      }
    case Quotient(ts) =>
      if Eval(ts[0], None, lib).Ok? {
        DivideFromFailsOnVariable(ts, Eval(ts[0], None, lib).value, lib);
      }
    case Sine(u) => ReduceFailsOnVariable(u, lib);
    case Cosine(u) => ReduceFailsOnVariable(u, lib);
    case Tangent(u) => ReduceFailsOnVariable(u, lib);
    case ArcSine(u) => ReduceFailsOnVariable(u, lib);
    case ArcCosine(u) => ReduceFailsOnVariable(u, lib);
    case ArcTangent(u) => ReduceFailsOnVariable(u, lib);
  }

  lemma {:induction false} AccumulateFailsOnVariable(op: Arith, ts: seq<Term>, acc: real, lib: MathLib)
    requires AllWellFormed(ts) && exists i :: 0 <= i < |ts| && !VariableFree(ts[i])
    ensures Accumulate(op, ts, acc, None, lib).Err?
    decreases ts
  {
    var i :| 0 <= i < |ts| && !VariableFree(ts[i]);
    if Eval(ts[0], None, lib).Ok? {
      if i == 0 {
        ReduceFailsOnVariable(ts[0], lib);
      } else {
        assert ts[1..][i - 1] == ts[i];
        AccumulateFailsOnVariable(op, ts[1..], Apply(op, acc, Eval(ts[0], None, lib).value), lib);
      }
    }
  }

  lemma {:induction false} DivideFromFailsOnVariable(ts: seq<Term>, acc: real, lib: MathLib)
    requires AllWellFormed(ts) && exists i :: 0 <= i < |ts| && !VariableFree(ts[i])
    ensures DivideFrom(ts, acc, None, lib).Err?
    decreases ts
  {
    var i :| 0 <= i < |ts| && !VariableFree(ts[i]);
    var d := Eval(ts[0], None, lib);
    if d.Ok? && Abs(d.value) >= Threshold {
      if i == 0 {
        ReduceFailsOnVariable(ts[0], lib);
      } else {
        assert ts[1..][i - 1] == ts[i];
        DivideFromFailsOnVariable(ts[1..], acc / d.value, lib);
      }
    }
  }

  // ---------------------------------------------------------------------------
  // The + combinator

  /**
   * The children of `l + r`: the summands of `l` then those of `r`, except
   * that a non-sum left operand goes after the children of a sum on the right.
   */
  lemma AddOrder(l: Term, r: Term)
    ensures Add(l, r).terms ==
              if !l.Sum? && r.Sum? then Summands(r) + Summands(l) else Summands(l) + Summands(r)
  {
  }

  /** A flat sum: no child is itself a sum. */
  predicate Flat(t: Term) {
    forall i :: 0 <= i < |Summands(t)| ==> !Summands(t)[i].Sum?
  }

  /** Combining flat operands never nests a sum inside the result. */
  lemma AddFlat(l: Term, r: Term)
    requires Flat(l) && Flat(r)
    ensures Flat(Add(l, r))
  {
    var s := Add(l, r).terms;
    forall i | 0 <= i < |s| ensures !s[i].Sum? {
      assert s[i] in Summands(l) || s[i] in Summands(r);
    }
  }

  /** A fold over concatenated children is the fold over the second part, started where the first ended. */
  lemma {:induction false} AccumulateAppend(op: Arith, xs: seq<Term>, ys: seq<Term>, acc: real,
                                              values: Option<Bindings>, lib: MathLib)
    requires AllWellFormed(xs) && AllWellFormed(ys)
    ensures AllWellFormed(xs + ys)
    ensures Accumulate(op, xs + ys, acc, values, lib) ==
              match Accumulate(op, xs, acc, values, lib)
              case Err(e) => Err(e)
              case Ok(a) => Accumulate(op, ys, a, values, lib)
    decreases xs
  {
    assert AllWellFormed(xs + ys) by {
      forall i | 0 <= i < |xs + ys| ensures WellFormed((xs + ys)[i]) {
        if i >= |xs| { assert (xs + ys)[i] == ys[i - |xs|]; }
      }
    }
    if xs == [] {
      assert xs + ys == ys;
    } else {
      assert (xs + ys)[0] == xs[0];
      assert (xs + ys)[1..] == xs[1..] + ys;
      var v := Eval(xs[0], values, lib);
      if v.Ok? {
        AccumulateAppend(op, xs[1..], ys, Apply(op, acc, v.value), values, lib);
      }
    }
  }

  /** A running sum started at `acc` is `acc` plus the sum started at zero. */
  lemma {:induction false} SumFromOffset(ts: seq<Term>, acc: real, values: Option<Bindings>, lib: MathLib)
    requires AllWellFormed(ts)
    ensures Accumulate(Plus, ts, acc, values, lib) ==
              match Accumulate(Plus, ts, 0.0, values, lib)
              case Err(e) => Err(e)
              case Ok(b) => Ok(acc + b)
    decreases ts
  {
    if ts != [] {
      var v := Eval(ts[0], values, lib);
      if v.Ok? {
        SumFromOffset(ts[1..], acc + v.value, values, lib);
        SumFromOffset(ts[1..], v.value, values, lib);
      }
    }
  }

  /** A term's summands add up to the term's own value, or fail with its error. */
  lemma SummandsEval(t: Term, values: Option<Bindings>, lib: MathLib)
    requires WellFormed(t)
    ensures AllWellFormed(Summands(t))
    ensures Accumulate(Plus, Summands(t), 0.0, values, lib) == Eval(t, values, lib)
  {
    if !t.Sum? {
      assert Summands(t)[1..] == [];
    }
  }

  /** The sum over two concatenated lists: the first list's error, else the second's, else the total. */
  lemma SumConcat(xs: seq<Term>, ys: seq<Term>, values: Option<Bindings>, lib: MathLib)
    requires AllWellFormed(xs) && AllWellFormed(ys)
    ensures AllWellFormed(xs + ys)
    ensures var a, b := Accumulate(Plus, xs, 0.0, values, lib), Accumulate(Plus, ys, 0.0, values, lib);
            Accumulate(Plus, xs + ys, 0.0, values, lib) ==
              if a.Err? then a else if b.Err? then b else Ok(a.value + b.value)
  {
    AccumulateAppend(Plus, xs, ys, 0.0, values, lib);
    var a := Accumulate(Plus, xs, 0.0, values, lib);
    if a.Ok? {
      SumFromOffset(ys, a.value, values, lib);
    }
  }

  /** The outcome of adding two outcomes, left to right: the first error, else the sum. */
  function AddOutcomes(a: Result<real, string>, b: Result<real, string>): Result<real, string> {
    if a.Err? then a else if b.Err? then b else Ok(a.value + b.value)
  }

  /**
   * `l + r` adds the operands' outcomes in the order their children appear in
   * the result: `r` first only when `r` alone is a sum. So when both succeed
   * it is the sum of their values, and otherwise the error that comes first.
   */
  lemma AddEval(l: Term, r: Term, values: Option<Bindings>, lib: MathLib)
    requires WellFormed(l) && WellFormed(r)
    ensures Eval(Add(l, r), values, lib) ==
              if !l.Sum? && r.Sum? then AddOutcomes(Eval(r, values, lib), Eval(l, values, lib))
              else AddOutcomes(Eval(l, values, lib), Eval(r, values, lib))
  {
    if l.Sum? && r.Sum? {
      AddSumSum(l, r, values, lib);
    } else if l.Sum? {
      AddSumTerm(l, r, values, lib);
    } else if r.Sum? {
      AddTermSum(l, r, values, lib);
    } else {
      AddTermTerm(l, r, values, lib);
    }
  }

  /** When both operands evaluate, `l + r` evaluates to the sum of their values. */
  lemma AddValue(l: Term, r: Term, values: Option<Bindings>, lib: MathLib)
    requires WellFormed(l) && WellFormed(r)
    requires Eval(l, values, lib).Ok? && Eval(r, values, lib).Ok?
    ensures Eval(Add(l, r), values, lib) == Ok(Eval(l, values, lib).value + Eval(r, values, lib).value)
  {
    AddEval(l, r, values, lib);
    AddOutcomesOk(Eval(l, values, lib), Eval(r, values, lib));
  }

  /** Two successful outcomes add to the sum of their values, in either order. */
  lemma AddOutcomesOk(a: Result<real, string>, b: Result<real, string>)
    requires a.Ok? && b.Ok?
    ensures AddOutcomes(a, b) == Ok(a.value + b.value) && AddOutcomes(b, a) == Ok(a.value + b.value)
  {
  }

  lemma AddSumSum(l: Term, r: Term, values: Option<Bindings>, lib: MathLib)
    requires WellFormed(l) && WellFormed(r) && l.Sum? && r.Sum?
    ensures Eval(Add(l, r), values, lib) == AddOutcomes(Eval(l, values, lib), Eval(r, values, lib))
  {
    SumConcat(l.terms, r.terms, values, lib);
  }

  lemma AddSumTerm(l: Term, r: Term, values: Option<Bindings>, lib: MathLib)
    requires WellFormed(l) && WellFormed(r) && l.Sum? && !r.Sum?
    ensures Eval(Add(l, r), values, lib) == AddOutcomes(Eval(l, values, lib), Eval(r, values, lib))
  {
    SummandsEval(r, values, lib);
    SumConcat(l.terms, [r], values, lib);
  }

  lemma AddTermSum(l: Term, r: Term, values: Option<Bindings>, lib: MathLib)
    requires WellFormed(l) && WellFormed(r) && !l.Sum? && r.Sum?
    ensures Eval(Add(l, r), values, lib) == AddOutcomes(Eval(r, values, lib), Eval(l, values, lib))
  {
    SummandsEval(l, values, lib);
    SumConcat(r.terms, [l], values, lib);
  }

  lemma AddTermTerm(l: Term, r: Term, values: Option<Bindings>, lib: MathLib)
    requires WellFormed(l) && WellFormed(r) && !l.Sum? && !r.Sum?
    ensures Eval(Add(l, r), values, lib) == AddOutcomes(Eval(l, values, lib), Eval(r, values, lib))
  {
    SummandsEval(l, values, lib);
    SummandsEval(r, values, lib);
    assert [l, r] == [l] + [r];
    SumConcat([l], [r], values, lib);
  }

  /**
   * Reducing is not evaluating with an empty table: the two report a variable
   * with different errors.
   */
  lemma ReduceIsNotEmptyTable(c: char, lib: MathLib)
    ensures Eval(Variable(Variables.Named(c)), None, lib) == Err(MissingBindings(c))
    ensures Eval(Variable(Variables.Named(c)), Some(map[]), lib) == Err(Unbound(c))
    ensures Eval(Variable(Variables.Named(c)), None, lib) != Eval(Variable(Variables.Named(c)), Some(map[]), lib)
  {
    MessagesDistinct(c, c);
  }

  // ---------------------------------------------------------------------------
  // Worked examples

  /** `x + 100` with `x` bound to 28 evaluates to 128. */
  lemma ExampleVariablePlusConstant(lib: MathLib)
    ensures Eval(Add(Variable(Variables.Named('x')), Constant(100.0)), Some(map['x' := 28.0]), lib) == Ok(128.0)
  {
    AddEval(Variable(Variables.Named('x')), Constant(100.0), Some(map['x' := 28.0]), lib);
  }

  /** Two sums combine into one flat sum. */
  lemma ExampleFlatten(a: Term, b: Term, c: Term, d: Term)
    ensures Add(Sum([a, b]), Sum([c, d])) == Sum([a, b, c, d])
  {
    assert [a, b] + [c, d] == [a, b, c, d];
  }

  /** Dividing by a zero constant is refused, not an infinity. */
  lemma ExampleDivisionByZero(values: Option<Bindings>, lib: MathLib)
    ensures Eval(Quotient([Constant(5.0), Constant(0.0)]), values, lib) == Err(DivisionByZero)
  {
    QuotientRefusesZero([Constant(5.0), Constant(0.0)], 1, values, lib);
  }

  /** Because the first child divides itself, `6 / 2` written as a quotient evaluates to 0.5. */
  lemma ExampleQuotientDividesFirstByItself(values: Option<Bindings>, lib: MathLib)
    ensures Eval(Quotient([Constant(6.0), Constant(2.0)]), values, lib) == Ok(0.5)
  {
    var ts := [Constant(6.0), Constant(2.0)];
    assert AllAdmissible(ts, values, lib);
    QuotientEval(ts, values, lib);
    var xs := DivisorValues(ts, values, lib);
    assert xs == [6.0, 2.0];
    assert xs[..1] == [6.0] && [6.0][..0] == [];
  }
}
