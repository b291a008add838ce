/**
 * The executable side of terms, written the way the engine runs: evaluation
 * with running accumulators and early returns, and the `+` combinator that
 * copies a child list and pushes onto it. Each method is proved to compute
 * what the functions of `Terms` define.
 */
module TermEngine {
  import opened Wrappers
  import opened Terms
  import TermLaws

  /**
   * Evaluates `t` depth-first and left to right, returning at the first
   * failing child. The four n-ary arms are the loops below.
   */
  method EvalTerm(t: Term, values: Option<Bindings>, lib: MathLib) returns (r: Result<real, string>)
    requires WellFormed(t)
    ensures r == Eval(t, values, lib)
    decreases t, 1
  {
    match t {
      case Constant(value) =>
        r := Ok(value);
      case Sum(_) =>
        r := EvalSum(t, values, lib);
      case Difference(_) =>
        r := EvalDifference(t, values, lib);
      case Product(_) =>
        r := EvalProduct(t, values, lib);
      case Quotient(_) =>
        r := EvalQuotient(t, values, lib);
      case Variable(variable) =>
        if values.Some? {
          if variable.symbol in values.value {
            r := Ok(values.value[variable.symbol]);
          } else {
            r := Err(Unbound(variable.symbol));
          }
        } else {
          r := Err(MissingBindings(variable.symbol));
        }
      case Sine(u) =>
        var c := EvalTerm(u, values, lib);
        r := if c.Ok? then Ok(lib.sin(c.value)) else c;
      case Cosine(u) =>
        var c := EvalTerm(u, values, lib);
        r := if c.Ok? then Ok(lib.cos(c.value)) else c;
      case ArcSine(u) =>
        var c := EvalTerm(u, values, lib);
        r := if c.Ok? then Ok(lib.asin(c.value)) else c;
      case ArcCosine(u) =>
        var c := EvalTerm(u, values, lib);
        r := if c.Ok? then Ok(lib.acos(c.value)) else c;
      case Tangent(u) =>
        var c := EvalTerm(u, values, lib);
        r := if c.Ok? then Ok(lib.tan(c.value)) else c;
      case ArcTangent(u) =>
        var c := EvalTerm(u, values, lib);
        r := if c.Ok? then Ok(lib.atan(c.value)) else c;
    }
  }

  /** A sum: a running total from 0, returning the first child error. */
  method EvalSum(t: Term, values: Option<Bindings>, lib: MathLib) returns (r: Result<real, string>)
    requires t.Sum? && WellFormed(t)
    ensures r == Eval(t, values, lib)
    decreases t, 0
  {
    var terms := t.terms;
    var sum := 0.0;
    for i := 0 to |terms|
      invariant Accumulate(Plus, terms[i..], sum, values, lib) == Eval(t, values, lib)
    {
      assert terms[i..][1..] == terms[i + 1..];
      var c := EvalTerm(terms[i], values, lib);
      match c {
        case Ok(value) => sum := sum + value;
        case Err(e) => return Err(e);
      }
    }
    r := Ok(sum);
  }

  /** A difference: the first child's value, minus each later child in order. */
  method EvalDifference(t: Term, values: Option<Bindings>, lib: MathLib) returns (r: Result<real, string>)
    requires t.Difference? && WellFormed(t)
    ensures r == Eval(t, values, lib)
    decreases t, 0
  {
    var terms := t.terms;
    var first := EvalTerm(terms[0], values, lib);
    if first.Err? { return first; }
    var difference := first.value;
    for i := 1 to |terms|
      invariant Accumulate(Minus, terms[i..], difference, values, lib) == Eval(t, values, lib)
    {
      assert terms[i..][1..] == terms[i + 1..];
      var c := EvalTerm(terms[i], values, lib);
      match c {
        case Ok(value) => difference := difference - value;
        case Err(e) => return Err(e);
      }
    }
    r := Ok(difference);
  }

  /** A product: a running product from 1, returning the first child error. */
  method EvalProduct(t: Term, values: Option<Bindings>, lib: MathLib) returns (r: Result<real, string>)
    requires t.Product? && WellFormed(t)
    ensures r == Eval(t, values, lib)
    decreases t, 0
  {
    var terms := t.terms;
    var product := 1.0;
    for i := 0 to |terms|
      invariant Accumulate(Times, terms[i..], product, values, lib) == Eval(t, values, lib)
    {
      assert terms[i..][1..] == terms[i + 1..];
      var c := EvalTerm(terms[i], values, lib);
      match c {
        case Ok(value) =>
          assert terms[i..][0] == terms[i];
          assert Apply(Times, product, value) == product * value;
          product := product * value;
        case Err(e) => return Err(e);
      }
    }
    r := Ok(product);
  }

  /**
   * A quotient: the first child's value, divided by every child in order,
   * the first included. A divisor below `Threshold` is refused before any
   * division by it.
   */
  method EvalQuotient(t: Term, values: Option<Bindings>, lib: MathLib) returns (r: Result<real, string>)
    requires t.Quotient? && WellFormed(t)
    ensures r == Eval(t, values, lib)
    decreases t, 0
  {
    var terms := t.terms;
    var first := EvalTerm(terms[0], values, lib);
    if first.Err? { return first; }
    var quotient := first.value;
    for i := 0 to |terms|
      invariant DivideFrom(terms[i..], quotient, values, lib) == Eval(t, values, lib)
    {
      assert terms[i..][1..] == terms[i + 1..];
      var c := EvalTerm(terms[i], values, lib);
      match c {
        case Ok(divisor) =>
          if Abs(divisor) < Threshold {
            return Err(DivisionByZero);
          }
          quotient := quotient / divisor;
        case Err(e) => return Err(e);
      }
    }
    r := Ok(quotient);
  }

  /**
   * Evaluates `t` against the binding table `values`. On a term without
   * variables the table makes no difference: the result is that of `Reduce`.
   */
  method Evaluate(t: Term, values: Bindings, lib: MathLib) returns (r: Result<real, string>)
    requires WellFormed(t)
    ensures r == Eval(t, Some(values), lib)
    ensures TermLaws.VariableFree(t) ==> r == Eval(t, None, lib)
  {
    r := EvalTerm(t, Some(values), lib);
    if TermLaws.VariableFree(t) {
      TermLaws.TableIrrelevant(t, values, lib);
    }
  }

  /**
   * Evaluates `t` with no binding table, for terms made of constants only.
   * Every term that holds a variable fails.
   */
  method Reduce(t: Term, lib: MathLib) returns (r: Result<real, string>)
    requires WellFormed(t)
    ensures r == Eval(t, None, lib)
    ensures !TermLaws.VariableFree(t) ==> r.Err?
  {
    r := EvalTerm(t, None, lib);
    if !TermLaws.VariableFree(t) {
      TermLaws.ReduceFailsOnVariable(t, lib);
    }
  }

  /**
   * The `+` combinator on borrowed operands: copies the child list of a sum
   * operand and pushes the other operand, or its children one by one.
   */
  method AddRef(l: Term, another: Term) returns (s: Term)
    ensures s == Add(l, another)
  {
    if l.Sum? {
      if another.Sum? {
        var terms := l.terms;
        for i := 0 to |another.terms|
          invariant terms == l.terms + another.terms[..i]
        {
          terms := terms + [another.terms[i]];
        }
        s := Sum(terms);
      } else {
        var terms := l.terms;
        terms := terms + [another];
        s := Sum(terms);
      }
    } else {
      if another.Sum? {
        var terms := another.terms;
        terms := terms + [l];
        s := Sum(terms);
      } else {
        s := Sum([l, another]);
      }
    }
  }

  /** The `+` combinator on owned operands: the same result as on borrowed ones. */
  method AddOwned(l: Term, another: Term) returns (s: Term)
    ensures s == Add(l, another)
  {
    s := AddRef(l, another);
  }
}
