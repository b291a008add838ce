/**
 * Terms: expression trees of constants, variables, n-ary sums, differences,
 * products and quotients, and six trigonometric wrappers; their evaluation
 * against an optional binding table; and the `+` combinator that merges two
 * terms into one flat sum.
 *
 * Numbers are mathematical reals. The trigonometric functions belong to the
 * host's math library and are not defined here: evaluation takes them as a
 * `MathLib` parameter, so every statement below holds for any six functions.
 */
module Terms {
  import opened Wrappers
  import Variables

  /** The binding table: the value of each variable, by symbol. */
  type Bindings = map<char, real>

  /** sin, cos, tan, asin, acos and atan of the math library (radians). */
  datatype MathLib = MathLib(
    sin: real -> real, cos: real -> real, tan: real -> real,
    asin: real -> real, acos: real -> real, atan: real -> real)

  datatype Term =
    | Variable(variable: Variables.Variable)
    | Constant(value: real)
    | Sum(terms: seq<Term>)
    | Difference(terms: seq<Term>)
    | Product(terms: seq<Term>)
    | Quotient(terms: seq<Term>)
    | Sine(arg: Term)
    | Cosine(arg: Term)
    | Tangent(arg: Term)
    | ArcSine(arg: Term)
    | ArcCosine(arg: Term)
    | ArcTangent(arg: Term)

  /**
   * Evaluation reads the first child of every `Difference` and `Quotient`, so
   * those nodes must have one; the other nodes may be empty.
   */
  predicate WellFormed(t: Term) {
    match t
    case Variable(_) => true
    case Constant(_) => true
    case Sum(ts) => forall i :: 0 <= i < |ts| ==> WellFormed(ts[i])
    case Difference(ts) => |ts| > 0 && forall i :: 0 <= i < |ts| ==> WellFormed(ts[i])
    case Product(ts) => forall i :: 0 <= i < |ts| ==> WellFormed(ts[i])
    case Quotient(ts) => |ts| > 0 && forall i :: 0 <= i < |ts| ==> WellFormed(ts[i])
    case Sine(u) => WellFormed(u)
    case Cosine(u) => WellFormed(u)
    case Tangent(u) => WellFormed(u)
    case ArcSine(u) => WellFormed(u)
    case ArcCosine(u) => WellFormed(u)
    case ArcTangent(u) => WellFormed(u)
  }

  /** Every term of `ts` is well-formed. */
  predicate AllWellFormed(ts: seq<Term>) {
    forall i :: 0 <= i < |ts| ==> WellFormed(ts[i])
  }

  /** Divisors whose magnitude is below this are refused as zero. */
  const Threshold: real := 0.00000000000000001

  function Abs(x: real): real {
    if x < 0.0 then -x else x
  }

  const DivisionByZero: string := "Attempted division by zero."

  /** The error for a variable that a supplied table does not bind. */
  function Unbound(symbol: char): string {
    "No value provided for variable " + [symbol]
  }

  /** The error for a variable met when no table was supplied at all. */
  function MissingBindings(symbol: char): string {
    "No variable values provided (looking for " + [symbol] + ")"
  }

  /**
   * The three evaluation errors are told apart by their text, and each
   * variable error names its variable recoverably.
   */
  lemma MessagesDistinct(c: char, d: char)
    ensures DivisionByZero != Unbound(c) && DivisionByZero != MissingBindings(c)
    ensures Unbound(c) != MissingBindings(d)
    ensures Unbound(c) == Unbound(d) <==> c == d
    ensures MissingBindings(c) == MissingBindings(d) <==> c == d
  {
    assert DivisionByZero[0] != Unbound(c)[0];
    assert DivisionByZero[0] != MissingBindings(c)[0];
    assert Unbound(c)[5] != MissingBindings(d)[5];
    assert Unbound(c)[|Unbound(c)| - 1] == c;
    assert MissingBindings(c)[|MissingBindings(c)| - 2] == c;
    assert |Unbound(c)| == |Unbound(d)| && |MissingBindings(c)| == |MissingBindings(d)|;
  }

  /**
   * The errors evaluation can produce with `values`: a refused division, or a
   * variable left unresolved, named in the message. Which of the two variable
   * errors is possible depends only on whether a table was supplied, and an
   * unbound variable is one the table really lacks.
   */
  predicate IsEvalError(e: string, values: Option<Bindings>) {
    || e == DivisionByZero
    || (values.None? && exists c :: e == MissingBindings(c))
    || (values.Some? && exists c :: c !in values.value && e == Unbound(c))
  }

  /** The running operation of a `Sum`, `Difference` or `Product` loop. */
  datatype Arith = Plus | Minus | Times

  function Apply(op: Arith, acc: real, v: real): real {
    match op
    case Plus => acc + v
    case Minus => acc - v
    case Times => acc * v
  }

  /** The value of `t`; a failing child stops evaluation and its error is the result. */
  function Eval(t: Term, values: Option<Bindings>, lib: MathLib): (r: Result<real, string>)
    requires WellFormed(t)
    ensures r.Err? ==> IsEvalError(r.error, values)
    decreases t
  {
    match t
    case Constant(v) => Ok(v)
    case Sum(ts) => Accumulate(Plus, ts, 0.0, values, lib)
    case Difference(ts) =>
      (match Eval(ts[0], values, lib)
       case Err(e) => Err(e)
       case Ok(first) => Accumulate(Minus, ts[1..], first, values, lib))
    case Product(ts) => Accumulate(Times, ts, 1.0, values, lib)
    case Quotient(ts) =>
      (match Eval(ts[0], values, lib)
       case Err(e) => Err(e)
       case Ok(first) => DivideFrom(ts, first, values, lib))
    case Variable(x) =>
      if values.Some? then
        if x.symbol in values.value then Ok(values.value[x.symbol]) else Err(Unbound(x.symbol))
      else
        Err(MissingBindings(x.symbol))
    case Sine(u) => MapOk(Eval(u, values, lib), lib.sin)
    case Cosine(u) => MapOk(Eval(u, values, lib), lib.cos)
    case Tangent(u) => MapOk(Eval(u, values, lib), lib.tan)
    case ArcSine(u) => MapOk(Eval(u, values, lib), lib.asin)
    case ArcCosine(u) => MapOk(Eval(u, values, lib), lib.acos)
    case ArcTangent(u) => MapOk(Eval(u, values, lib), lib.atan)
  }

  /** Applies `f` to a value and passes an error through unchanged. */
  function MapOk(r: Result<real, string>, f: real -> real): (s: Result<real, string>)
    ensures s.Err? <==> r.Err?
    ensures r.Err? ==> s == r
    ensures r.Ok? ==> s.value == f(r.value)
  {
    match r
    case Ok(v) => Ok(f(v))
    case Err(e) => Err(e)
  }

  /**
   * The `Sum`, `Difference` and `Product` loop: evaluates `ts` in order,
   * combining each value into `acc`, and stops at the first error.
   */
  function Accumulate(op: Arith, ts: seq<Term>, acc: real, values: Option<Bindings>, lib: MathLib)
    : (r: Result<real, string>)
    requires AllWellFormed(ts)
    ensures r.Err? ==> IsEvalError(r.error, values)
    decreases ts
  {
    if ts == [] then Ok(acc)
    else
      match Eval(ts[0], values, lib)
      case Err(e) => Err(e)
      case Ok(v) => Accumulate(op, ts[1..], Apply(op, acc, v), values, lib)
  }

  /**
   * The `Quotient` loop: evaluates `ts` in order and divides `acc` by each
   * value, refusing a divisor of magnitude below `Threshold` before dividing.
   */
  function DivideFrom(ts: seq<Term>, acc: real, values: Option<Bindings>, lib: MathLib)
    : (r: Result<real, string>)
    requires AllWellFormed(ts)
    ensures r.Err? ==> IsEvalError(r.error, values)
    decreases ts
  {
    if ts == [] then Ok(acc)
    else
      match Eval(ts[0], values, lib)
      case Err(e) => Err(e)
      case Ok(d) =>
        if Abs(d) < Threshold then Err(DivisionByZero)
        else DivideFrom(ts[1..], acc / d, values, lib)
  }

  /** The summands a term contributes to a flattened sum: a sum's children, or the term itself. */
  function Summands(t: Term): (ts: seq<Term>)
    ensures WellFormed(t) ==> AllWellFormed(ts)
  {
    if t.Sum? then t.terms else [t]
  }

  /** Joining two lists of well-formed terms. */
  lemma ConcatWellFormed(xs: seq<Term>, ys: seq<Term>)
    requires AllWellFormed(xs) && AllWellFormed(ys)
    ensures AllWellFormed(xs + ys)
  {
    forall i | 0 <= i < |xs + ys| ensures WellFormed((xs + ys)[i]) {
      if i >= |xs| { assert (xs + ys)[i] == ys[i - |xs|]; }
    }
  }

  /**
   * The `+` combinator. The result is always a new `Sum`, holding the summands
   * of both operands, and is well-formed when they are. When only the right
   * operand is a sum, the left operand goes after its children.
   */
  function Add(l: Term, r: Term): (s: Term)
    ensures s.Sum?
    ensures multiset(s.terms) == multiset(Summands(l)) + multiset(Summands(r))
    ensures WellFormed(l) && WellFormed(r) ==> WellFormed(s)
  {
    // Sum + Sum: both child lists; Sum + other: push the other; other + Sum:
    // push the left operand after the children; otherwise the pair.
    var first := if !l.Sum? && r.Sum? then r.terms else Summands(l);
    var second := if !l.Sum? && r.Sum? then [l] else Summands(r);
    assert WellFormed(l) && WellFormed(r) ==> AllWellFormed(first + second) by {
      if WellFormed(l) && WellFormed(r) { ConcatWellFormed(first, second); }
    }
    Sum(first + second)
  }
}
