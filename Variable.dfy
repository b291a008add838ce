/**
 * A variable: an unknown value named by exactly one character, which is
 * its key in a binding table.
 */
module Variables {
  import opened Wrappers
  import Decimal

  /** Equality of variables is equality of their symbols (a datatype compares structurally). */
  datatype Variable = Variable(symbol: char)

  /** The variable named `symbol`. */
  function Named(symbol: char): (v: Variable)
    ensures v.symbol == symbol
  {
    Variable(symbol)
  }

  /** An alias for `Named`. */
  function New(c: char): (v: Variable)
    ensures v == Named(c)
  {
    Named(c)
  }

  const NoneGiven: string := "Variables must be one character long (none given)."

  /** The error for a string of `n` characters, `n` written in decimal. */
  function TooLong(n: nat): (e: string)
    ensures |e| > 55 && e[..47] == "Variables cannot be longer than one character ("
    ensures e[|e| - 8..] == " found)."
    ensures forall i :: 47 <= i < |e| - 8 ==> Decimal.IsDigit(e[i])
  {
    "Variables cannot be longer than one character (" + Decimal.NatToDecimal(n) + " found)."
  }

  /**
   * Parses a variable from a string of characters. It succeeds exactly when
   * the string holds one character, which becomes the symbol; otherwise the
   * error says whether there were none or how many there were.
   */
  function FromStr(s: string): (r: Result<Variable, string>)
    ensures r.Ok? <==> |s| == 1
    ensures r.Ok? ==> r.value.symbol == s[0]
    ensures |s| == 0 ==> r == Err(NoneGiven)
    ensures |s| > 1 ==> r == Err(TooLong(|s|))
  {
    match |s|
    case 0 => Err(NoneGiven)
    case 1 => Ok(Variable(s[0]))
    case _ => Err(TooLong(|s|))
  }

  /** The debug rendering: the bare symbol. */
  function Debug(v: Variable): (s: string)
    ensures |s| == 1 && s[0] == v.symbol
  {
    [v.symbol]
  }

  /** Parsing the one-character string `[c]` gives `Named(c)`. */
  lemma ParseNamed(c: char)
    ensures FromStr([c]) == Ok(Named(c))
  {
  }

  /** Rendering and parsing are inverse to each other, in both directions. */
  lemma ParseDebugRoundTrip(v: Variable, s: string)
    ensures FromStr(Debug(v)) == Ok(v)
    ensures FromStr(s).Ok? ==> Debug(FromStr(s).value) == s
  {
    assert FromStr(s).Ok? ==> s == [s[0]];
  }

  /** The error for a too-long string carries the character count, recoverably. */
  lemma TooLongCount(s: string)
    requires |s| > 1
    ensures FromStr(s).Err?
    ensures var e := FromStr(s).error;
            |e| > 55 && e[..47] == "Variables cannot be longer than one character ("
            && e[|e| - 8..] == " found)."
            && (forall i :: 47 <= i < |e| - 8 ==> Decimal.IsDigit(e[i]))
            && Decimal.DecimalValue(e[47..|e| - 8]) == |s|
  {
    var d := Decimal.NatToDecimal(|s|);
    var e := TooLong(|s|);
    assert e[47..|e| - 8] == d;
    Decimal.DecimalRoundTrip(|s|);
  }

  /** The two errors differ, so a caller can tell an empty string from a long one. */
  lemma ErrorsDistinct(n: nat)
    ensures NoneGiven != TooLong(n)
  {
    assert NoneGiven[10] != TooLong(n)[10];
  }
}
