/** The comparison operators of the generic indices: `binary_ops`, `get_op` and `compare`. */
module Operators {
  import opened Wrappers
  import opened TimeSeries

  /** The six comparisons, named by their mnemonics. */
  datatype BinaryOp = Gt | Lt | Ge | Le | Eq | Ne

  /** `binary_ops`: each operator symbol and the mnemonic it stands for. */
  const BinaryOps: map<string, string> :=
    map[">" := "gt", "<" := "lt", ">=" := "ge", "<=" := "le", "==" := "eq", "!=" := "ne"]

  function Symbol(op: BinaryOp): string {
    match op
    case Gt => ">" case Lt => "<" case Ge => ">=" case Le => "<=" case Eq => "==" case Ne => "!="
  }

  function Mnemonic(op: BinaryOp): string {
    match op
    case Gt => "gt" case Lt => "lt" case Ge => "ge" case Le => "le" case Eq => "eq" case Ne => "ne"
  }

  /** The operator an accepted mnemonic names (the array library's own lookup). */
  function FromMnemonic(m: string): Option<BinaryOp> {
    if m == "gt" then Some(Gt) else if m == "lt" then Some(Lt)
    else if m == "ge" then Some(Ge) else if m == "le" then Some(Le)
    else if m == "eq" then Some(Eq) else if m == "ne" then Some(Ne)
    else None
  }

  /**
   * `get_op`: a symbol is first mapped to its mnemonic; a mnemonic is taken
   * as it is; any other name raises ValueError.
   */
  function GetOp(name: string): (r: Result<BinaryOp>)
    ensures r.Success? <==> name in {">", "<", ">=", "<=", "==", "!=", "gt", "lt", "ge", "le", "eq", "ne"}
    ensures r.Success? ==> name == Symbol(r.value) || name == Mnemonic(r.value)
    ensures r.Failure? ==> r.error.ValueError?
  {
    assert BinaryOps.Values == {"gt", "lt", "ge", "le", "eq", "ne"} by {
      assert BinaryOps[">"] == "gt" && BinaryOps["<"] == "lt" && BinaryOps[">="] == "ge";
      assert BinaryOps["<="] == "le" && BinaryOps["=="] == "eq" && BinaryOps["!="] == "ne";
    }
    var m := if name in BinaryOps then BinaryOps[name]
             else if name in BinaryOps.Values then name
             else "";
    match FromMnemonic(m)
    case Some(op) => Success(op)
    case None => Failure(ValueError("Operation `" + name + "` not recognized."))
  }

  /** Both spellings of every operator resolve to it, and the symbol maps to its mnemonic. */
  lemma GetOpSpellings(op: BinaryOp)
    ensures GetOp(Symbol(op)) == Success(op) && GetOp(Mnemonic(op)) == Success(op)
    ensures Symbol(op) in BinaryOps && BinaryOps[Symbol(op)] == Mnemonic(op)
  {
    assert Mnemonic(op) in BinaryOps.Values by {
      assert BinaryOps[Symbol(op)] == Mnemonic(op);
    }
  }

  /** The comparison itself; like NumPy, every comparison with NaN is false except `!=`. */
  predicate Holds(op: BinaryOp, v: Value, t: real)
    ensures v.NaN? ==> (Holds(op, v, t) <==> op == Ne)
  {
    match v
    case NaN => op == Ne
    case Num(x) =>
      match op
      case Gt => x > t case Lt => x < t case Ge => x >= t
      case Le => x <= t case Eq => x == t case Ne => x != t
  }

  /** `compare`: the boolean mask of a comparison over a series of values. */
  function Compare(vs: seq<Value>, op: string, t: real): (r: Result<seq<bool>>)
    ensures r.Failure? <==> GetOp(op).Failure?
    ensures r.Success? ==> |r.value| == |vs|
    ensures r.Success? ==> forall i :: 0 <= i < |vs| ==> r.value[i] == Holds(GetOp(op).value, vs[i], t)
  {
    var o :- GetOp(op);
    Success(seq(|vs|, i requires 0 <= i < |vs| => Holds(o, vs[i], t)))
  }

  /** On numbers, `>` and `<=` (also `<` and `>=`) are complements; on NaN both are false. */
  lemma ComplementaryOps(v: Value, t: real)
    ensures v.Num? ==> (Holds(Le, v, t) <==> !Holds(Gt, v, t)) && (Holds(Ge, v, t) <==> !Holds(Lt, v, t))
    ensures v.NaN? ==> !Holds(Gt, v, t) && !Holds(Le, v, t) && !Holds(Lt, v, t) && !Holds(Ge, v, t)
  {
  }
}
