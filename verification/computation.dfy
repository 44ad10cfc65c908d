/** The showcase application's computation hook (`useComputation.ts`):
    BigInt arithmetic selected by an operation name, and the
    `isComputing` / `result` / `error` state the hook keeps.  The clock
    (`Date.now()`) is a parameter. */
module Computation {
  import opened Wrappers

  function Abs(x: int): nat {
    if x < 0 then -x else x
  }

  /** BigInt `/`: the quotient rounded toward zero.  The remainder
      `a - q * b` takes the sign of the dividend and is smaller than the
      divisor in magnitude. */
  function TruncDiv(a: int, b: int): (q: int)
    requires b != 0
    ensures Abs(a - q * b) < Abs(b)
    ensures a - q * b == 0 || (a - q * b < 0 <==> a < 0)
  {
    var m := Abs(a) / Abs(b);
    if (a < 0) == (b < 0) then m else -m
  }

  /** The two properties of `TruncDiv`'s contract single out its result. */
  lemma {:induction false} TruncDivUnique(a: int, b: int, q: int)
    requires b != 0
    requires Abs(a - q * b) < Abs(b)
    requires a - q * b == 0 || (a - q * b < 0 <==> a < 0)
    ensures q == TruncDiv(a, b)
  {
    var t := TruncDiv(a, b);
    var r, s := a - q * b, a - t * b;
    assert (q - t) * b == s - r;
    if q != t {
      MagnitudeOfMultiple(q - t, b);
      assert false;
    }
  }

  lemma {:induction false} MagnitudeOfMultiple(k: int, b: int)
    requires k != 0
    ensures Abs(k * b) >= Abs(b)
  {
    if k > 0 {
      if b >= 0 { assert k * b >= b; } else { assert k * b <= b; }
    } else {
      if b >= 0 { assert k * b <= -b; } else { assert k * b >= -b; }
    }
  }

  /** On non-negative operands BigInt `/` agrees with Dafny's division. */
  lemma {:induction false} TruncDivOfNonNegative(a: int, b: int)
    requires a >= 0 && b > 0
    ensures TruncDiv(a, b) == a / b
  {
  }

  /** They differ when the dividend is negative and the division is inexact:
      `-7n / 2n` is `-3n`, while Euclidean division gives `-4`. */
  lemma {:induction false} TruncDivDiffersFromEuclidean()
    ensures TruncDiv(-7, 2) == -3
    ensures -7 / 2 == -4
  {
  }

  /** `{ value, success, timestamp }`. */
  datatype ComputationResult = ComputationResult(value: int, success: bool, timestamp: int)

  datatype HookState = HookState(isComputing: bool, result: Option<ComputationResult>, error: Option<string>)

  const Initial := HookState(false, None, None)

  /** The message of the `RangeError` a BigInt division by zero throws (V8's
      wording).  Both errors the hook can record are kept as their message. */
  const DivisionByZero := "Division by zero"

  /** The `switch (operation)` block: `Err` is the exception it throws. */
  function Evaluate(operation: string, a: int, b: int): (r: Result<int, string>)
    ensures operation == "add" ==> r == Ok(a + b)
    ensures operation == "subtract" ==> r == Ok(a - b)
    ensures operation == "multiply" ==> r == Ok(a * b)
    ensures operation == "divide" && b != 0 ==>
              r.Ok? && Abs(a - r.value * b) < Abs(b) && (a - r.value * b == 0 || (a - r.value * b < 0 <==> a < 0))
    ensures operation == "divide" && b == 0 ==> r == Err(DivisionByZero)
    ensures operation !in {"add", "subtract", "multiply", "divide"} ==>
              r == Err("Unsupported operation: " + operation)
  {
    if operation == "add" then Ok(a + b)
    else if operation == "subtract" then Ok(a - b)
    else if operation == "multiply" then Ok(a * b)
    else if operation == "divide" then (if b == 0 then Err(DivisionByZero) else Ok(TruncDiv(a, b)))
    else Err("Unsupported operation: " + operation)
  }

  /** The hook's state after a call, and what the call returns or throws. */
  datatype Step = Step(state: HookState, outcome: Result<ComputationResult, string>)

  /** `compute(operation, a, b)`, run to completion at time `now`.  The
      busy flag is raised and the error cleared on entry, and the flag is
      lowered in `finally`; only the final state is observable here. */
  function Compute(state: HookState, operation: string, a: int, b: int, now: int): (r: Step)
    ensures !r.state.isComputing
    ensures r.outcome.Ok? <==> Evaluate(operation, a, b).Ok?
    ensures r.outcome.Ok? ==>
              r.outcome.value == ComputationResult(Evaluate(operation, a, b).value, true, now) &&
              r.state.result == Some(r.outcome.value) && r.state.error.None?
    ensures r.outcome.Err? ==>
              r.outcome == Err(Evaluate(operation, a, b).error) &&
              r.state.result == state.result && r.state.error == Some(r.outcome.error)
  {
    var entered := state.(isComputing := true, error := None);
    match Evaluate(operation, a, b)
    case Ok(value) =>
      var res := ComputationResult(value, true, now);
      Step(entered.(result := Some(res), isComputing := false), Ok(res))
    case Err(e) =>
      Step(entered.(error := Some(e), isComputing := false), Err(e))
  }

  /** A failed call does not disturb an earlier result, and a later
      successful call clears the error it recorded. */
  lemma {:induction false} FailureThenSuccess(state: HookState, a: int, b: int, now1: int, now2: int)
    ensures var s1 := Compute(state, "divide", a, 0, now1);
            s1.outcome == Err(DivisionByZero) && s1.state.result == state.result &&
            var s2 := Compute(s1.state, "add", a, b, now2);
            s2.state == HookState(false, Some(ComputationResult(a + b, true, now2)), None)
  {
  }
}
