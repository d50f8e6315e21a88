/** The `Decimal` library: 18-decimal fixed-point numbers in checked 256-bit arithmetic. */
module Decimal {
  import opened Evm

  const BASE: nat := 1_000_000_000_000_000_000

  datatype D256 = D256(value: nat)

  function One(): D256 {
    D256(BASE)
  }

  function From(a: nat): Result<D256> {
    var value :- CheckedMul(a, BASE);
    Ok(D256(value))
  }

  function Ratio(a: nat, b: nat): Result<D256> {
    var value :- GetPartial(a, BASE, b);
    Ok(D256(value))
  }

  function Mul(self: D256, b: nat): Result<D256> {
    var value :- CheckedMul(self.value, b);
    Ok(D256(value))
  }

  function Div(self: D256, b: nat): Result<D256> {
    var value :- CheckedDiv(self.value, b);
    Ok(D256(value))
  }

  function DivBy(self: D256, b: D256): Result<D256> {
    var value :- GetPartial(self.value, BASE, b.value);
    Ok(D256(value))
  }

  function AsUint256(self: D256): nat {
    self.value / BASE
  }

  predicate GreaterThan(a: D256, b: D256) {
    CompareTo(a, b) == 2
  }

  predicate LessThan(a: D256, b: D256) {
    CompareTo(a, b) == 0
  }

  function GetPartial(target: nat, numerator: nat, denominator: nat): Result<nat> {
    var product :- CheckedMul(target, numerator);
    CheckedDiv(product, denominator)
  }

  function CompareTo(a: D256, b: D256): nat {
    if a.value == b.value then 1 else if a.value > b.value then 2 else 0
  }
}
