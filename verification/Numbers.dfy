/** Small functions on numbers that several models use. */
module Numbers {

  function Min(a: nat, b: nat): nat {
    if a < b then a else b
  }

  function Sum(xs: seq<nat>): nat {
    if xs == [] then 0 else Sum(xs[..|xs| - 1]) + xs[|xs| - 1]
  }

  /** 2 to the N. */
  function Power(n: nat): nat {
    if n == 0 then 1 else 2 * Power(n - 1)
  }
}
