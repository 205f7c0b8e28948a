/** Maxima and minima of integers and reals. */
module Numbers {

  function Max(a: int, b: int): int { if a > b then a else b }

  function Min(a: nat, b: nat): nat { if a < b then a else b }

  function MinR(a: real, b: real): real { if a < b then a else b }

  function MaxR(a: real, b: real): real { if a < b then b else a }
}
