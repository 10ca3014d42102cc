/** Types shared by the models of the bot's storage, market and signal code. */
module Common {

  datatype Option<+T> = None | Some(value: T)

  datatype Result<+T, +E> = Ok(value: T) | Err(error: E)

  function Max(a: int, b: int): int { if a >= b then a else b }

  function Min(a: int, b: int): int { if a <= b then a else b }

  function MaxReal(a: real, b: real): real { if a >= b then a else b }

  function MinReal(a: real, b: real): real { if a <= b then a else b }

  lemma SubsetSizes<T>(a: set<T>, b: set<T>)
    requires a <= b
    ensures |a| <= |b| && (|a| == |b| <==> a == b)
  {
    assert b == a + (b - a);
    assert |b| == |a| + |b - a|;
  }

  /** Counting one element at a time. */
  lemma OneMore(before: set<nat>, after: set<nat>, i: nat, more: bool)
    requires i !in before && forall j :: j in after <==> j in before || (more && j == i)
    ensures |after| == |before| + if more then 1 else 0
  {
    assert after == before + if more then {i} else {};
  }
}
