/** Slice helpers used by the repository's tests. */
module TestUtil {

  /** Ar: its variadic arguments as a slice, unchanged and in order. */
  function Ar(a: seq<string>): (r: seq<string>)
    ensures |r| == |a| && forall i :: 0 <= i < |a| ==> r[i] == a[i]
  {
    a
  }

  /**
   * SlicesEqual: false on a length mismatch, false at the first index where
   * the elements differ, true otherwise; that is, exactly sequence equality.
   */
  method SlicesEqual(a: seq<string>, b: seq<string>) returns (eq: bool)
    ensures eq <==> a == b
  {
    if |a| != |b| {
      return false;
    }
    for i := 0 to |a|
      invariant a[..i] == b[..i]
    {
      if b[i] != a[i] {
        return false;
      }
    }
    assert a == a[..|a|] && b == b[..|b|];
    return true;
  }

  /** Reflexivity and symmetry of the relation SlicesEqual decides. */
  method SlicesEqualSymmetric(a: seq<string>, b: seq<string>) returns (ab: bool, ba: bool, aa: bool)
    ensures ab == ba && aa
  {
    ab := SlicesEqual(a, b);
    ba := SlicesEqual(b, a);
    aa := SlicesEqual(a, a);
  }
}
