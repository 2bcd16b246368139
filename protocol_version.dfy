/**
 * The signature of the zenlog executable: its resolved path together with
 * the version of the logger/command protocol. A helper invocation compares
 * it with the one the session exported, so its injectivity is what makes a
 * stale binary or a protocol change detectable.
 */
module Protocol {
  import opened GoStrings

  /** Version of the logger - command communication protocol. */
  const ProtocolVersion: nat := 1

  /** `fmt.Sprintf("%s:[%d]", bin, version)`. */
  function SignatureAt(bin: string, version: nat): (r: string)
    ensures HasPrefix(r, bin + ":[")
    ensures r[|r| - 1] == ']'
    ensures forall i :: |bin| + 2 <= i < |r| - 1 ==> IsDigit(r[i])
  {
    bin + ":[" + FormatInt(version) + "]"
  }

  /** The signature of the executable found at `bin`, at the current protocol version. */
  function Signature(bin: string): (r: string)
    ensures |r| == |bin| + 4
    ensures r[..|bin|] == bin && r[|bin|..] == ":[1]"
  {
    SignatureAt(bin, ProtocolVersion)
  }

  /**
   * A signature determines both the executable path and the protocol version:
   * the version's digits never contain ':', so the separator is found at the
   * same place in both.
   */
  lemma SignatureAtInjective(bin1: string, v1: nat, bin2: string, v2: nat)
    ensures SignatureAt(bin1, v1) == SignatureAt(bin2, v2) <==> bin1 == bin2 && v1 == v2
  {
    var s1, s2 := SignatureAt(bin1, v1), SignatureAt(bin2, v2);
    if s1 == s2 {
      if |bin1| < |bin2| {
        assert s2[|bin2|] == ':';
        SeparatorNotInTail(bin1, v1, |bin2|);
        assert false;
      } else if |bin2| < |bin1| {
        assert s1[|bin1|] == ':';
        SeparatorNotInTail(bin2, v2, |bin1|);
        assert false;
      }
      assert bin1 == s1[..|bin1|] == s2[..|bin2|] == bin2;
      var d1, d2 := FormatInt(v1), FormatInt(v2);
      assert s1 == bin1 + ":[" + d1 + "]";
      assert d1 == s1[|bin1| + 2..|s1| - 1] == s2[|bin2| + 2..|s2| - 1] == d2;
      FormatIntInjective(v1, v2);
    }
  }

  /** Past the path, a signature holds no ':' after the separator itself. */
  lemma SeparatorNotInTail(bin: string, v: nat, k: int)
    requires |bin| < k < |SignatureAt(bin, v)|
    ensures SignatureAt(bin, v)[k] != ':'
  {
    var s := SignatureAt(bin, v);
    if k == |bin| + 1 {
      assert s[k] == '[';
    } else if k < |s| - 1 {
      assert IsDigit(s[k]);
    }
  }

  /** Distinct executables never share a signature. */
  lemma SignatureInjective(bin1: string, bin2: string)
    ensures Signature(bin1) == Signature(bin2) <==> bin1 == bin2
  {
    SignatureAtInjective(bin1, ProtocolVersion, bin2, ProtocolVersion);
  }

  /** For one executable, a protocol version change always changes the signature. */
  lemma SignatureDetectsVersionSkew(bin: string, v1: nat, v2: nat)
    ensures SignatureAt(bin, v1) == SignatureAt(bin, v2) <==> v1 == v2
  {
    SignatureAtInjective(bin, v1, bin, v2);
  }
}
