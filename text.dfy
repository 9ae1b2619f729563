/** String helpers the PHP code gets from its runtime: strtolower, truthiness, explode. */
module Text {

  /** strtolower on one byte: ASCII upper-case letters become lower-case, everything else is kept. */
  function LowerChar(c: char): char {
    if 'A' <= c <= 'Z' then (c as int + 32) as char else c
  }

  predicate IsLowerChar(c: char) {
    !('A' <= c <= 'Z')
  }

  predicate IsLower(s: string) {
    forall i :: 0 <= i < |s| ==> IsLowerChar(s[i])
  }

  /**
   * strtolower on a whole string: the result has no upper-case letter, and a
   * string that already has none is returned as it is.
   */
  function Lower(s: string): (r: string)
    ensures |r| == |s|
    ensures forall i :: 0 <= i < |s| ==> r[i] == LowerChar(s[i])
    ensures IsLower(r)
    ensures IsLower(s) ==> r == s
  {
    seq(|s|, i requires 0 <= i < |s| => LowerChar(s[i]))
  }

  /** array_map('strtolower', ...) over a list of values. */
  function LowerAll(ss: seq<string>): (r: seq<string>)
    ensures |r| == |ss|
    ensures forall i :: 0 <= i < |ss| ==> r[i] == Lower(ss[i])
    ensures forall d :: d in r ==> IsLower(d)
  {
    var r := seq(|ss|, i requires 0 <= i < |ss| => Lower(ss[i]));
    assert forall d :: d in r ==> IsLower(d) by {
      forall d | d in r ensures IsLower(d) {
        var i :| 0 <= i < |r| && r[i] == d;
      }
    }
    r
  }
  /** Lower-casing a list one value longer. */
  lemma LowerAllSnoc(ss: seq<string>)
    requires ss != []
    ensures LowerAll(ss) == LowerAll(ss[..|ss| - 1]) + [Lower(ss[|ss| - 1])]
  {
  }


  /** PHP truthiness of a string: the empty string and "0" are false. */
  predicate Truthy(s: string) {
    s != "" && s != "0"
  }

  /**
   * The first element of explode(",", dn): everything before the first comma,
   * or the whole string when it holds no comma.
   */
  function FirstRdn(dn: string): (cn: string)
    ensures cn <= dn
    ensures ',' !in cn
    ensures |cn| < |dn| ==> dn[|cn|] == ','
  {
    if dn == [] || dn[0] == ',' then [] else [dn[0]] + FirstRdn(dn[1..])
  }
}
