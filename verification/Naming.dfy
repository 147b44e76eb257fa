/** Names of attachment records: "<volume>-<node>". */
module Naming {

  function RecordName(vol: string, node: string): string { vol + "-" + node }

  /** For one volume the name determines the node, and for one node the volume. */
  lemma {:induction false} NameFixesOther(v: string, m: string, w: string, n: string)
    requires RecordName(v, m) == RecordName(w, n) && (v == w || m == n)
    ensures v == w && m == n
  {
    var name := RecordName(v, m);
    assert |v| == |w| && |m| == |n|;
    assert name[..|v|] == v && RecordName(w, n)[..|v|] == w;
    assert name[|v| + 1..] == m && RecordName(w, n)[|v| + 1..] == n;
  }

  /** Two records of different volumes share a name exactly when one volume's identifier extends
      the other's over a dash, and the node names make up for it. */
  lemma {:induction false} NamesClashIff(v: string, m: string, w: string, n: string)
    requires |v| < |w|
    ensures RecordName(v, m) == RecordName(w, n) <==> exists x: string :: w == v + "-" + x && m == x + "-" + n
  {
    var a, b := RecordName(v, m), RecordName(w, n);
    if a == b {
      var x := w[|v| + 1..];
      assert w == b[..|w|] == a[..|w|];
      assert w[..|v|] == a[..|v|] == v;
      assert w[|v|] == a[|v|] == '-';
      assert w == v + "-" + x;
      assert m == a[|v| + 1..] == b[|v| + 1..] == x + "-" + n;
    }
    if x: string :| w == v + "-" + x && m == x + "-" + n {
      assert a == v + "-" + x + "-" + n == b;
    }
  }

  /** Identifiers of one length, as the provisioner generates them, never clash. */
  lemma {:induction false} EqualLengthNamesUnique(v: string, m: string, w: string, n: string)
    requires |v| == |w| && RecordName(v, m) == RecordName(w, n)
    ensures v == w && m == n
  {
    assert v == RecordName(v, m)[..|v|] == w;
    NameFixesOther(v, m, w, n);
  }
}
