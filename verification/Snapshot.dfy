/** Snapshot identifiers: "<volume>@<snapshot>" and how the handlers take them apart. */
module Snapshot {
  import opened Common

  const SEP: char := '@'

  /** One character put in front of an already split string. */
  function Cons(c: char, parts: seq<string>): seq<string>
    requires |parts| >= 1
  {
    if c == SEP then [""] + parts else [[c] + parts[0]] + parts[1..]
  }

  /** strings.Split with a one-character separator. */
  function Split(s: string): (parts: seq<string>)
    ensures |parts| >= 1
  {
    if s == "" then [""] else Cons(s[0], Split(s[1..]))
  }

  function Join(parts: seq<string>): string
    requires |parts| >= 1
  {
    if |parts| == 1 then parts[0] else parts[0] + [SEP] + Join(parts[1..])
  }

  function Count(s: string): nat {
    if s == "" then 0 else (if s[0] == SEP then 1 else 0) + Count(s[1..])
  }

  lemma {:induction false} JoinCons(c: char, parts: seq<string>)
    requires |parts| >= 1
    ensures Join(Cons(c, parts)) == [c] + Join(parts)
  {
    if c == SEP {
      assert Cons(c, parts)[1..] == parts;
    } else if |parts| > 1 {
      assert Cons(c, parts)[1..] == parts[1..];
    }
  }

  /** Split loses nothing, */
  lemma {:induction false} JoinSplit(s: string)
    ensures Join(Split(s)) == s
  {
    if s != "" {
      JoinSplit(s[1..]);
      JoinCons(s[0], Split(s[1..]));
      assert s == [s[0]] + s[1..];
    }
  }

  /** it cuts at every separator */
  lemma {:induction false} SplitCuts(s: string)
    ensures |Split(s)| == Count(s) + 1
  {
    if s != "" {
      SplitCuts(s[1..]);
    }
  }

  /** and leaves none in any part. */
  lemma {:induction false} PartsArePlain(s: string)
    ensures forall k :: 0 <= k < |Split(s)| ==> SEP !in Split(s)[k]
  {
    if s != "" {
      PartsArePlain(s[1..]);
      assert forall k :: 1 <= k < |Split(s)| ==> Split(s)[k] in Split(s[1..]);
    }
  }

  lemma {:induction false} ConsConcat(c: char, p: seq<string>, q: seq<string>)
    requires |p| >= 1
    ensures Cons(c, p + q) == Cons(c, p) + q
  {
    assert (p + q)[1..] == p[1..] + q;
  }

  lemma {:induction false} SplitJoined(v: string, n: string)
    ensures Split(v + [SEP] + n) == Split(v) + Split(n)
  {
    var id := v + [SEP] + n;
    if v == "" {
      assert id[1..] == n;
    } else {
      assert id[1..] == v[1..] + [SEP] + n;
      SplitJoined(v[1..], n);
      ConsConcat(v[0], Split(v[1..]), Split(n));
    }
  }

  lemma {:induction false} SplitPlain(s: string)
    ensures |Split(s)| == 1 <==> SEP !in s
    ensures SEP !in s ==> Split(s) == [s]
  {
    if s != "" {
      SplitPlain(s[1..]);
      assert s == [s[0]] + s[1..];
    }
  }

  /** The identifier that CreateSnapshot returns. */
  function SnapshotId(volume: string, name: string): string { volume + [SEP] + name }

  /** The volume and snapshot that DeleteSnapshot acts on, or None where it refuses. */
  function DeleteTarget(id: string): Option<(string, string)> {
    var parts := Split(id);
    if |parts| != 2 then None else Some((parts[0], parts[1]))
  }

  /** GetVolumeSourceDetails: without a separator the Go code indexes past the slice. */
  function SourceDetails(id: string): (string, string)
    requires SEP in id
  {
    SplitPlain(id);
    (Split(id)[0], Split(id)[1])
  }

  /** DeleteSnapshot acts on (volume, name) for exactly the identifiers CreateSnapshot builds
      from two names without a separator. */
  lemma {:induction false} DeleteActsIff(id: string, volume: string, name: string)
    ensures DeleteTarget(id) == Some((volume, name)) <==>
            id == SnapshotId(volume, name) && SEP !in volume && SEP !in name
  {
    JoinSplit(id);
    PartsArePlain(id);
    var parts := Split(id);
    if |parts| == 2 && parts == [volume, name] {
      assert Join(parts) == volume + [SEP] + Join([name]);
    }
    if id == SnapshotId(volume, name) {
      SplitJoined(volume, name);
      SplitPlain(volume);
      SplitPlain(name);
    }
  }

  /** For an identifier that CreateSnapshot built, DeleteSnapshot either acts on the original
      names or refuses; it refuses exactly when one of them contains a separator. */
  lemma {:induction false} DeleteIsExactOrRefuses(volume: string, name: string)
    ensures DeleteTarget(SnapshotId(volume, name)) ==
            if SEP in volume || SEP in name then None else Some((volume, name))
  {
    SplitJoined(volume, name);
    SplitPlain(volume);
    SplitPlain(name);
  }

  /** The two parsers agree on every identifier with exactly one separator, and with more than
      one GetVolumeSourceDetails still answers while DeleteSnapshot refuses. */
  lemma {:induction false} ParsersAgreeIff(id: string)
    requires SEP in id
    ensures DeleteTarget(id) == Some(SourceDetails(id)) <==> Count(id) == 1
    ensures Count(id) != 1 ==> DeleteTarget(id).None?
  {
    SplitCuts(id);
    SplitPlain(id);
  }

  /** A snapshot name with a separator: cloning from it resolves to a snapshot of another name. */
  lemma {:induction false} SourceDetailsTruncates(volume: string, a: string, b: string)
    requires SEP !in volume && SEP !in a
    ensures SEP in SnapshotId(volume, a + [SEP] + b)
    ensures SourceDetails(SnapshotId(volume, a + [SEP] + b)) == (volume, a)
  {
    var id := SnapshotId(volume, a + [SEP] + b);
    assert id[|volume|] == SEP;
    SplitJoined(volume, a + [SEP] + b);
    SplitJoined(a, b);
    SplitPlain(volume);
    SplitPlain(a);
  }
}
