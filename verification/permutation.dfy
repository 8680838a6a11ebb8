/** Facts about rearranging enriched rows. */
module Permutation {
  import opened Emissions

  /** Rearranging rows rearranges the regions they carry in the same way. */
  lemma {:induction false} PermutationKeepsRegions(a: seq<Row>, b: seq<Row>)
    requires multiset(a) == multiset(b)
    ensures multiset(RegionsOf(a)) == multiset(RegionsOf(b))
    decreases |a|
  {
    if |a| == 0 {
      assert |b| == |multiset(b)| == 0;
    } else {
      assert a[0] in multiset(b);
      var j :| 0 <= j < |b| && b[j] == a[0];
      var a', b' := a[..0] + a[1..], b[..j] + b[j+1..];
      RemoveAt(a, 0);
      RemoveAt(b, j);
      var ra, rb := RegionsOf(a'), RegionsOf(b');
      assert multiset(RegionsOf(a)) == multiset(ra) + multiset{a[0].region};
      assert multiset(RegionsOf(b)) == multiset(rb) + multiset{a[0].region};
      Cancel(multiset(a'), multiset(b'), a[0]);
      PermutationKeepsRegions(a', b');
      assert multiset(ra) == multiset(rb);
    }
  }

  /** Taking out the row at index j takes out exactly that row and exactly
      its region. */
  lemma RemoveAt(s: seq<Row>, j: nat)
    requires j < |s|
    ensures multiset(s) == multiset(s[..j] + s[j+1..]) + multiset{s[j]}
    ensures multiset(RegionsOf(s)) == multiset(RegionsOf(s[..j] + s[j+1..])) + multiset{s[j].region}
  {
    var u, v := s[..j], s[j+1..];
    assert s == u + [s[j]] + v;
    RegionsOfConcat(u, [s[j]] + v);
    RegionsOfConcat([s[j]], v);
    RegionsOfConcat(u, v);
    assert RegionsOf([s[j]]) == [s[j].region];
    assert RegionsOf(s) == RegionsOf(u) + ([s[j].region] + RegionsOf(v));
  }

  /** The regions of two concatenated row sequences are the concatenated
      regions. */
  lemma RegionsOfConcat(u: seq<Row>, v: seq<Row>)
    ensures RegionsOf(u + v) == RegionsOf(u) + RegionsOf(v)
  {
  }

  /** Two multisets that are equal once the same element is added to
      each were equal before. */
  lemma Cancel<T>(m1: multiset<T>, m2: multiset<T>, x: T)
    requires m1 + multiset{x} == m2 + multiset{x}
    ensures m1 == m2
  {
    forall y ensures m1[y] == m2[y] {
      assert (m1 + multiset{x})[y] == (m2 + multiset{x})[y];
    }
  }
}
