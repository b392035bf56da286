/**
 * Filtered reads over a keyed collection: the store's `Find` with a filter
 * and an optional limit, drained into a slice. No sort is applied, so the
 * order of the keys returned is left open.
 */
module Query {

  /** The keys of `m` whose values pass the filter. */
  function Matching<V>(m: map<string, V>, keep: V -> bool): (ks: set<string>)
    ensures ks <= m.Keys
    ensures forall k :: k in m ==> (k in ks <==> keep(m[k]))
  {
    set k | k in m && keep(m[k])
  }

  function Elements(ks: seq<string>): set<string> {
    set k | k in ks
  }

  predicate Distinct(ks: seq<string>) {
    forall i, j :: 0 <= i < j < |ks| ==> ks[i] != ks[j]
  }

  function Min(a: nat, b: nat): nat {
    if a <= b then a else b
  }

  /** A subset is no larger than its superset, and equal to it when as large. */
  lemma {:induction false} SubsetCardinality<T>(a: set<T>, b: set<T>)
    requires a <= b
    ensures |a| <= |b|
    ensures |a| == |b| ==> a == b
  {
    if a != b {
      assert b - a != {} by {
        if b - a == {} {
          forall x | x in b ensures x in a { assert x !in b - a; }
        }
      }
      var x :| x in b - a;
      SubsetCardinality(a, b - {x});
    }
  }

  /**
   * The keys of the entries that pass the filter, each once, in no particular
   * order. A limit of 0 means no limit; otherwise exactly `limit` keys are
   * returned when at least that many match, and all of them when fewer do.
   */
  method SelectKeys<V>(m: map<string, V>, keep: V -> bool, limit: nat) returns (ks: seq<string>)
    ensures Distinct(ks)
    ensures forall i :: 0 <= i < |ks| ==> ks[i] in m && keep(m[ks[i]])
    ensures Elements(ks) <= Matching(m, keep)
    ensures |ks| == if limit == 0 then |Matching(m, keep)| else Min(limit, |Matching(m, keep)|)
    ensures limit == 0 || |Matching(m, keep)| <= limit ==> Elements(ks) == Matching(m, keep)
  {
    ghost var due := Matching(m, keep);
    var rest := m.Keys;
    ks := [];
    while rest != {} && (limit == 0 || |ks| < limit)
      invariant rest <= m.Keys
      invariant Elements(ks) == due - rest
      invariant forall i :: 0 <= i < |ks| ==> ks[i] in due
      invariant |Elements(ks)| == |ks|
      invariant Distinct(ks)
      invariant limit == 0 || |ks| <= limit
      decreases rest
    {
      var k :| k in rest;
      if keep(m[k]) {
        assert k in due && k !in Elements(ks);
        assert forall i :: 0 <= i < |ks| ==> ks[i] != k;
        assert Elements(ks + [k]) == Elements(ks) + {k};
        ks := ks + [k];
      } else {
        assert k !in due;
      }
      rest := rest - {k};
    }
    SubsetCardinality(Elements(ks), due);
    assert rest == {} ==> Elements(ks) == due;
  }

  /**
   * The values under the given keys, each passed through `f` together with
   * its key, in the order of the keys: a cursor drained into a slice.
   */
  method Drain<V, U>(m: map<string, V>, ks: seq<string>, f: (string, V) -> U) returns (us: seq<U>)
    requires forall i :: 0 <= i < |ks| ==> ks[i] in m
    ensures |us| == |ks|
    ensures forall i :: 0 <= i < |ks| ==> us[i] == f(ks[i], m[ks[i]])
  {
    us := [];
    var i := 0;
    while i < |ks|
      invariant 0 <= i <= |ks|
      invariant |us| == i
      invariant forall j :: 0 <= j < i ==> us[j] == f(ks[j], m[ks[j]])
    {
      us := us + [f(ks[i], m[ks[i]])];
      i := i + 1;
    }
  }
}
