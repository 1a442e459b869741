/** Reading the report map: its values come in no fixed order, and the pages sort them by node id. */
module Snapshot {
  import opened Prelude
  import opened Wire
  import opened Fleet
  import opened Store

  /** `order` lists the keys of `m`, each once, and `v` their entries. */
  ghost predicate EnumeratedBy(m: Reports, v: seq<StoredReport>, order: seq<string>) {
    && multiset(order) == multiset(m.Keys)
    && |v| == |order|
    && forall i :: 0 <= i < |v| ==> order[i] in m && v[i] == m[order[i]]
  }

  /** `v` is one of the orders in which the map may hand out its entries. */
  ghost predicate Enumerates(m: Reports, v: seq<StoredReport>) {
    exists order :: EnumeratedBy(m, v, order)
  }

  /** String order, character by character. */
  predicate StrLe(a: string, b: string) {
    a == "" || (b != "" && (a[0] < b[0] || (a[0] == b[0] && StrLe(a[1..], b[1..]))))
  }

  /** `a` is a prefix of `b`, or smaller at the first character where they differ. */
  lemma {:induction false} StrLeIff(a: string, b: string)
    ensures StrLe(a, b) <==> a <= b || exists k: nat :: FirstDifference(a, b, k) && a[k] < b[k]
  {
    if a != "" && b != "" {
      StrLeIff(a[1..], b[1..]);
      assert a[0] == b[0] ==> (a[1..] <= b[1..] <==> a <= b) by {
        assert a == [a[0]] + a[1..] && b == [b[0]] + b[1..];
      }
      if k: nat :| FirstDifference(a[1..], b[1..], k) && a[1..][k] < b[1..][k] {
        assert a[0] == b[0] ==> FirstDifference(a, b, k + 1);
      }
      if k: nat :| FirstDifference(a, b, k) && a[k] < b[k] {
        assert k > 0 ==> a[0] == a[..k][0] == b[..k][0] == b[0];
        assert k > 0 ==> a[1..][..k - 1] == a[..k][1..] && b[1..][..k - 1] == b[..k][1..];
        assert k > 0 ==> FirstDifference(a[1..], b[1..], k - 1);
      }
      if a[0] < b[0] {
        assert FirstDifference(a, b, 0);
      }
    }
  }

  ghost predicate FirstDifference(a: string, b: string, k: nat) {
    k < |a| && k < |b| && a[..k] == b[..k] && a[k] != b[k]
  }

  ghost predicate SortedByNode(v: seq<StoredReport>) {
    forall i, j :: 0 <= i < j < |v| ==> StrLe(v[i].report.nodeId, v[j].report.nodeId)
  }

  /** What the pages are rendered from. */
  ghost predicate IsSnapshot(m: Reports, v: seq<StoredReport>) {
    Enumerates(m, v) && SortedByNode(v)
  }

  ghost predicate KeysAreNodeIds(m: Reports) {
    forall node :: node in m ==> m[node].report.nodeId == node
  }

  lemma EachKeyOnce(m: Reports, order: seq<string>)
    requires multiset(order) == multiset(m.Keys)
    ensures NoDuplicates(order)
    ensures forall node :: node in order <==> node in m
  {
    forall i, j | 0 <= i < j < |order|
      ensures order[i] != order[j]
    {
      assert order == order[..j] + order[j..];
      assert order[i] in multiset(order[..j]) && order[j] in multiset(order[j..]);
      assert multiset(order)[order[j]] <= 1;
    }
    forall node
      ensures node in order <==> node in m
    {
      assert node in order <==> node in multiset(order);
    }
  }

  lemma {:induction false} StrLeAntisymmetric(a: string, b: string)
    requires StrLe(a, b) && StrLe(b, a)
    ensures a == b
  {
    if a != "" {
      StrLeAntisymmetric(a[1..], b[1..]);
      assert a == [a[0]] + a[1..] && b == [b[0]] + b[1..];
    }
  }

  lemma {:induction false} SortedListingIsUnique(o1: seq<string>, o2: seq<string>)
    requires NoDuplicates(o1) && NoDuplicates(o2)
    requires forall x :: x in o1 <==> x in o2
    requires forall i, j :: 0 <= i < j < |o1| ==> StrLe(o1[i], o1[j])
    requires forall i, j :: 0 <= i < j < |o2| ==> StrLe(o2[i], o2[j])
    ensures o1 == o2
  {
    assert o1 == [] || o1[0] in o1;
    assert o2 == [] || o2[0] in o2;
    if o1 != [] {
      var n1, n2 := |o1| - 1, |o2| - 1;
      var x1, x2 := o1[n1], o2[n2];
      assert x1 in o2 && x2 in o1;
      if x1 != x2 {
        var i :| 0 <= i < |o2| && o2[i] == x1;
        var j :| 0 <= j < |o1| && o1[j] == x2;
        StrLeAntisymmetric(x1, x2);
      }
      assert o1 == o1[..n1] + [x1] && o2 == o2[..n2] + [x2];
      forall x
        ensures x in o1[..n1] <==> x in o2[..n2]
      {
        assert x in o1[..n1] <==> x in o1 && x != x1;
        assert x in o2[..n2] <==> x in o2 && x != x2;
      }
      SortedListingIsUnique(o1[..n1], o2[..n2]);
    }
  }

  /** Whatever order the map hands out its entries in, the pages see one and the same list. */
  lemma SnapshotIsUnique(m: Reports, v1: seq<StoredReport>, v2: seq<StoredReport>)
    requires KeysAreNodeIds(m) && IsSnapshot(m, v1) && IsSnapshot(m, v2)
    ensures v1 == v2
  {
    var o1 :| EnumeratedBy(m, v1, o1);
    var o2 :| EnumeratedBy(m, v2, o2);
    EachKeyOnce(m, o1);
    EachKeyOnce(m, o2);
    assert forall i :: 0 <= i < |o1| ==> o1[i] == v1[i].report.nodeId;
    assert forall i :: 0 <= i < |o2| ==> o2[i] == v2[i].report.nodeId;
    SortedListingIsUnique(o1, o2);
  }

  lemma EnumerationHasEntry(m: Reports, v: seq<StoredReport>, node: string) returns (n: nat)
    requires Enumerates(m, v) && node in m
    ensures n < |v| && v[n] == m[node]
  {
    var order :| EnumeratedBy(m, v, order);
    EachKeyOnce(m, order);
    n :| 0 <= n < |order| && order[n] == node;
  }

  lemma EnumerationIsFromMap(m: Reports, v: seq<StoredReport>, n: nat) returns (node: string)
    requires Enumerates(m, v) && n < |v|
    ensures node in m && v[n] == m[node]
  {
    var order :| EnumeratedBy(m, v, order);
    node := order[n];
  }
}
