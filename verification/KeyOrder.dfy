/** The ordered iteration of a `BTreeMap` keyed by `(PageKey, Lsn)`. */
module KeyOrder {
  import opened Common
  import opened Pages

  function ForkNumber(f: Fork): byte {
    match f
    case Main => 0
    case Fsm => 1
    case VisibilityMap => 2
    case Init => 3
  }

  /** The fields of a key in derive order: relation, block, then LSN. */
  function Fields(k: VersionKey): seq<nat> {
    var r := k.page.rel;
    [r.spcNode, r.dbNode, r.relNode, ForkNumber(r.fork), k.page.block, k.lsn]
  }

  predicate LexLess(a: seq<nat>, b: seq<nat>)
    requires |a| == |b|
  {
    a != [] && (a[0] < b[0] || (a[0] == b[0] && LexLess(a[1..], b[1..])))
  }

  predicate Less(a: VersionKey, b: VersionKey) {
    LexLess(Fields(a), Fields(b))
  }

  lemma {:induction false} LexTrichotomy(a: seq<nat>, b: seq<nat>)
    requires |a| == |b|
    ensures a == b ==> !LexLess(a, b)
    ensures a != b ==> (LexLess(a, b) <==> !LexLess(b, a))
  {
    if a != [] {
      LexTrichotomy(a[1..], b[1..]);
      if a[0] == b[0] {
        assert a == [a[0]] + a[1..] && b == [b[0]] + b[1..];
      }
    }
  }

  lemma {:induction false} LexTransitive(a: seq<nat>, b: seq<nat>, c: seq<nat>)
    requires |a| == |b| == |c| && LexLess(a, b) && LexLess(b, c)
    ensures LexLess(a, c)
  {
    if a[0] == b[0] == c[0] {
      LexTransitive(a[1..], b[1..], c[1..]);
    }
  }

  lemma Trichotomy(a: VersionKey, b: VersionKey)
    ensures !Less(a, a)
    ensures a != b ==> (Less(a, b) <==> !Less(b, a))
  {
    LexTrichotomy(Fields(a), Fields(a));
    LexTrichotomy(Fields(a), Fields(b));
    if Fields(a) == Fields(b) {
      assert forall i :: 0 <= i < 6 ==> Fields(a)[i] == Fields(b)[i];
      assert Fields(a)[0] == Fields(b)[0] && Fields(a)[1] == Fields(b)[1] && Fields(a)[2] == Fields(b)[2];
      assert Fields(a)[3] == Fields(b)[3] && Fields(a)[4] == Fields(b)[4] && Fields(a)[5] == Fields(b)[5];
      assert a.page.rel.fork == b.page.rel.fork;
    }
  }

  /** Versions of one page come out in LSN order. */
  lemma SamePageByLsn(a: VersionKey, b: VersionKey)
    requires a.page == b.page
    ensures Less(a, b) <==> a.lsn < b.lsn
  {
    var x, y := Fields(a), Fields(b);
    assert x[1..][1..][1..][1..][1..] == [a.lsn] && y[1..][1..][1..][1..][1..] == [b.lsn];
    assert LexLess([a.lsn], [b.lsn]) <==> a.lsn < b.lsn;
    assert LexLess(x[1..][1..][1..][1..], y[1..][1..][1..][1..]) <==> a.lsn < b.lsn;
    assert LexLess(x[1..][1..][1..], y[1..][1..][1..]) <==> a.lsn < b.lsn;
    assert LexLess(x[1..][1..], y[1..][1..]) <==> a.lsn < b.lsn;
    assert LexLess(x[1..], y[1..]) <==> a.lsn < b.lsn;
  }

  predicate IsLeast(k: VersionKey, ks: set<VersionKey>) {
    k in ks && forall x :: x in ks && x != k ==> Less(k, x)
  }

  lemma {:induction false} LeastExists(ks: set<VersionKey>)
    requires ks != {}
    ensures exists k :: IsLeast(k, ks)
    decreases |ks|
  {
    var x :| x in ks;
    var rest := ks - {x};
    assert forall y :: y in ks && y != x ==> y in rest;
    if rest == {} {
      assert IsLeast(x, ks);
    } else {
      LeastExists(rest);
      var k :| IsLeast(k, rest);
      Trichotomy(k, x);
      if Less(k, x) {
        assert IsLeast(k, ks);
      } else {
        forall y | y in ks && y != x
          ensures Less(x, y)
        {
          if y != k {
            LexTransitive(Fields(x), Fields(k), Fields(y));
          }
        }
        assert IsLeast(x, ks);
      }
    }
  }

  function Least(ks: set<VersionKey>): (k: VersionKey)
    requires ks != {}
    ensures IsLeast(k, ks)
  {
    LeastExists(ks);
    assert forall a, b :: IsLeast(a, ks) && IsLeast(b, ks) ==> a == b by {
      forall a, b | IsLeast(a, ks) && IsLeast(b, ks)
        ensures a == b
      {
        Trichotomy(a, b);
      }
    }
    var k :| IsLeast(k, ks);
    k
  }

  /** The keys in ascending order: every key exactly once. */
  function SortedKeys(ks: set<VersionKey>): (s: seq<VersionKey>)
    ensures forall k :: k in s <==> k in ks
    ensures forall i, j :: 0 <= i < j < |s| ==> Less(s[i], s[j])
    ensures |s| == |ks|
    decreases |ks|
  {
    if ks == {} then []
    else
      hide Least, Less;
      var k := Least(ks);
      [k] + SortedKeys(ks - {k})
  }
}
