/** Counting gc keys: a call names one key per address at most, and counts right when it names none twice. */
module LocalstoreKeys {
  import opened Common
  import opened Localstore

  type Keys = seq<Option<GcKey>>

  function KeySet(ks: Keys): set<GcKey> { set i | 0 <= i < |ks| && ks[i].Some? :: ks[i].value }

  function KeyCount(ks: Keys): nat {
    if ks == [] then 0 else KeyCount(ks[..|ks| - 1]) + if ks[|ks| - 1].Some? then 1 else 0
  }

  predicate Twice(ks: Keys) { exists i, j :: 0 <= i < j < |ks| && ks[i].Some? && ks[i] == ks[j] }

  lemma KeySetNext(ks: Keys, n: nat)
    requires n < |ks|
    ensures KeySet(ks[..n + 1]) == KeySet(ks[..n]) + if ks[n].Some? then {ks[n].value} else {}
    ensures KeyCount(ks[..n + 1]) == KeyCount(ks[..n]) + if ks[n].Some? then 1 else 0
  {
    var p, q := ks[..n], ks[..n + 1];
    assert q[..n] == p;
    forall k | k in KeySet(q) ensures k in KeySet(p) || ks[n] == Some(k) {
      var i :| 0 <= i < |q| && q[i].Some? && q[i].value == k;
      if i < n { assert p[i] == q[i]; }
    }
    forall k | k in KeySet(p) ensures k in KeySet(q) {
      var i :| 0 <= i < |p| && p[i].Some? && p[i].value == k;
      assert q[i] == p[i];
    }
    assert ks[n].Some? ==> q[n].value in KeySet(q);
  }

  /** There are as many keys as entries exactly when none is named twice. */
  lemma {:induction false} CountKeys(ks: Keys, n: nat)
    requires n <= |ks|
    ensures |KeySet(ks[..n])| <= KeyCount(ks[..n])
    ensures |KeySet(ks[..n])| == KeyCount(ks[..n]) <==> !Twice(ks[..n])
    ensures KeyCount(ks[..n]) > 0 ==> KeySet(ks[..n]) != {}
  {
    if n > 0 {
      CountKeys(ks, n - 1);
      KeySetNext(ks, n - 1);
      TwiceNext(ks, n - 1);
      hide KeySet, KeyCount, Twice;
    }
  }

  lemma TwiceNext(ks: Keys, n: nat)
    requires n < |ks|
    ensures Twice(ks[..n + 1]) <==> Twice(ks[..n]) || (ks[n].Some? && ks[n].value in KeySet(ks[..n]))
  {
    var p, q := ks[..n], ks[..n + 1];
    assert forall i :: 0 <= i < n ==> p[i] == q[i];
    if ks[n].Some? && ks[n].value in KeySet(p) {
      var i :| 0 <= i < |p| && p[i].Some? && p[i].value == ks[n].value;
      assert q[i] == q[n];
    }
    if Twice(q) && !Twice(p) {
      var i, j :| 0 <= i < j < |q| && q[i].Some? && q[i] == q[j];
      assert j == n && p[i].value in KeySet(p);
    }
    if Twice(p) {
      var i, j :| 0 <= i < j < |p| && p[i].Some? && p[i] == p[j];
      assert q[i] == q[j];
    }
  }

  lemma Sizes(s: set<GcKey>, m: set<GcKey>)
    ensures m <= s ==> |s - m| == |s| - |m|
    ensures m !! s ==> |s + m| == |s| + |m|
    ensures |s + m| >= |s| && (|s + m| == |s| <==> m <= s)
  {
    if m <= s { assert s == (s - m) + m; assert s + m == s; }
    assert s + m == s + (m - s) && |s + (m - s)| == |s| + |m - s|;
    if !(m <= s) { var x :| x in m && x !in s; assert x in m - s; }
  }
}
