/** pkg/shed: walking the sorted keys of the database by prefix. */
module Shed {
  import opened Common
  import opened Uints

  type Key = seq<Byte>

  /** Lexicographic order. */
  predicate Less(a: Key, b: Key) {
    b != [] && (a == [] || a[0] < b[0] || (a[0] == b[0] && Less(a[1..], b[1..])))
  }

  predicate Sorted(keys: seq<Key>) { forall i, j :: 0 <= i < j < |keys| ==> Less(keys[i], keys[j]) }

  predicate HasPrefix(k: Key, p: Key) { |p| <= |k| && k[..|p|] == p }

  /** The least key above all keys that begin with p, or nothing when p is all 0xFF. */
  function Above(p: Key): Option<Key> {
    if p == [] then None
    else match Above(p[1..])
      case Some(q) => Some([p[0]] + q)
      case None => if p[0] == 255 then None else Some([p[0] + 1])
  }

  predicate AllFF(p: Key) { forall i :: 0 <= i < |p| ==> p[i] == 255 }

  lemma {:induction false} LessTrans(a: Key, b: Key, c: Key)
    requires Less(a, b) && Less(b, c)
    ensures Less(a, c)
  {
    if a != [] && a[0] == b[0] == c[0] { LessTrans(a[1..], b[1..], c[1..]); }
  }

  lemma {:induction false} LessTotal(a: Key, b: Key)
    ensures a == b || Less(a, b) || Less(b, a)
    ensures !(Less(a, b) && Less(b, a)) && !Less(a, a)
  {
    if a != [] && b != [] {
      LessTotal(a[1..], b[1..]);
      assert a == [a[0]] + a[1..] && b == [b[0]] + b[1..];
    }
    if a != [] { LessTotal(a[1..], a[1..]); }
  }

  lemma {:induction false} AboveNone(p: Key)
    ensures Above(p).None? <==> AllFF(p)
  {
    if p != [] {
      AboveNone(p[1..]);
      assert AllFF(p) <==> p[0] == 255 && AllFF(p[1..]) by {
        assert p == [p[0]] + p[1..];
      }
    }
  }

  /** A key begins with p exactly when it lies from p on and below Above(p). */
  lemma {:induction false} PrefixRange(k: Key, p: Key)
    ensures HasPrefix(k, p) <==> !Less(k, p) && (Above(p).None? || Less(k, Above(p).value))
  {
    if p != [] && k != [] {
      PrefixRange(k[1..], p[1..]);
      assert HasPrefix(k, p) <==> k[0] == p[0] && HasPrefix(k[1..], p[1..]) by {
        if k[0] == p[0] && HasPrefix(k[1..], p[1..]) {
          assert k[..|p|] == [k[0]] + k[1..][..|p| - 1] && p == [p[0]] + p[1..];
        }
        if HasPrefix(k, p) { assert k[..|p|][0] == p[0] && k[1..][..|p| - 1] == k[..|p|][1..]; }
      }
    }
  }

  lemma {:induction false} AboveIs(p: Key, i: nat)
    requires i < |p| && p[i] < 255 && AllFF(p[i + 1..])
    ensures Above(p) == Some(p[..i] + [p[i] + 1])
  {
    if i == 0 {
      AboveNone(p[1..]);
      assert p[..0] + [p[0] + 1] == [p[0] + 1];
    } else {
      assert p[1..][i - 1 + 1..] == p[i + 1..];
      AboveIs(p[1..], i - 1);
      assert [p[0]] + (p[1..][..i - 1] + [p[i] + 1]) == p[..i] + [p[i] + 1];
    }
  }

  method BytesIncrement(bytes: Key) returns (r: Option<Key>)
    ensures r == Above(bytes)
  {
    var b := new Byte[|bytes|](j requires 0 <= j < |bytes| => bytes[j]);
    var i := |bytes| - 1;
    while i >= 0
      invariant -1 <= i < |bytes| && b[..] == bytes && AllFF(bytes[i + 1..])
    {
      if b[i] == 0xFF {
        i := i - 1;
        continue;
      }
      AboveIs(bytes, i);
      b[i] := b[i] + 1;
      assert b[..i + 1] == bytes[..i] + [bytes[i] + 1];
      return Some(b[..i + 1]);
    }
    AboveNone(bytes);
    r := None;
  }

  /** The next key of the same length. */
  function Successor(p: Key): Key {
    if Above(p).None? then [] else Above(p).value + ZeroBytes(|p| - |Above(p).value|)
  }

  function ZeroBytes(n: int): (z: Key)
    ensures |z| == Max(n, 0) && forall i :: 0 <= i < |z| ==> z[i] == 0
  {
    seq(Max(n, 0), _ => 0)
  }

  method IncByteSlice(b: Key) returns (r: Option<Key>)
    ensures r == if AllFF(b) then None else Some(Successor(b))
  {
    hide Above, Successor;
    var next := new Byte[|b|](j requires 0 <= j < |b| => b[j]);
    var i := |b| - 1;
    while i >= 0
      invariant -1 <= i < |b| && AllFF(b[i + 1..])
      invariant next[..] == b[..i + 1] + ZeroBytes(|b| - 1 - i)
    {
      if b[i] == 255 {
        next[i] := 0;
        assert next[..] == b[..i] + ZeroBytes(|b| - i);
      } else {
        next[i] := b[i] + 1;
        assert next[..] == b[..i] + [b[i] + 1] + ZeroBytes(|b| - 1 - i);
        SuccessorIs(b, i);
        return Some(next[..]);
      }
      i := i - 1;
    }
    r := None;
  }

  /** It is one more as a number. */
  lemma {:induction false} SuccessorIsNext(b: Key)
    requires !AllFF(b)
    ensures |Successor(b)| == |b| && UintValue(Successor(b)) == UintValue(b) + 1
  {
    hide Above, Successor;
    var n := |b| - 1;
    if b[n] < 255 {
      SuccessorIs(b, n);
      assert Successor(b)[..n] == b[..n] && Successor(b) == b[..n] + [b[n] + 1];
    } else {
      var i :| 0 <= i < n && b[i] < 255 && AllFF(b[i + 1..]) by { LastSmall(b, n); }
      assert b[..n][i + 1..] == b[i + 1..][..n - 1 - i];
      SuccessorIs(b, i);
      SuccessorIs(b[..n], i);
      SuccessorIsNext(b[..n]);
      assert Successor(b) == Successor(b[..n]) + [0];
      assert Successor(b)[..n] == Successor(b[..n]);
    }
  }

  lemma {:induction false} LastSmall(b: Key, n: nat)
    requires n <= |b| && AllFF(b[n..]) && !AllFF(b)
    ensures exists i :: 0 <= i < n && b[i] < 255 && AllFF(b[i + 1..])
  {
    assert b[0..] == b;
    if b[n - 1] == 255 {
      assert b[n - 1..] == [b[n - 1]] + b[n..];
      LastSmall(b, n - 1);
    } else {
      assert b[n - 1] < 255 && AllFF(b[n - 1 + 1..]);
    }
  }

  lemma SuccessorIs(b: Key, i: nat)
    requires i < |b| && b[i] < 255 && AllFF(b[i + 1..])
    ensures Successor(b) == b[..i] + [b[i] + 1] + ZeroBytes(|b| - 1 - i) && !AllFF(b)
  {
    hide Above;
    AboveIs(b, i);
  }

  /** An iterator of the database: a snapshot of its keys and a position, before the first (-1) to behind the last. */
  class Cursor {
    const keys: seq<Key>
    var pos: int

    constructor (keys: seq<Key>)
      ensures this.keys == keys && pos == -1
    {
      this.keys := keys;
      pos := -1;
    }

    predicate Valid()
      reads this
    {
      0 <= pos < |keys|
    }

    function Key(): Key
      reads this
    {
      if Valid() then keys[pos] else []
    }

    /** Moves to the first key that is not below k. */
    method Seek(k: Key) returns (ok: bool)
      requires Sorted(keys)
      modifies this
      ensures AtRank(keys, k, pos) && (ok <==> pos < |keys|)
    {
      hide Less;
      pos := 0;
      while pos < |keys| && Less(keys[pos], k)
        invariant 0 <= pos <= |keys| && forall j :: 0 <= j < pos ==> Less(keys[j], k)
        decreases |keys| - pos
      {
        pos := pos + 1;
      }
      if pos < |keys| { NoneBelow(keys, k, pos); }
      ok := pos < |keys|;
    }

    method Last() returns (ok: bool)
      modifies this
      ensures pos == |keys| - 1 && (ok <==> keys != [])
    {
      pos := |keys| - 1;
      ok := pos >= 0;
    }

    method Next() returns (ok: bool)
      requires -1 <= pos <= |keys|
      modifies this
      ensures pos == Min(old(pos) + 1, |keys|) && (ok <==> pos < |keys|)
    {
      if pos < |keys| { pos := pos + 1; }
      ok := pos < |keys|;
    }

    method Prev() returns (ok: bool)
      requires -1 <= pos <= |keys|
      modifies this
      ensures pos == Max(old(pos) - 1, -1) && (ok <==> pos >= 0)
    {
      if pos >= 0 { pos := pos - 1; }
      ok := pos >= 0;
    }
  }

  /** Exactly the first n keys are below k. */
  ghost predicate AtRank(keys: seq<Key>, k: Key, n: int) {
    0 <= n <= |keys| && forall j :: 0 <= j < |keys| ==> (j < n <==> Less(keys[j], k))
  }

  lemma NoneBelow(keys: seq<Key>, k: Key, n: nat)
    requires Sorted(keys) && n < |keys| && !Less(keys[n], k)
    ensures forall j :: n <= j < |keys| ==> !Less(keys[j], k)
  {
    hide Less;
    forall j | n <= j < |keys| ensures !Less(keys[j], k) {
      if Less(keys[j], k) && n < j { LessTrans(keys[n], keys[j], k); }
    }
  }

  /** A key that an iteration from start over a prefix is to visit. */
  predicate Wanted(keys: seq<Key>, prefix: Key, start: Key, skip: bool, k: Key) {
    k in keys && HasPrefix(k, prefix) && !Less(k, start) && !(skip && k == start)
  }

  /** The visited keys are the first wanted ones in order, all of them unless the last one visited stops the
      iteration. */
  ghost predicate Visits(keys: seq<Key>, prefix: Key, start: Key, skip: bool, stop: Key -> bool, visited: seq<Key>) {
    && Sorted(visited)
    && (forall i ::
          0 <= i < |visited| ==>
            Wanted(keys, prefix, start, skip, visited[i]) && (i < |visited| - 1 ==> !stop(visited[i])))
    && (forall k :: Wanted(keys, prefix, start, skip, k) ==>
          k in visited || (visited != [] && stop(visited[|visited| - 1]) && Less(visited[|visited| - 1], k)))
  }

  /** No key to visit first stands between the start and the prefix. */
  predicate NoneBefore(keys: seq<Key>, prefix: Key, start: Key, skip: bool) {
    forall i :: 0 <= i < |keys| && !Less(keys[i], start) && !(skip && keys[i] == start) ==> !Less(keys[i], prefix)
  }

  function Reversed(s: seq<Key>): (r: seq<Key>)
    ensures |r| == |s|
  {
    seq(|s|, i requires 0 <= i < |s| => s[|s| - 1 - i])
  }

  /** A key that an iteration backwards over a prefix, from the start if there is one, is to visit. */
  predicate WantedDown(keys: seq<Key>, prefix: Key, start: Option<Key>, skip: bool, k: Key) {
    k in keys && HasPrefix(k, prefix) && (start.Some? ==> !Less(start.value, k) && !(skip && k == start.value))
  }

  /** The same backwards: the last wanted keys, last one first. */
  ghost predicate VisitsBack(keys: seq<Key>, prefix: Key, start: Option<Key>, skip: bool, stop: Key -> bool,
                             visited: seq<Key>) {
    && Sorted(Reversed(visited))
    && (forall i ::
          0 <= i < |visited| ==>
            WantedDown(keys, prefix, start, skip, visited[i]) && (i < |visited| - 1 ==> !stop(visited[i])))
    && (forall k :: WantedDown(keys, prefix, start, skip, k) ==>
          k in visited || (visited != [] && stop(visited[|visited| - 1]) && Less(k, visited[|visited| - 1])))
  }

  predicate NoneWantedDown(keys: seq<Key>, prefix: Key, start: Key, skip: bool) {
    forall i :: 0 <= i < |keys| ==> !WantedDown(keys, prefix, Some(start), skip, keys[i])
  }

  /** No key stands between the keys with the prefix and the start. */
  predicate NoneBehind(keys: seq<Key>, prefix: Key, start: Key, skip: bool) {
    forall i :: 0 <= i < |keys| && !Less(start, keys[i]) && !(skip && keys[i] == start) ==>
      HasPrefix(keys[i], prefix) || Less(keys[i], prefix)
  }

  /**
   * When an iteration backwards from a start is right: the start is a key and no key stands between it and the keys
   * with the prefix; or nothing was wanted and the first key from the start on, where it begins, lacks the prefix.
   */
  ghost predicate DownRight(keys: seq<Key>, prefix: Key, start: Key, skip: bool) {
    if start in keys then NoneWantedDown(keys, prefix, start, skip) || NoneBehind(keys, prefix, start, skip)
    else
      NoneWantedDown(keys, prefix, start, skip)
      && forall i :: 0 <= i < |keys| && AtRank(keys, start, i) ==> !HasPrefix(keys[i], prefix)
  }

  /** The prefix is itself a key and no longer key has it. */
  predicate OnlyPrefix(keys: seq<Key>, prefix: Key) {
    prefix in keys && forall i :: 0 <= i < |keys| && HasPrefix(keys[i], prefix) ==> keys[i] == prefix
  }

  class Index {
    const keys: seq<Key>

    constructor (keys: seq<Key>)
      ensures this.keys == keys
    {
      this.keys := keys;
    }

    /**
     * Visits the keys with a prefix. Forwards it visits what was wanted unless a key lies between start and prefix,
     * and then nothing. Backwards without a start it visits them last key first; it fails only for a prefix of
     * 0xFF bytes that the last key of the database does not have. Backwards from a start it visits what was wanted
     * exactly under DownRight.
     */
    method Iterate(prefix: Key, startFrom: Option<Key>, skip: bool, reverse: bool, stop: Key -> bool)
      returns (visited: seq<Key>, failed: bool)
      requires Sorted(keys)
      ensures !reverse ==> !failed
      ensures !reverse ==> var start := if startFrom.Some? then startFrom.value else prefix;
        if NoneBefore(keys, prefix, start, skip) then Visits(keys, prefix, start, skip, stop, visited)
        else visited == []
      ensures reverse && startFrom.None? ==>
                (failed <==> AllFF(prefix) && keys != [] && !HasPrefix(keys[|keys| - 1], prefix))
      ensures reverse && startFrom.None? && !failed ==>
                if skip && OnlyPrefix(keys, prefix) then visited == []
                else VisitsBack(keys, prefix, None, skip, stop, visited)
      ensures reverse && startFrom.Some? ==>
                && !failed
                && (VisitsBack(keys, prefix, startFrom, skip, stop, visited) <==>
                      DownRight(keys, prefix, startFrom.value, skip))
    {
      hide Less, Sorted, HasPrefix, Visits, VisitsBack, NoneBefore, AtRank, EndsAt, Run, BackRun, DownRight, OnlyPrefix,
           Reversed;
      var startKey := if startFrom.Some? then startFrom.value else prefix;
      visited := [];
      var it, ok;
      it, ok, failed := Position(prefix, startKey, startFrom.Some?, reverse);
      if !ok {
        if !reverse { NothingAfter(keys, prefix, startKey, skip, stop); }
        if reverse && startFrom.None? && !failed { NothingHas(keys, prefix, skip, stop); }
        if reverse && startFrom.Some? { NothingDown(keys, prefix, startKey, skip, stop); }
        return;
      }
      ghost var first := it.pos;
      if skip && startKey == it.Key() {
        if reverse { ok := it.Prev(); } else { ok := it.Next(); }
      }
      ghost var end;
      ghost var from := it.pos;
      if reverse {
        visited, end := WalkBack(it, ok, prefix, stop);
        if startFrom.None? {
          LastVisits(keys, prefix, skip, stop, first, from, end);
        } else {
          DownVisits(keys, prefix, startKey, skip, stop, first, from, end);
        }
      } else {
        visited, end := Walk(it, ok, prefix, stop);
        ForwardVisits(keys, prefix, startKey, skip, stop, first, from, end);
      }
    }

    /**
     * The last key with a prefix, in an index whose keys all begin with indexPrefix. The answer is right unless some
     * key stands between the keys with the prefix and the successor of the prefix; for a prefix of 0xFF bytes, or none,
     * unless the last key of the database belongs to another index.
     */
    method Last(indexPrefix: Key, prefix: Key) returns (r: Option<Key>)
      requires Sorted(keys) && indexPrefix != []
      ensures r.Some? ==> r.value in keys && HasPrefix(r.value, indexPrefix + prefix)
      ensures AllFF(prefix) ==>
                (IsLast(keys, indexPrefix + prefix, r) <==>
                   NoneHas(keys, indexPrefix + prefix) || HasPrefix(keys[|keys| - 1], indexPrefix + prefix))
      ensures !AllFF(prefix) ==>
                (IsLast(keys, indexPrefix + prefix, r) <==>
                   NoneHas(keys, indexPrefix + prefix) || NoneInside(keys, indexPrefix + prefix))
    {
      hide Less, Above, HasPrefix, Sorted, IsLast, NoneHas, NoneInside, Successor;
      var it := new Cursor(keys);
      var nextPrefix := IncByteSlice(prefix);
      var totalPrefix := indexPrefix + prefix;
      var ok;
      if |prefix| > 0 && nextPrefix.Some? {
        AboveTotal(indexPrefix, prefix);
        ok := it.Seek(indexPrefix + nextPrefix.value);
        SeekLast(keys, totalPrefix, it.pos);
        ok := it.Prev();
      } else {
        ok := it.Last();
        WholeLast(keys, totalPrefix);
      }
      EmptyKey(totalPrefix);
      if !HasPrefix(it.Key(), totalPrefix) { return None; }
      r := Some(it.Key());
    }

    /** Moves a new iterator to where the iteration begins. */
    method Position(prefix: Key, startKey: Key, hasStart: bool, reverse: bool)
      returns (it: Cursor, ok: bool, failed: bool)
      requires Sorted(keys)
      ensures fresh(it) && it.keys == keys && (ok <==> !failed && it.Valid()) && -1 <= it.pos <= |keys|
      ensures !reverse || hasStart ==> !failed && 0 <= it.pos && AtRank(keys, startKey, it.pos)
      ensures reverse && !hasStart ==> (failed <==> AllFF(prefix) && keys != [] && !HasPrefix(keys[|keys| - 1], prefix))
      ensures reverse && !hasStart && ok ==> EndsAt(keys, prefix, None, false, it.pos)
      ensures reverse && !hasStart && !ok && !failed ==> forall j :: 0 <= j < |keys| ==> !HasPrefix(keys[j], prefix)
    {
      hide Less, Sorted, HasPrefix, Above, AllFF, EndsAt;
      it := new Cursor(keys);
      ok := it.Seek(startKey);
      failed := false;
      if reverse && !hasStart {
        ok := it.Last();
        if !ok { return; }
        AboveNone(prefix);
        if HasPrefix(it.Key(), prefix) {
          LastHas(keys, prefix);
        } else {
          var incrementedPrefix := BytesIncrement(prefix);
          if incrementedPrefix.None? { return it, false, true; }
          ok := it.Seek(incrementedPrefix.value);
          EndBelow(keys, prefix, it.pos);
          if !ok { return; }
          ok := it.Prev();
        }
      }
    }

    /** Visits keys from the iterator on, as long as they have the prefix and none stops it. */
    method Walk(it: Cursor, start: bool, prefix: Key, stop: Key -> bool) returns (visited: seq<Key>, ghost end: int)
      requires it.keys == keys && 0 <= it.pos <= |keys| && (start <==> it.Valid())
      modifies it
      ensures Run(keys, prefix, stop, old(it.pos), end) && visited == keys[old(it.pos)..end]
    {
      hide HasPrefix;
      visited := [];
      var ok := start;
      while ok
        invariant old(it.pos) <= it.pos <= |keys| && (ok <==> it.Valid()) && visited == keys[old(it.pos)..it.pos]
        invariant forall j :: old(it.pos) <= j < it.pos ==> HasPrefix(keys[j], prefix) && !stop(keys[j])
        decreases |keys| - it.pos
      {
        if !HasPrefix(it.Key(), prefix) { return visited, it.pos; }
        visited := visited + [it.Key()];
        if stop(it.Key()) { return visited, it.pos + 1; }
        ok := it.Next();
      }
      end := |keys|;
    }

    method WalkBack(it: Cursor, start: bool, prefix: Key, stop: Key -> bool) returns (visited: seq<Key>, ghost end: int)
      requires it.keys == keys && -1 <= it.pos < |keys| && (start <==> it.Valid())
      modifies it
      ensures BackRun(keys, prefix, stop, old(it.pos), end) && visited == Reversed(keys[end..old(it.pos) + 1])
    {
      hide HasPrefix, Reversed, Went;
      ghost var from := it.pos;
      visited := [];
      var ok := start;
      NothingReversed(keys, from + 1);
      WentNowhere(keys, prefix, stop, from);
      while ok
        invariant -1 <= it.pos <= from < |keys| && (ok <==> it.Valid())
                  && visited == Reversed(keys[it.pos + 1..from + 1])
        invariant Went(keys, prefix, stop, from, it.pos)
        decreases it.pos
      {
        WentOn(keys, prefix, stop, from, it.pos);
        if !HasPrefix(it.Key(), prefix) { return visited, it.pos + 1; }
        ReversedNext(keys, it.pos, from + 1);
        visited := visited + [it.Key()];
        if stop(it.Key()) { return visited, it.pos; }
        ok := it.Prev();
      }
      end := 0;
      WentAll(keys, prefix, stop, from);
    }
  }

  /** All keys after `at` up to `from` have the prefix and none stops. */
  ghost predicate Went(keys: seq<Key>, prefix: Key, stop: Key -> bool, from: int, at: int) {
    -1 <= at <= from < |keys| && forall j :: at < j <= from ==> HasPrefix(keys[j], prefix) && !stop(keys[j])
  }

  lemma WentNowhere(keys: seq<Key>, prefix: Key, stop: Key -> bool, from: int)
    requires -1 <= from < |keys|
    ensures Went(keys, prefix, stop, from, from)
  {}

  lemma WentAll(keys: seq<Key>, prefix: Key, stop: Key -> bool, from: int)
    requires Went(keys, prefix, stop, from, -1)
    ensures BackRun(keys, prefix, stop, from, 0)
  {
    hide HasPrefix;
  }

  /** One more key on the way down: the walk ends at it, with it, or goes on. */
  lemma WentOn(keys: seq<Key>, prefix: Key, stop: Key -> bool, from: int, at: int)
    requires Went(keys, prefix, stop, from, at) && 0 <= at
    ensures !HasPrefix(keys[at], prefix) ==> BackRun(keys, prefix, stop, from, at + 1)
    ensures HasPrefix(keys[at], prefix) && stop(keys[at]) ==> BackRun(keys, prefix, stop, from, at)
    ensures HasPrefix(keys[at], prefix) && !stop(keys[at]) ==> Went(keys, prefix, stop, from, at - 1)
  {
    hide HasPrefix;
  }

  /** Keys from..end have the prefix, none but the last stops, and there is a reason to end there. */
  ghost predicate Run(keys: seq<Key>, prefix: Key, stop: Key -> bool, from: int, end: int) {
    && 0 <= from <= end <= |keys|
    && (forall j :: from <= j < end ==> HasPrefix(keys[j], prefix) && (j < end - 1 ==> !stop(keys[j])))
    && (end == |keys| || !HasPrefix(keys[end], prefix) || (from < end && stop(keys[end - 1])))
  }

  lemma NothingReversed(keys: seq<Key>, i: nat)
    requires i <= |keys|
    ensures Reversed(keys[i..i]) == []
  {}

  lemma ReversedNext(keys: seq<Key>, i: nat, j: nat)
    requires i < j <= |keys|
    ensures Reversed(keys[i..j]) == Reversed(keys[i + 1..j]) + [keys[i]]
  {}

  /** The same downwards, from key `from` to key `end`. */
  ghost predicate BackRun(keys: seq<Key>, prefix: Key, stop: Key -> bool, from: int, end: int) {
    && 0 <= end <= from + 1 <= |keys|
    && (forall j :: end <= j <= from ==> HasPrefix(keys[j], prefix) && (end < j ==> !stop(keys[j])))
    && (end == 0 || !HasPrefix(keys[end - 1], prefix) || (end <= from && stop(keys[end])))
  }

  /** The wanted keys are those up to n with the prefix; key n, if there is one, has it or is below. */
  ghost predicate EndsAt(keys: seq<Key>, prefix: Key, start: Option<Key>, skip: bool, n: int) {
    && -1 <= n < |keys| && (n >= 0 ==> HasPrefix(keys[n], prefix) || Less(keys[n], prefix))
    && forall j :: 0 <= j < |keys| ==>
         (WantedDown(keys, prefix, start, skip, keys[j]) <==> j <= n && HasPrefix(keys[j], prefix))
  }

  lemma NothingAfter(keys: seq<Key>, prefix: Key, start: Key, skip: bool, stop: Key -> bool)
    requires AtRank(keys, start, |keys|)
    ensures Visits(keys, prefix, start, skip, stop, []) && NoneBefore(keys, prefix, start, skip)
  {
    hide Less, HasPrefix;
  }

  lemma NothingHas(keys: seq<Key>, prefix: Key, skip: bool, stop: Key -> bool)
    requires forall j :: 0 <= j < |keys| ==> !HasPrefix(keys[j], prefix)
    ensures VisitsBack(keys, prefix, None, skip, stop, []) && !OnlyPrefix(keys, prefix)
  {
    hide Less;
    assert HasPrefix(prefix, prefix);
    hide HasPrefix;
  }

  lemma LastHas(keys: seq<Key>, prefix: Key)
    requires keys != [] && HasPrefix(keys[|keys| - 1], prefix)
    ensures EndsAt(keys, prefix, None, false, |keys| - 1)
  {
    hide HasPrefix;
  }

  /** The keys with the prefix end before the first key that is not below Above. */
  lemma EndBelow(keys: seq<Key>, prefix: Key, n: nat)
    requires Sorted(keys) && keys != [] && !HasPrefix(keys[|keys| - 1], prefix) && Above(prefix).Some?
             && AtRank(keys, Above(prefix).value, n)
    ensures 0 < n < |keys| ==> EndsAt(keys, prefix, None, false, n - 1)
    ensures n == 0 || n == |keys| ==> forall j :: 0 <= j < |keys| ==> !HasPrefix(keys[j], prefix)
  {
    hide Less, HasPrefix, Above;
    forall j | 0 <= j < |keys| { PrefixRange(keys[j], prefix); }
    if n == |keys| {
      forall j | 0 <= j < |keys| - 1 ensures !HasPrefix(keys[j], prefix) {
        assert Less(keys[j], keys[|keys| - 1]);
        if HasPrefix(keys[j], prefix) { LessTrans(keys[j], keys[|keys| - 1], prefix); }
      }
    }
  }

  /** Keys with a prefix lie next to each other. */
  lemma Between(p: Key, a: Key, b: Key)
    requires !Less(a, p) && Less(a, b) && HasPrefix(b, p)
    ensures HasPrefix(a, p)
  {
    hide Less, HasPrefix, Above;
    PrefixRange(a, p);
    PrefixRange(b, p);
    if Above(p).Some? { LessTrans(a, b, Above(p).value); }
  }

  lemma BackwardVisits(keys: seq<Key>, prefix: Key, start: Option<Key>, skip: bool, stop: Key -> bool, n: int, end: int)
    requires Sorted(keys) && EndsAt(keys, prefix, start, skip, n) && BackRun(keys, prefix, stop, n, end)
    ensures VisitsBack(keys, prefix, start, skip, stop, Reversed(keys[end..n + 1]))
  {
    hide Less, HasPrefix, WantedDown, EndsAt, Reversed;
    var r := Reversed(keys[end..n + 1]);
    ReversedSorted(keys, end, n + 1);
    hide Sorted;
    forall i | 0 <= i < |r|
      ensures WantedDown(keys, prefix, start, skip, r[i]) && (i < |r| - 1 ==> !stop(r[i]))
    {
      BackWanted(keys, prefix, start, skip, stop, n, end, i);
    }
    hide BackRun;
    forall k | WantedDown(keys, prefix, start, skip, k)
      ensures k in r || (r != [] && stop(r[|r| - 1]) && Less(k, r[|r| - 1]))
    {
      BackReaches(keys, prefix, start, skip, stop, n, end, k);
    }
  }

  lemma ReversedSorted(keys: seq<Key>, from: nat, to: nat)
    requires Sorted(keys) && from <= to <= |keys|
    ensures Sorted(Reversed(Reversed(keys[from..to])))
  {
    hide Less;
    assert Reversed(Reversed(keys[from..to])) == keys[from..to];
  }

  lemma BackWanted(keys: seq<Key>, prefix: Key, start: Option<Key>, skip: bool, stop: Key -> bool, n: int, end: int,
                   i: nat)
    requires EndsAt(keys, prefix, start, skip, n) && BackRun(keys, prefix, stop, n, end) && i < n + 1 - end
    ensures var r := Reversed(keys[end..n + 1]);
            WantedDown(keys, prefix, start, skip, r[i]) && (i < |r| - 1 ==> !stop(r[i]))
  {
    hide Less, HasPrefix, WantedDown;
    assert Reversed(keys[end..n + 1])[i] == keys[n - i];
  }

  lemma BackReaches(keys: seq<Key>, prefix: Key, start: Option<Key>, skip: bool, stop: Key -> bool, n: int, end: int,
                    k: Key)
    requires Sorted(keys) && EndsAt(keys, prefix, start, skip, n) && BackRun(keys, prefix, stop, n, end)
    requires WantedDown(keys, prefix, start, skip, k)
    ensures var r := Reversed(keys[end..n + 1]); k in r || (r != [] && stop(r[|r| - 1]) && Less(k, r[|r| - 1]))
  {
    hide Less, HasPrefix;
    var r := Reversed(keys[end..n + 1]);
    var j :| 0 <= j < |keys| && keys[j] == k;
    hide WantedDown;
    assert j <= n && HasPrefix(keys[j], prefix);
    if end <= j {
      assert r[n - j] == k;
    } else {
      NotSkipped(keys, prefix, stop, n, end, j);
      assert r[|r| - 1] == keys[end] && Less(keys[j], keys[end]);
    }
  }

  /** A key with the prefix before `end` is only left out because the walk was stopped at `end`. */
  lemma NotSkipped(keys: seq<Key>, prefix: Key, stop: Key -> bool, n: int, end: int, j: int)
    requires Sorted(keys) && BackRun(keys, prefix, stop, n, end)
    requires n >= 0 ==> HasPrefix(keys[n], prefix) || Less(keys[n], prefix)
    requires 0 <= j < end && HasPrefix(keys[j], prefix)
    ensures end <= n && stop(keys[end])
  {
    hide Less, HasPrefix;
    var m := keys[end - 1];
    assert j < end - 1 ==> Less(keys[j], m);
    PrefixRange(keys[j], prefix);
    if j < end - 1 && Less(m, prefix) { LessTrans(keys[j], m, prefix); }
    if end <= n && j < end - 1 && !Less(m, prefix) {
      assert Less(m, keys[end]);
      Between(prefix, m, keys[end]);
    }
  }

  /** Backwards without a start; skip only matters when the prefix is the one key found. */
  lemma LastVisits(keys: seq<Key>, prefix: Key, skip: bool, stop: Key -> bool, n: int, from: int, end: int)
    requires Sorted(keys) && EndsAt(keys, prefix, None, false, n) && 0 <= n < |keys|
    requires from == if skip && prefix == keys[n] then n - 1 else n
    requires BackRun(keys, prefix, stop, from, end)
    ensures var r := Reversed(keys[end..from + 1]);
      if skip && OnlyPrefix(keys, prefix) then r == [] else VisitsBack(keys, prefix, None, skip, stop, r)
  {
    hide Less, HasPrefix;
    PrefixFirst(keys, prefix, n);
    if from == n {
      assert EndsAt(keys, prefix, None, skip, n);
      hide EndsAt, VisitsBack, OnlyPrefix;
      BackwardVisits(keys, prefix, None, skip, stop, n, end);
    } else {
      assert from >= 0 ==> !HasPrefix(keys[from], prefix);
    }
  }

  /** Only the last of the keys with a prefix can be alone, and it is when it is the prefix itself. */
  lemma PrefixFirst(keys: seq<Key>, prefix: Key, n: int)
    requires Sorted(keys) && EndsAt(keys, prefix, None, false, n) && 0 <= n
    ensures keys[n] == prefix <==> OnlyPrefix(keys, prefix)
    ensures keys[n] == prefix ==> forall j :: 0 <= j < n ==> !HasPrefix(keys[j], prefix)
  {
    assert HasPrefix(prefix, prefix);
    hide Less, HasPrefix;
    if keys[n] == prefix {
      forall j | 0 <= j < n ensures !HasPrefix(keys[j], prefix) {
        assert Less(keys[j], keys[n]);
        PrefixRange(keys[j], prefix);
      }
    }
    if OnlyPrefix(keys, prefix) {
      var i :| 0 <= i < |keys| && keys[i] == prefix;
      assert HasPrefix(keys[i], prefix) && i <= n;
      assert i < n ==> Less(prefix, keys[n]);
      PrefixRange(keys[n], prefix);
      LessTotal(prefix, keys[n]);
    }
  }

  /** No key from the start on: nothing is visited, which is right if nothing was wanted. */
  lemma NothingDown(keys: seq<Key>, prefix: Key, start: Key, skip: bool, stop: Key -> bool)
    requires Sorted(keys) && AtRank(keys, start, |keys|)
    ensures VisitsBack(keys, prefix, Some(start), skip, stop, []) <==> DownRight(keys, prefix, start, skip)
  {
    hide Less, HasPrefix;
    LessTotal(start, start);
    assert start !in keys;
    assert forall i :: 0 <= i < |keys| ==> Less(keys[i], start);
    NothingVisited(keys, prefix, start, skip, stop);
  }

  lemma NothingVisited(keys: seq<Key>, prefix: Key, start: Key, skip: bool, stop: Key -> bool)
    ensures VisitsBack(keys, prefix, Some(start), skip, stop, []) <==> NoneWantedDown(keys, prefix, start, skip)
  {
    hide Less, HasPrefix;
    assert Sorted(Reversed([]));
  }

  /** Backwards from a start. */
  lemma DownVisits(keys: seq<Key>, prefix: Key, start: Key, skip: bool, stop: Key -> bool, n: int, from: int, end: int)
    requires Sorted(keys) && 0 <= n < |keys| && AtRank(keys, start, n)
    requires from == if skip && start == keys[n] then n - 1 else n
    requires BackRun(keys, prefix, stop, from, end)
    ensures VisitsBack(keys, prefix, Some(start), skip, stop, Reversed(keys[end..from + 1])) <==>
              DownRight(keys, prefix, start, skip)
  {
    hide Less, HasPrefix, Sorted, AtRank, BackRun, VisitsBack, DownRight, Reversed;
    StartAt(keys, start, n);
    if keys[n] == start {
      HeldVisits(keys, prefix, start, skip, stop, n, from, end);
    } else {
      UnheldVisits(keys, prefix, start, skip, stop, n, end);
    }
  }

  lemma StartAt(keys: seq<Key>, start: Key, n: int)
    requires Sorted(keys) && AtRank(keys, start, n) && n < |keys|
    ensures start in keys <==> keys[n] == start
    ensures forall j :: 0 <= j < |keys| ==> (Less(start, keys[j]) <==> n < j || (j == n && keys[n] != start))
  {
    hide Less;
    LessTotal(start, keys[n]);
    forall j | 0 <= j < |keys| ensures Less(start, keys[j]) <==> n < j || (j == n && keys[n] != start) {
      LessTotal(start, keys[j]);
      if n < j && keys[n] != start { LessTrans(start, keys[n], keys[j]); }
    }
    LessTotal(start, start);
  }

  lemma HeldVisits(keys: seq<Key>, prefix: Key, start: Key, skip: bool, stop: Key -> bool, n: int, from: int, end: int)
    requires Sorted(keys) && AtRank(keys, start, n) && n < |keys| && keys[n] == start
    requires from == if skip then n - 1 else n
    requires BackRun(keys, prefix, stop, from, end)
    ensures VisitsBack(keys, prefix, Some(start), skip, stop, Reversed(keys[end..from + 1])) <==>
              DownRight(keys, prefix, start, skip)
  {
    hide Less, HasPrefix, VisitsBack, Reversed;
    StartAt(keys, start, n);
    Places(keys, prefix, start, skip, n, from);
    if NoneBehind(keys, prefix, start, skip) {
      assert EndsAt(keys, prefix, Some(start), skip, from);
      BackwardVisits(keys, prefix, Some(start), skip, stop, from, end);
    } else {
      if from >= 0 && HasPrefix(keys[from], prefix) {
        var i :| 0 <= i <= from && !HasPrefix(keys[i], prefix) && !Less(keys[i], prefix);
        assert Less(keys[i], keys[from]);
        Between(prefix, keys[i], keys[from]);
      }
      NothingReversed(keys, from + 1);
      NothingVisited(keys, prefix, start, skip, stop);
    }
  }

  /** Up to a start that is a key, the wanted keys are those with the prefix. */
  lemma Places(keys: seq<Key>, prefix: Key, start: Key, skip: bool, n: int, from: int)
    requires Sorted(keys) && 0 <= n < |keys| && keys[n] == start && from == if skip then n - 1 else n
    requires forall j :: 0 <= j < |keys| ==> (Less(start, keys[j]) <==> n < j)
    ensures forall j :: 0 <= j < |keys| ==>
              (WantedDown(keys, prefix, Some(start), skip, keys[j]) <==> j <= from && HasPrefix(keys[j], prefix))
    ensures forall j :: 0 <= j < |keys| ==> (!Less(start, keys[j]) && !(skip && keys[j] == start) <==> j <= from)
  {
    hide Less, HasPrefix;
    LessTotal(start, start);
    forall j | 0 <= j < |keys| ensures keys[j] == start <==> j == n {
      if j < n { assert Less(keys[j], keys[n]); }
    }
  }

  lemma UnheldVisits(keys: seq<Key>, prefix: Key, start: Key, skip: bool, stop: Key -> bool, n: int, end: int)
    requires Sorted(keys) && AtRank(keys, start, n) && n < |keys| && keys[n] != start
    requires BackRun(keys, prefix, stop, n, end)
    ensures VisitsBack(keys, prefix, Some(start), skip, stop, Reversed(keys[end..n + 1])) <==>
              DownRight(keys, prefix, start, skip)
  {
    hide Less, HasPrefix, Sorted;
    StartAt(keys, start, n);
    var r := Reversed(keys[end..n + 1]);
    if HasPrefix(keys[n], prefix) {
      assert r[0] == keys[n] && !WantedDown(keys, prefix, Some(start), skip, r[0]);
      assert AtRank(keys, start, n);
    } else {
      forall i | 0 <= i < |keys| && AtRank(keys, start, i) ensures !HasPrefix(keys[i], prefix) {
        SameRank(keys, start, n, i);
      }
      hide VisitsBack;
      NothingVisited(keys, prefix, start, skip, stop);
      NothingReversed(keys, n + 1);
    }
  }

  lemma SameRank(keys: seq<Key>, k: Key, m: int, n: int)
    requires AtRank(keys, k, m) && AtRank(keys, k, n)
    ensures m == n
  {
    hide Less;
    assert m < |keys| ==> !Less(keys[m], k);
    assert n < |keys| ==> !Less(keys[n], k);
  }

  lemma ForwardVisits(keys: seq<Key>, prefix: Key, start: Key, skip: bool, stop: Key -> bool, first: int, from: int,
                      end: int)
    requires Sorted(keys) && AtRank(keys, start, first) && first < |keys|
    requires from == if skip && keys[first] == start then first + 1 else first
    requires Run(keys, prefix, stop, from, end)
    ensures if NoneBefore(keys, prefix, start, skip) then Visits(keys, prefix, start, skip, stop, keys[from..end])
            else from == end
  {
    hide Less, HasPrefix, Run, Wanted;
    FromHere(keys, start, skip, first, from);
    if NoneBefore(keys, prefix, start, skip) {
      hide AtRank, NoneBefore;
      assert 0 <= from <= end <= |keys| by { RunBounds(keys, prefix, stop, from, end); }
      var v := keys[from..end];
      forall i | 0 <= i < |v| ensures Wanted(keys, prefix, start, skip, v[i]) && (i < |v| - 1 ==> !stop(v[i])) {
        RunWanted(keys, prefix, start, skip, stop, from, end, from + i);
      }
      forall k | Wanted(keys, prefix, start, skip, k)
        ensures k in v || (v != [] && stop(v[|v| - 1]) && Less(v[|v| - 1], k))
      {
        ForwardReaches(keys, prefix, start, skip, stop, from, end, k);
      }
    } else {
      var i :| from <= i < |keys| && Less(keys[i], prefix);
      NotReached(keys, prefix, stop, from, end, i);
    }
  }

  /** What lies from the start on, without the start if it is skipped. */
  lemma FromHere(keys: seq<Key>, start: Key, skip: bool, first: int, from: int)
    requires Sorted(keys) && AtRank(keys, start, first) && first < |keys|
    requires from == if skip && keys[first] == start then first + 1 else first
    ensures forall j :: 0 <= j < |keys| ==> (from <= j <==> !Less(keys[j], start) && !(skip && keys[j] == start))
  {
    hide Less;
    LessTotal(start, start);
    forall j | first < j < |keys| ensures keys[j] != start { assert Less(keys[first], keys[j]); }
  }

  lemma RunBounds(keys: seq<Key>, prefix: Key, stop: Key -> bool, from: int, end: int)
    requires Run(keys, prefix, stop, from, end)
    ensures 0 <= from <= end <= |keys|
  {}

  lemma RunWanted(keys: seq<Key>, prefix: Key, start: Key, skip: bool, stop: Key -> bool, from: int, end: int, j: int)
    requires Run(keys, prefix, stop, from, end) && from <= j < end
    requires !Less(keys[j], start) && !(skip && keys[j] == start)
    ensures Wanted(keys, prefix, start, skip, keys[j]) && (j < end - 1 ==> !stop(keys[j]))
  {
    hide Less, HasPrefix;
  }

  lemma ForwardReaches(keys: seq<Key>, prefix: Key, start: Key, skip: bool, stop: Key -> bool, from: int, end: int,
                       k: Key)
    requires Sorted(keys) && Run(keys, prefix, stop, from, end) && NoneBefore(keys, prefix, start, skip)
    requires forall j :: 0 <= j < |keys| ==> (from <= j <==> !Less(keys[j], start) && !(skip && keys[j] == start))
    requires Wanted(keys, prefix, start, skip, k)
    ensures var v := keys[from..end]; k in v || (v != [] && stop(v[|v| - 1]) && Less(v[|v| - 1], k))
  {
    hide Less, HasPrefix;
    var v := keys[from..end];
    var j :| 0 <= j < |keys| && keys[j] == k;
    if j < end {
      assert v[j - from] == k;
    } else {
      assert HasPrefix(keys[j], prefix) && !Less(keys[end], prefix);
      if !HasPrefix(keys[end], prefix) {
        assert Less(keys[end], keys[j]);
        Between(prefix, keys[end], keys[j]);
      }
      assert Less(keys[end - 1], keys[j]) && v[|v| - 1] == keys[end - 1];
    }
  }

  /** A key before the prefix ends the walk at once. */
  lemma NotReached(keys: seq<Key>, prefix: Key, stop: Key -> bool, from: int, end: int, i: int)
    requires Sorted(keys) && Run(keys, prefix, stop, from, end) && from <= i < |keys| && Less(keys[i], prefix)
    ensures from == end
  {
    hide Less, HasPrefix;
    if from < i {
      assert Less(keys[from], keys[i]);
      LessTrans(keys[from], keys[i], prefix);
    }
    PrefixRange(keys[from], prefix);
  }

  /** r is the greatest key with the prefix, if there is one. */
  ghost predicate IsLast(keys: seq<Key>, p: Key, r: Option<Key>) {
    match r
    case None => NoneHas(keys, p)
    case Some(m) =>
      m in keys && HasPrefix(m, p)
      && forall i :: 0 <= i < |keys| && HasPrefix(keys[i], p) ==> keys[i] == m || Less(keys[i], m)
  }

  predicate NoneHas(keys: seq<Key>, p: Key) { forall i :: 0 <= i < |keys| ==> !HasPrefix(keys[i], p) }

  /** No key is at or above all keys with the prefix and still below the successor of the prefix. */
  predicate NoneInside(keys: seq<Key>, p: Key) {
    forall i :: 0 <= i < |keys| && Less(keys[i], Successor(p)) ==> Above(p).Some? && Less(keys[i], Above(p).value)
  }

  lemma EmptyKey(p: Key)
    requires p != []
    ensures !HasPrefix([], p)
  {}

  lemma {:induction false} AboveConcat(a: Key, p: Key)
    requires Above(p).Some?
    ensures Above(a + p) == Some(a + Above(p).value)
  {
    if a == [] {
      assert a + p == p && a + Above(p).value == Above(p).value;
    } else {
      assert (a + p)[1..] == a[1..] + p;
      AboveConcat(a[1..], p);
      assert [a[0]] + (a[1..] + Above(p).value) == a + Above(p).value;
    }
  }

  lemma AboveTotal(indexPrefix: Key, prefix: Key)
    requires !AllFF(prefix)
    ensures Above(indexPrefix + prefix).Some? && indexPrefix + Successor(prefix) == Successor(indexPrefix + prefix)
  {
    hide Above;
    AboveNone(prefix);
    AboveConcat(indexPrefix, prefix);
  }

  /** What the key before position n is, when n is where a seek of the successor ends. */
  lemma SeekLast(keys: seq<Key>, p: Key, n: int)
    requires Sorted(keys) && Above(p).Some? && AtRank(keys, Successor(p), n)
    ensures var r := if n > 0 && HasPrefix(keys[n - 1], p) then Some(keys[n - 1]) else None;
      IsLast(keys, p, r) <==> NoneHas(keys, p) || NoneInside(keys, p)
  {
    hide Less, HasPrefix, Above, Successor;
    var a := Above(p).value;
    forall j | 0 <= j < |keys| ensures HasPrefix(keys[j], p) ==> Less(keys[j], a) && Less(keys[j], Successor(p)) {
      PrefixRange(keys[j], p);
      if Less(keys[j], a) { AboveBelowSuccessor(keys[j], p); }
    }
    if NoneInside(keys, p) {
      if n > 0 && !HasPrefix(keys[n - 1], p) {
        PrefixRange(keys[n - 1], p);
        forall j | 0 <= j < n - 1 ensures !HasPrefix(keys[j], p) {
          assert Less(keys[j], keys[n - 1]);
          LessTrans(keys[j], keys[n - 1], p);
          PrefixRange(keys[j], p);
        }
      }
    } else {
      var i :| 0 <= i < |keys| && Less(keys[i], Successor(p)) && !Less(keys[i], a);
      if i < n - 1 && Less(keys[n - 1], a) {
        assert Less(keys[i], keys[n - 1]);
        LessTrans(keys[i], keys[n - 1], a);
      }
    }
  }

  lemma AboveBelowSuccessor(k: Key, p: Key)
    requires Above(p).Some? && Less(k, Above(p).value)
    ensures Less(k, Successor(p))
  {
    hide Above, Less;
    var s := Successor(p);
    assert s[..|Above(p).value|] == Above(p).value;
    PrefixRange(s, Above(p).value);
    LessTotal(s, Above(p).value);
    if s != Above(p).value { LessTrans(k, Above(p).value, s); }
  }

  lemma WholeLast(keys: seq<Key>, p: Key)
    requires Sorted(keys)
    ensures var r := if keys != [] && HasPrefix(keys[|keys| - 1], p) then Some(keys[|keys| - 1]) else None;
      IsLast(keys, p, r) <==> NoneHas(keys, p) || HasPrefix(keys[|keys| - 1], p)
  {
    hide Less, HasPrefix;
  }

  /** In an index whose keys are all at least as long as the prefix, Last is right. */
  lemma LongKeys(keys: seq<Key>, indexPrefix: Key, prefix: Key)
    requires !AllFF(prefix)
    requires forall i :: 0 <= i < |keys| && HasPrefix(keys[i], indexPrefix) ==> |indexPrefix + prefix| <= |keys[i]|
    ensures NoneInside(keys, indexPrefix + prefix)
  {
    hide Less, Above;
    var p := indexPrefix + prefix;
    AboveTotal(indexPrefix, prefix);
    AboveNone(prefix);
    AboveConcat(indexPrefix, prefix);
    AboveShort(p);
    var a := Above(p).value;
    forall i | 0 <= i < |keys| && Less(keys[i], Successor(p)) ensures Less(keys[i], a) {
      if !Less(keys[i], a) {
        ZeroGap(keys[i], a, |p| - |a|);
      }
    }
  }

  lemma {:induction false} AboveShort(p: Key)
    ensures Above(p).Some? ==> |Above(p).value| <= |p|
  {
    if p != [] { AboveShort(p[1..]); }
  }

  lemma {:induction false} ZeroGap(k: Key, a: Key, z: nat)
    requires !Less(k, a) && Less(k, a + ZeroBytes(z))
    ensures HasPrefix(k, a) && |k| < |a| + z
  {
    var q := a + ZeroBytes(z);
    if a != [] {
      assert q[1..] == a[1..] + ZeroBytes(z);
      ZeroGap(k[1..], a[1..], z);
      assert k[..|a|] == [k[0]] + k[1..][..|a| - 1] && a == [a[0]] + a[1..];
    } else if k != [] {
      assert q[1..] == ZeroBytes(z - 1) == [] + ZeroBytes(z - 1);
      ZeroGap(k[1..], [], z - 1);
    }
  }

  /** A start below the prefix with a key in between: the wanted key is not visited. */
  method IterationMisses() returns (visited: seq<Key>)
    ensures Wanted([[1], [2, 5]], [2], [1], false, [2, 5]) && visited == []
  {
    var keys: seq<Key> := [[1], [2, 5]];
    assert keys[0] == [1] && keys[1] == [2, 5] && Less([1], [2]) && Less([1], [2, 5]);
    LessTotal([1], [1]);
    LessTotal([1], [2, 5]);
    assert Wanted(keys, [2], [1], false, [2, 5]) && !NoneBefore(keys, [2], [1], false);
    var ix := new Index(keys);
    var failed;
    visited, failed := ix.Iterate([2], Some([1]), false, false, _ => false);
  }

  /** A key shorter than the prefix, right behind the keys with it: Last does not find them. */
  method LastMisses() returns (r: Option<Key>)
    ensures HasPrefix([1, 1, 255, 7], [1] + [1, 255]) && r == None
  {
    var keys: seq<Key> := [[1, 1, 255, 7], [1, 2]];
    var p: Key := [1, 1, 255];
    ShortKeyInside(keys, p);
    assert [1] + [1, 255] == p && !HasPrefix(keys[1], p);
    var ix := new Index(keys);
    assert IsLast(keys, p, Some(keys[0]));
    r := ix.Last([1], [1, 255]);
  }

  lemma ShortKeyInside(keys: seq<Key>, p: Key)
    requires keys == [[1, 1, 255, 7], [1, 2]] && p == [1, 1, 255]
    ensures Sorted(keys) && HasPrefix(keys[0], p) && !NoneInside(keys, p)
  {
    assert keys[0] == [1, 1, 255, 7] && keys[1] == [1, 2];
    assert keys[0][..3] == p;
    assert p[..1] == [1] && AllFF(p[2..]);
    AboveIs(p, 1);
    assert p[..1] + [p[1] + 1] == [1, 2];
    assert Above(p) == Some([1, 2]) && Successor(p) == [1, 2, 0];
    assert [1, 1, 255, 7][1..] == [1, 255, 7] && [1, 2][1..] == [2] && [1, 2, 0][1..] == [2, 0] && [2, 0][1..] == [0]
           && [2][1..] == [];
    assert Less([1, 255, 7], [2]) && Less([], [0]) && Less([2], [2, 0]) && Less([1, 2], [1, 2, 0]);
    LessTotal([1, 2], [1, 2]);
  }
}
