/**
 * The list updates the clients express with Array.prototype.filter, map and
 * slice: keeping the entries a predicate accepts, replacing the entries a
 * predicate selects, and taking the last n entries.
 */
module Lists {

  /** s.filter(keep): the accepted entries, in their original order. */
  function Keep<T>(s: seq<T>, keep: T -> bool): (r: seq<T>)
    ensures |r| <= |s|
    ensures forall i :: 0 <= i < |r| ==> keep(r[i])
    decreases |s|
  {
    if s == [] then []
    else if keep(s[0]) then [s[0]] + Keep(s[1..], keep)
    else Keep(s[1..], keep)
  }

  /** Filtering distributes over concatenation, so the order of the kept entries is the original one. */
  lemma {:induction false} KeepAppend<T>(a: seq<T>, b: seq<T>, keep: T -> bool)
    ensures Keep(a + b, keep) == Keep(a, keep) + Keep(b, keep)
    decreases |a|
  {
    if a != [] {
      assert (a + b)[1..] == a[1..] + b;
      KeepAppend(a[1..], b, keep);
    } else {
      assert a + b == b;
    }
  }

  /** Every accepted entry survives as often as it occurred; no rejected entry survives. */
  lemma {:induction false} KeepCounts<T>(s: seq<T>, keep: T -> bool, x: T)
    ensures multiset(Keep(s, keep))[x] == if keep(x) then multiset(s)[x] else 0
    decreases |s|
  {
    if s != [] {
      KeepCounts(s[1..], keep, x);
      assert s == [s[0]] + s[1..];
    }
  }

  /** Filtering by a predicate and by its complement splits the list: the two results together are as long as it. */
  lemma {:induction false} KeepPartition<T>(s: seq<T>, keep: T -> bool, drop: T -> bool)
    requires forall x :: drop(x) == !keep(x)
    ensures |Keep(s, keep)| + |Keep(s, drop)| == |s|
    decreases |s|
  {
    if s != [] {
      KeepPartition(s[1..], keep, drop);
    }
  }

  /** Every kept entry comes from the list. */
  lemma KeepElement<T>(s: seq<T>, keep: T -> bool, i: nat)
    requires i < |Keep(s, keep)|
    ensures Keep(s, keep)[i] in s
  {
    var x := Keep(s, keep)[i];
    KeepCounts(s, keep, x);
    assert x in multiset(Keep(s, keep));
  }

  /** A list whose entries are all accepted is unchanged. */
  lemma {:induction false} KeepAll<T>(s: seq<T>, keep: T -> bool)
    requires forall i :: 0 <= i < |s| ==> keep(s[i])
    ensures Keep(s, keep) == s
    decreases |s|
  {
    if s != [] {
      KeepAll(s[1..], keep);
    }
  }

  /** A list whose entries are all rejected filters to nothing. */
  lemma {:induction false} KeepNone<T>(s: seq<T>, keep: T -> bool)
    requires forall i :: 0 <= i < |s| ==> !keep(s[i])
    ensures Keep(s, keep) == []
    decreases |s|
  {
    if s != [] {
      KeepNone(s[1..], keep);
    }
  }

  /** Filtering twice with the same predicate is filtering once. */
  lemma KeepIdempotent<T>(s: seq<T>, keep: T -> bool)
    ensures Keep(Keep(s, keep), keep) == Keep(s, keep)
  {
    KeepAll(Keep(s, keep), keep);
  }

  /** s.map(x => hit(x) ? v : x): every selected entry becomes v, the others stay in place. */
  function ReplaceWhere<T>(s: seq<T>, hit: T -> bool, v: T): (r: seq<T>)
    ensures |r| == |s|
    ensures forall i :: 0 <= i < |s| ==> r[i] == if hit(s[i]) then v else s[i]
  {
    seq(|s|, i requires 0 <= i < |s| => if hit(s[i]) then v else s[i])
  }

  /** s.slice(-n) for n > 0: the last min(n, |s|) entries. */
  function LastN<T>(s: seq<T>, n: nat): (r: seq<T>)
    ensures |r| == if |s| < n then |s| else n
    ensures forall i :: 0 <= i < |r| ==> r[i] == s[|s| - |r| + i]
  {
    if |s| <= n then s else s[|s| - n..]
  }

  /** The window is a suffix: what precedes it plus the window is the whole list. */
  lemma LastNIsSuffix<T>(s: seq<T>, n: nat)
    ensures s[..|s| - |LastN(s, n)|] + LastN(s, n) == s
  {}
}
