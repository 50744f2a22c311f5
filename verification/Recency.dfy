/** Least-recently-used order as plain sequences of distinct keys, most recent
    first: what one access does, what a run of accesses amounts to, and how pools
    of different sizes compare. */
module Recency {

  ghost predicate Distinct<K>(s: seq<K>) {
    forall i, j :: 0 <= i < j < |s| ==> s[i] != s[j]
  }

  function Without<K(==)>(s: seq<K>, k: K): (r: seq<K>)
    ensures k !in s ==> r == s
    ensures |r| == |s| - (if k in s then 1 else 0)
  {
    if s == [] then [] else if s[0] == k then s[1..] else [s[0]] + Without(s[1..], k)
  }

  function Take<K>(s: seq<K>, n: nat): seq<K> {
    if |s| <= n then s else s[..n]
  }

  /** GetOrCreate on the key order of a pool that holds at most `size` keys. */
  function Create<K(==)>(size: nat, s: seq<K>, k: K): seq<K>
    requires size >= 1
  {
    if k in s then [k] + Without(s, k)
    else [k] + (if |s| >= size then s[..|s| - 1] else s)
  }

  /** Get: a hit moves to the front, a miss changes nothing. */
  function Lookup<K(==)>(s: seq<K>, k: K): seq<K> {
    if k in s then [k] + Without(s, k) else s
  }

  datatype Access<K> = GetOrCreate(key: K) | Get(key: K)

  function Apply<K(==)>(size: nat, s: seq<K>, a: Access<K>): seq<K>
    requires size >= 1
  {
    match a
    case GetOrCreate(k) => Create(size, s, k)
    case Get(k) => Lookup(s, k)
  }

  /** The key order of a pool after a trace of accesses, starting empty. */
  function Order<K(==)>(size: nat, trace: seq<Access<K>>): seq<K>
    requires size >= 1
  {
    if trace == [] then [] else
      var n := |trace| - 1;
      Apply(size, Order(size, trace[..n]), trace[n])
  }

  lemma OrderAppend<K>(size: nat, trace: seq<Access<K>>, a: Access<K>)
    requires size >= 1
    ensures Order(size, trace + [a]) == Apply(size, Order(size, trace), a)
  {
    assert (trace + [a])[..|trace|] == trace;
  }

  /** The keys that accesses found or created, in order of time. */
  function Successes<K(==)>(size: nat, trace: seq<Access<K>>): seq<K>
    requires size >= 1
  {
    if trace == [] then [] else
      var n := |trace| - 1;
      Successes(size, trace[..n]) +
      if trace[n].GetOrCreate? || trace[n].key in Order(size, trace[..n]) then [trace[n].key] else []
  }

  /** The distinct keys of a history of accesses, last accessed first. */
  function MostRecent<K(==)>(history: seq<K>): seq<K> {
    if history == [] then [] else
      var n := |history| - 1;
      [history[n]] + Without(MostRecent(history[..n]), history[n])
  }

  /** The last position of a key in a history. */
  function LastAccess<K(==)>(history: seq<K>, k: K): (i: nat)
    requires k in history
    ensures i < |history| && history[i] == k
    ensures forall j :: i < j < |history| ==> history[j] != k
  {
    var n := |history| - 1;
    if history[n] == k then n else LastAccess(history[..n], k)
  }

  // ----- removing one key

  lemma {:induction false} WithoutKeepsOthers<K>(s: seq<K>, k: K, x: K)
    requires x != k
    ensures x in Without(s, k) <==> x in s
  {
    if s != [] && s[0] != k {
      WithoutKeepsOthers(s[1..], k, x);
    }
  }

  /** In a sequence of distinct keys, what remains keeps its relative order. */
  lemma {:induction false} WithoutAt<K>(s: seq<K>, i: nat)
    requires Distinct(s) && i < |s|
    ensures Without(s, s[i]) == s[..i] + s[i + 1..]
  {
    if i > 0 {
      WithoutAt(s[1..], i - 1);
    }
  }

  lemma WithoutDistinct<K>(s: seq<K>, k: K)
    requires Distinct(s)
    ensures Distinct(Without(s, k)) && k !in Without(s, k)
  {
    if k in s {
      var i :| 0 <= i < |s| && s[i] == k;
      WithoutAt(s, i);
    }
  }

  lemma FrontDistinct<K>(s: seq<K>, k: K)
    requires Distinct(s)
    ensures Distinct([k] + Without(s, k))
  {
    WithoutDistinct(s, k);
  }

  lemma {:induction false} MostRecentDistinct<K>(history: seq<K>)
    ensures Distinct(MostRecent(history))
  {
    if history != [] {
      var n := |history| - 1;
      MostRecentDistinct(history[..n]);
      WithoutDistinct(MostRecent(history[..n]), history[n]);
    }
  }

  lemma {:induction false} MostRecentMembers<K>(history: seq<K>, k: K)
    ensures k in MostRecent(history) <==> k in history
  {
    if history != [] {
      var n := |history| - 1;
      assert history == history[..n] + [history[n]];
      MostRecentMembers(history[..n], k);
      if k != history[n] {
        WithoutKeepsOthers(MostRecent(history[..n]), history[n], k);
      }
    }
  }

  /** A key behind the front was last accessed before the last access. */
  lemma BehindTheFront<K>(past: seq<K>, k: K, j: nat) returns (y: K)
    requires 1 <= j < |MostRecent(past + [k])|
    ensures y == MostRecent(past + [k])[j]
    ensures j - 1 < |Without(MostRecent(past), k)| && y == Without(MostRecent(past), k)[j - 1]
    ensures y in past && y in past + [k] && LastAccess(past + [k], y) == LastAccess(past, y)
  {
    assert (past + [k])[..|past|] == past;
    y := MostRecent(past + [k])[j];
    MostRecentDistinct(past);
    WithoutDistinct(MostRecent(past), k);
    assert y in Without(MostRecent(past), k) && y != k;
    WithoutKeepsOthers(MostRecent(past), k, y);
    MostRecentMembers(past, y);
  }

  /** What MostRecent means: each key once, and a key stands before another just
      when it was last accessed later. */
  lemma {:induction false} MostRecentByLastAccess<K>(history: seq<K>, i: nat, j: nat)
    requires i < j < |MostRecent(history)|
    ensures var r := MostRecent(history);
            r[i] in history && r[j] in history && LastAccess(history, r[i]) > LastAccess(history, r[j])
  {
    hide Distinct, Without;
    var n := |history| - 1;
    var past, k := history[..n], history[n];
    assert history == past + [k];
    var y := BehindTheFront(past, k, j);
    if i > 0 {
      var x := BehindTheFront(past, k, i);
      MostRecentDistinct(past);
      var i', j' := PositionBefore(MostRecent(past), k, i - 1, j - 1);
      MostRecentByLastAccess(past, i', j');
    }
  }

  /** Two positions after a removal come from two positions in the same order. */
  lemma PositionBefore<K>(s: seq<K>, k: K, i: nat, j: nat) returns (i': nat, j': nat)
    requires Distinct(s) && i < j < |Without(s, k)|
    ensures i' < j' < |s| && s[i'] == Without(s, k)[i] && s[j'] == Without(s, k)[j]
  {
    if k in s {
      var c :| 0 <= c < |s| && s[c] == k;
      WithoutAt(s, c);
      i', j' := if i < c then i else i + 1, if j < c then j else j + 1;
    } else {
      i', j' := i, j;
    }
  }

  // ----- whole runs

  /** One access on the most recent `size` keys is one access on all of them. */
  lemma TakeCommutes<K>(size: nat, r: seq<K>, k: K)
    requires size >= 1 && Distinct(r)
    ensures Create(size, Take(r, size), k) == Take([k] + Without(r, k), size)
  {
    var t := Take(r, size);
    if k in r {
      var i :| 0 <= i < |r| && r[i] == k;
      WithoutAt(r, i);
      if |r| > size {
        TakeCommutesWhenFull(size, r, i);
      }
    } else if |r| >= size {
      assert ([k] + r)[..size] == [k] + t[..size - 1];
    }
  }

  lemma TakeCommutesWhenFull<K>(size: nat, r: seq<K>, i: nat)
    requires 1 <= size < |r| && Distinct(r) && i < |r|
    ensures Create(size, r[..size], r[i]) == ([r[i]] + (r[..i] + r[i + 1..]))[..size]
  {
    var t := r[..size];
    if i < size {
      assert t[i] == r[i];
      WithoutAt(t, i);
      assert t[..i] + t[i + 1..] == (r[..i] + r[i + 1..])[..size - 1];
    } else {
      assert r[i] !in t;
      assert t[..size - 1] == (r[..i] + r[i + 1..])[..size - 1];
    }
  }

  /** LRU correctness.  After any trace of GetOrCreate and Get on a pool of any
      size, the list holds exactly the `size` most recent distinct keys among the
      accesses that succeeded, in order of last access. */
  lemma {:induction false} OrderIsMostRecent<K>(size: nat, trace: seq<Access<K>>)
    requires size >= 1
    ensures Order(size, trace) == Take(MostRecent(Successes(size, trace)), size)
  {
    if trace != [] {
      var n := |trace| - 1;
      OrderIsMostRecent(size, trace[..n]);
      var past, k := Successes(size, trace[..n]), trace[n].key;
      MostRecentDistinct(past);
      TakeCommutes(size, MostRecent(past), k);
      assert (past + [k])[..|past|] == past && past + [] == past;
      assert MostRecent(past + [k]) == [k] + Without(MostRecent(past), k);
    }
  }

  // ----- comparing sizes

  ghost predicate Subsequence<K>(s: seq<K>, t: seq<K>) {
    s == [] || (t != [] && ((s[0] == t[0] && Subsequence(s[1..], t[1..])) || Subsequence(s, t[1..])))
  }

  lemma {:induction false} SubsequenceMembers<K>(s: seq<K>, t: seq<K>, k: K)
    requires Subsequence(s, t) && k in s
    ensures k in t
  {
    if s[0] == t[0] && Subsequence(s[1..], t[1..]) {
      if k != s[0] {
        SubsequenceMembers(s[1..], t[1..], k);
      }
    } else {
      SubsequenceMembers(s, t[1..], k);
    }
  }

  lemma {:induction false} SubsequenceLength<K>(s: seq<K>, t: seq<K>)
    requires Subsequence(s, t)
    ensures |s| <= |t|
    ensures |s| == |t| ==> s == t
  {
    if s != [] {
      if s[0] == t[0] && Subsequence(s[1..], t[1..]) {
        SubsequenceLength(s[1..], t[1..]);
      } else {
        SubsequenceLength(s, t[1..]);
      }
    }
  }

  lemma {:induction false} SubsequenceWithout<K>(s: seq<K>, t: seq<K>, k: K)
    requires Distinct(s) && Distinct(t) && Subsequence(s, t)
    ensures Subsequence(Without(s, k), Without(t, k))
  {
    if s != [] {
      if s[0] == t[0] && Subsequence(s[1..], t[1..]) {
        SubsequenceWithout(s[1..], t[1..], k);
      } else {
        SubsequenceWithout(s, t[1..], k);
        if t[0] == k {
          assert k !in t[1..];
          if k in s {
            SubsequenceMembers(s, t[1..], k);
          }
        }
      }
    }
  }

  lemma {:induction false} SubsequenceDropLast<K>(s: seq<K>, t: seq<K>)
    requires s != [] && Subsequence(s, t)
    ensures Subsequence(s[..|s| - 1], t)
    ensures Subsequence(s[..|s| - 1], t[..|t| - 1])
  {
    if s[0] == t[0] && Subsequence(s[1..], t[1..]) {
      if |s| > 1 {
        SubsequenceDropLast(s[1..], t[1..]);
        assert s[..|s| - 1][1..] == s[1..][..|s| - 2];
        assert t[..|t| - 1][1..] == t[1..][..|t| - 2];
      }
    } else {
      SubsequenceDropLast(s, t[1..]);
      assert t[..|t| - 1][1..] == t[1..][..|t| - 2];
    }
  }

  /** How a small pool sits inside a large one: in the same order, and a small
      pool that has not filled up yet holds everything the large one does. */
  ghost predicate Nested<K>(size: nat, s: seq<K>, t: seq<K>) {
    Distinct(s) && Distinct(t) && Subsequence(s, t) && |s| <= size && (|s| < size ==> |t| == |s|)
  }

  lemma NestedStep<K>(small: nat, large: nat, s: seq<K>, t: seq<K>, a: Access<K>)
    requires 1 <= small <= large && Nested(small, s, t) && |t| <= large
    ensures Nested(small, Apply(small, s, a), Apply(large, t, a)) && |Apply(large, t, a)| <= large
  {
    var k := a.key;
    SubsequenceLength(s, t);
    WithoutDistinct(s, k);
    WithoutDistinct(t, k);
    SubsequenceWithout(s, t, k);
    if k in s {
      SubsequenceMembers(s, t, k);
    } else if a.GetOrCreate? && |s| >= small {
      SubsequenceDropLast(s, t);
      if k in t {
        SubsequenceDropLast(s, Without(t, k));
      }
    }
  }

  lemma {:induction false} OrdersNested<K>(small: nat, large: nat, trace: seq<Access<K>>)
    requires 1 <= small <= large
    ensures Nested(small, Order(small, trace), Order(large, trace)) && |Order(large, trace)| <= large
  {
    if trace != [] {
      var n := |trace| - 1;
      OrdersNested(small, large, trace[..n]);
      NestedStep(small, large, Order(small, trace[..n]), Order(large, trace[..n]), trace[n]);
    }
  }

  /** LRU inclusion.  Run one trace on a small pool and on a large one: the small
      pool's order is always a subsequence of the large pool's, so every hit in
      the small pool is a hit in the large one. */
  lemma Inclusion<K>(small: nat, large: nat, trace: seq<Access<K>>, k: K)
    requires 1 <= small <= large
    ensures Subsequence(Order(small, trace), Order(large, trace))
    ensures k in Order(small, trace) ==> k in Order(large, trace)
  {
    OrdersNested(small, large, trace);
    if k in Order(small, trace) {
      SubsequenceMembers(Order(small, trace), Order(large, trace), k);
    }
  }
}
