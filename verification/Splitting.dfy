/** Searching strings, and taking them apart at a separator. */
module Splitting {
  /** The pieces of a string between occurrences of a character. */
  function Split(s: string, at: char): (pieces: seq<string>)
    ensures pieces != []
  {
    if s == "" then [""]
    else
      var rest := Split(s[1..], at);
      if s[0] == at then [""] + rest else [[s[0]] + rest[0]] + rest[1..]
  }

  lemma {:induction false} SplitAt(a: string, at: char, b: string)
    requires forall k :: 0 <= k < |a| ==> a[k] != at
    ensures Split(a + [at] + b, at) == [a] + Split(b, at)
  {
    var s := a + [at] + b;
    if a == "" {
      assert s[1..] == b;
    } else {
      SplitAt(a[1..], at, b);
      assert s[1..] == a[1..] + [at] + b;
      assert [a[0]] + a[1..] == a;
    }
  }

  lemma {:induction false} SplitNone(a: string, at: char)
    requires forall k :: 0 <= k < |a| ==> a[k] != at
    ensures Split(a, at) == [a]
  {
    if a != "" {
      SplitNone(a[1..], at);
      assert [a[0]] + a[1..] == a;
    }
  }

  // ----- joining

  function Join(pieces: seq<string>, at: char): string
    requires pieces != []
  {
    if |pieces| == 1 then pieces[0] else pieces[0] + [at] + Join(pieces[1..], at)
  }

  lemma JoinOne(x: string, at: char)
    ensures Join([x], at) == x
  {
  }

  lemma JoinBlank(pieces: seq<string>, at: char)
    requires pieces != []
    ensures Join([""] + pieces, at) == [at] + Join(pieces, at)
  {
    assert ([""] + pieces)[1..] == pieces;
  }

  lemma JoinHead(c: char, first: string, rest: seq<string>, at: char)
    ensures Join([[c] + first] + rest, at) == [c] + Join([first] + rest, at)
  {
    if rest != [] {
      var x := Join(rest, at);
      assert ([[c] + first] + rest)[1..] == rest && ([first] + rest)[1..] == rest;
      assert ([c] + first) + [at] + x == [c] + (first + [at] + x);
    }
  }

  /** Joining undoes splitting. */
  lemma {:induction false} JoinSplit(s: string, at: char)
    ensures Join(Split(s, at), at) == s
  {
    if s != "" {
      JoinSplit(s[1..], at);
      var rest := Split(s[1..], at);
      hide Join;
      if s[0] == at {
        JoinBlank(rest, at);
      } else {
        JoinHead(s[0], rest[0], rest[1..], at);
        assert [rest[0]] + rest[1..] == rest;
      }
    } else {
      JoinOne("", at);
    }
  }

  /** And splitting undoes joining, of pieces without the separator. */
  lemma {:induction false} SplitJoin(pieces: seq<string>, at: char)
    requires pieces != [] && forall i :: 0 <= i < |pieces| ==> at !in pieces[i]
    ensures Split(Join(pieces, at), at) == pieces
  {
    hide Split;
    if |pieces| == 1 {
      SplitNone(pieces[0], at);
    } else {
      SplitAt(pieces[0], at, Join(pieces[1..], at));
      SplitJoin(pieces[1..], at);
    }
  }

  lemma {:induction false} JoinConcat(a: seq<string>, b: seq<string>, at: char)
    requires a != [] && b != []
    ensures Join(a + b, at) == Join(a, at) + [at] + Join(b, at)
  {
    assert (a + b)[1..] == a[1..] + b;
    if |a| > 1 {
      JoinConcat(a[1..], b, at);
      assert (a + b)[0] == a[0];
      assert a[0] + [at] + (Join(a[1..], at) + [at] + Join(b, at)) == a[0] + [at] + Join(a[1..], at) + [at] + Join(b, at);
    } else {
      assert a[1..] + b == b;
    }
  }

  lemma SplitHead(s: string, at: char)
    requires s != ""
    ensures s[0] == at ==> Split(s, at) == [""] + Split(s[1..], at)
    ensures s[0] != at ==> Split(s, at) == [[s[0]] + Split(s[1..], at)[0]] + Split(s[1..], at)[1..]
  {
  }

  /** Splitting where a separator stands splits both sides. */
  lemma {:induction false} SplitMiddle(a: string, at: char, b: string)
    ensures Split(a + [at] + b, at) == Split(a, at) + Split(b, at)
  {
    hide Split;
    var s := a + [at] + b;
    SplitHead(s, at);
    if a == "" {
      assert s[1..] == b;
      SplitNone("", at);
    } else {
      SplitHead(a, at);
      SplitMiddle(a[1..], at, b);
      assert s[1..] == a[1..] + [at] + b && s[0] == a[0];
      var x, y := Split(a[1..], at), Split(b, at);
      if a[0] == at {
        assert [""] + (x + y) == [""] + x + y;
      } else {
        assert (x + y)[0] == x[0] && (x + y)[1..] == x[1..] + y;
        assert [[a[0]] + x[0]] + (x[1..] + y) == [[a[0]] + x[0]] + x[1..] + y;
      }
    }
  }

  /** The first position at or after `from` where a character of `stops` stands;
      the end of the string if there is none. */
  function FindFirstOf(s: string, stops: set<char>, from: nat): (i: nat)
    requires from <= |s|
    ensures from <= i <= |s|
    ensures forall k :: from <= k < i ==> s[k] !in stops
    ensures i < |s| ==> s[i] in stops
    decreases |s| - from
  {
    if from == |s| || s[from] in stops then from else FindFirstOf(s, stops, from + 1)
  }

  lemma FirstOfIs(s: string, stops: set<char>, from: nat, i: nat)
    requires from <= i <= |s| && (forall k :: from <= k < i ==> s[k] !in stops) && (i < |s| ==> s[i] in stops)
    ensures FindFirstOf(s, stops, from) == i
  {
  }
}
