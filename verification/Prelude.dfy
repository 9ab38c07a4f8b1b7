/** Small vocabulary shared by every component of the model. */
module Prelude {
  type byte = b: int | 0 <= b < 256
  type Text = seq<byte>

  datatype Option<+T> = None | Some(value: T)

  /** UTF-8 continuation bytes never start a character. */
  predicate IsBoundary(t: Text, i: nat)
    requires i <= |t|
  {
    i == 0 || i == |t| || !(128 <= t[i] < 192)
  }

  /** The longest prefix of at most `max` bytes that does not split a character. */
  function CutAt(t: Text, max: nat): (r: Text)
    ensures |r| <= max && r <= t
    ensures IsBoundary(t, |r|)
    decreases max
  {
    if |t| <= max then t
    else if IsBoundary(t, max) then t[..max]
    else CutAt(t, max - 1)
  }

  lemma {:induction false} CutIsLongest(t: Text, max: nat, i: nat)
    requires |CutAt(t, max)| < i <= max && i <= |t|
    ensures !IsBoundary(t, i)
    decreases max
  {
    if |t| > max && !IsBoundary(t, max) && i < max {
      CutIsLongest(t, max - 1, i);
    }
  }

  lemma {:induction false} SubsetIsSmaller<K>(small: set<K>, big: set<K>)
    requires small <= big
    ensures |small| <= |big|
  {
    if small != {} {
      var x :| x in small;
      SubsetIsSmaller(small - {x}, big - {x});
    }
  }

  ghost function MaxOf(s: set<nat>): (m: nat)
    requires s != {}
    ensures m in s && forall x | x in s :: x <= m
  {
    var x :| x in s;
    if s == {x} then x
    else
      assert forall y | y in s :: y == x || y in s - {x};
      var m := MaxOf(s - {x});
      if m < x then x else m
  }

  /** The highest number of a set, and 0 for the empty one. */
  method Highest(numbers: set<nat>) returns (highest: nat)
    ensures forall n | n in numbers :: n <= highest
    ensures if numbers == {} then highest == 0 else highest in numbers
  {
    highest := 0;
    var todo := numbers;
    while todo != {}
      invariant todo <= numbers && (highest in numbers || (highest == 0 && todo == numbers))
      invariant forall n | n in numbers :: n in todo || n <= highest
      decreases todo
    {
      var n :| n in todo;
      if highest <= n {
        highest := n;
      }
      todo := todo - {n};
    }
  }

  // ---------- Reversing ----------

  function Reversed<T>(s: seq<T>): (r: seq<T>)
    ensures |r| == |s|
  {
    if s == [] then [] else [s[|s| - 1]] + Reversed(s[..|s| - 1])
  }

  lemma {:induction false} ReversedSnoc<T>(s: seq<T>, x: T)
    ensures Reversed(s + [x]) == [x] + Reversed(s)
  {
    assert (s + [x])[..|s|] == s;
  }

  lemma {:induction false} ReversedTwice<T>(s: seq<T>)
    ensures Reversed(Reversed(s)) == s
  {
    if s != [] {
      var n := |s| - 1;
      ReversedTwice(s[..n]);
      ReversedCons(s[n], Reversed(s[..n]));
    }
  }

  lemma {:induction false} ReversedCons<T>(x: T, s: seq<T>)
    ensures Reversed([x] + s) == Reversed(s) + [x]
  {
    if s != [] {
      var n := |s| - 1;
      ReversedCons(x, s[..n]);
      assert ([x] + s)[..|s|] == [x] + s[..n];
    }
  }

  lemma {:induction false} ReversedPrefix<T>(s: seq<T>, c: nat)
    requires c <= |s|
    ensures Reversed(s)[..c] == Reversed(s[|s| - c..])
  {
    if c > 0 {
      var n := |s| - 1;
      ReversedPrefix(s[..n], c - 1);
      assert s[|s| - c..][..c - 1] == s[..n][n - (c - 1)..];
    }
  }

  lemma {:induction false} ReversedAt<T>(s: seq<T>, i: nat)
    requires i < |s|
    ensures Reversed(s)[i] == s[|s| - 1 - i]
  {
    if i > 0 {
      ReversedAt(s[..|s| - 1], i - 1);
    }
  }
}
