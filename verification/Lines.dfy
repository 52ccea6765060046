/** Splitting a stream into lines at a line feed, each line keeping its line feed. */
module Lines {

  function Join<T>(ls: seq<seq<T>>): seq<T> {
    if ls == [] then [] else ls[0] + Join(ls[1..])
  }

  /** Just past the first `lf`, or the end. */
  function LineEnd<T(==)>(lf: T, s: seq<T>): (k: nat)
    ensures k <= |s| && (s != [] ==> k > 0)
    ensures lf in s ==> k > 0 && s[k - 1] == lf
    ensures lf !in s ==> k == |s|
    ensures forall i | 0 <= i < k - 1 :: s[i] != lf
  {
    if s == [] then 0 else if s[0] == lf then 1 else 1 + LineEnd(lf, s[1..])
  }

  /** Every line, an unterminated last one included. */
  function Split<T(==)>(lf: T, s: seq<T>): seq<seq<T>> {
    if s == [] then [] else var k := LineEnd(lf, s); [s[..k]] + Split(lf, s[k..])
  }

  /** The terminated lines at the front. */
  function Complete<T(==)>(lf: T, s: seq<T>): seq<seq<T>> {
    if lf !in s then [] else var k := LineEnd(lf, s); [s[..k]] + Complete(lf, s[k..])
  }

  /** What follows the last `lf`. */
  function Rest<T(==)>(lf: T, s: seq<T>): (r: seq<T>)
    ensures lf !in r && |r| <= |s|
    decreases |s|
  {
    if lf !in s then s else Rest(lf, s[LineEnd(lf, s)..])
  }

  /** `l` is one terminated line: its only `lf` is its last element. */
  predicate IsLine<T(==)>(lf: T, l: seq<T>) {
    l != [] && l[|l| - 1] == lf && lf !in l[..|l| - 1]
  }

  /** What a split into lines is, without saying how it is computed. */
  predicate Framed<T(==)>(lf: T, ls: seq<seq<T>>) {
    forall i | 0 <= i < |ls| :: IsLine(lf, ls[i]) || (i == |ls| - 1 && ls[i] != [] && lf !in ls[i])
  }

  lemma {:induction false} JoinAppends<T>(a: seq<seq<T>>, b: seq<seq<T>>)
    ensures Join(a + b) == Join(a) + Join(b)
  {
    if a == [] {
      assert a + b == b;
    } else {
      assert (a + b)[1..] == a[1..] + b;
      JoinAppends(a[1..], b);
    }
  }

  /** A line at the front of a text is what the split cuts off first. */
  lemma LineIsCutOff<T>(lf: T, l: seq<T>, s: seq<T>)
    requires IsLine(lf, l)
    ensures Split(lf, l + s) == [l] + Split(lf, s)
    ensures Complete(lf, l + s) == [l] + Complete(lf, s) && Rest(lf, l + s) == Rest(lf, s)
  {
    var t := l + s;
    var k := LineEnd(lf, t);
    assert t[|l| - 1] == lf;
    assert forall i | 0 <= i < |l| - 1 :: l[..|l| - 1][i] == t[i] != lf;
    assert k == |l|;
    assert t[..k] == l && t[k..] == s;
  }

  lemma FirstLine<T>(lf: T, s: seq<T>) returns (l: seq<T>, t: seq<T>)
    requires lf in s
    ensures IsLine(lf, l) && s == l + t && |t| < |s|
  {
    var k := LineEnd(lf, s);
    l, t := s[..k], s[k..];
  }

  lemma FramedCons<T>(lf: T, l: seq<T>, ls: seq<seq<T>>)
    requires IsLine(lf, l)
    ensures Framed(lf, [l] + ls) <==> Framed(lf, ls)
  {
    var all := [l] + ls;
    assert forall i | 0 <= i < |ls| :: all[i + 1] == ls[i];
    assert forall i | 0 < i < |all| :: all[i] == ls[i - 1];
  }

  lemma Unterminated<T>(lf: T, s: seq<T>)
    requires lf !in s && s != []
    ensures Split(lf, s) == [s]
  {
    assert s[..|s|] == s && s[|s|..] == [];
  }

  lemma {:induction false} SplitIsFramed<T>(lf: T, s: seq<T>)
    ensures Framed(lf, Split(lf, s)) && Join(Split(lf, s)) == s
    decreases |s|
  {
    if lf in s {
      var l, t := FirstLine(lf, s);
      LineIsCutOff(lf, l, t);
      SplitIsFramed(lf, t);
      FramedCons(lf, l, Split(lf, t));
      assert ([l] + Split(lf, t))[1..] == Split(lf, t);
    } else if s != [] {
      Unterminated(lf, s);
    }
  }

  /** The framing decides the split: there is only one. */
  lemma {:induction false} SplitIsUnique<T>(lf: T, ls: seq<seq<T>>)
    requires Framed(lf, ls)
    ensures Split(lf, Join(ls)) == ls
  {
    if ls != [] {
      assert ls == [ls[0]] + ls[1..];
      if IsLine(lf, ls[0]) {
        FramedCons(lf, ls[0], ls[1..]);
        SplitIsUnique(lf, ls[1..]);
        LineIsCutOff(lf, ls[0], Join(ls[1..]));
      } else {
        assert |ls| == 1 && Join(ls) == ls[0];
        Unterminated(lf, ls[0]);
      }
    }
  }

  lemma NoLine<T>(lf: T, s: seq<T>)
    requires lf !in s
    ensures Complete(lf, s) == [] && Rest(lf, s) == s
  {}

  lemma {:induction false} CompleteAndRest<T>(lf: T, s: seq<T>)
    ensures Join(Complete(lf, s)) + Rest(lf, s) == s
    ensures Split(lf, s) == Complete(lf, s) + if Rest(lf, s) == [] then [] else [Rest(lf, s)]
    ensures Framed(lf, Complete(lf, s))
    decreases |s|
  {
    hide Complete, Rest, Split, Framed;
    if lf in s {
      var l, t := FirstLine(lf, s);
      LineIsCutOff(lf, l, t);
      CompleteAndRest(lf, t);
      FramedCons(lf, l, Complete(lf, t));
      assert ([l] + Complete(lf, t))[1..] == Complete(lf, t);
      assert l + (Join(Complete(lf, t)) + Rest(lf, t)) == s;
    } else {
      NoLine(lf, s);
      SplitNothing(lf, s);
    }
  }

  lemma SplitNothing<T>(lf: T, s: seq<T>)
    requires lf !in s
    ensures Split(lf, s) == if s == [] then [] else [s]
    ensures Framed(lf, [])
  {
    if s != [] {
      Unterminated(lf, s);
    }
  }

  lemma LineThenMore<T>(lf: T, l: seq<T>, t: seq<T>, b: seq<T>)
    requires IsLine(lf, l)
    ensures Complete(lf, (l + t) + b) == [l] + Complete(lf, t + b)
    ensures Rest(lf, (l + t) + b) == Rest(lf, t + b)
  {
    assert (l + t) + b == l + (t + b);
    LineIsCutOff(lf, l, t + b);
  }

  /** Feeding a stream in two pieces takes the same lines and leaves the same rest. */
  lemma {:induction false} FeedInPieces<T>(lf: T, a: seq<T>, b: seq<T>)
    ensures Complete(lf, a + b) == Complete(lf, a) + Complete(lf, Rest(lf, a) + b)
    ensures Rest(lf, a + b) == Rest(lf, Rest(lf, a) + b)
    decreases |a|
  {
    hide Complete, Rest, LineEnd;
    if lf in a {
      var l, t := FirstLine(lf, a);
      FeedInPieces(lf, t, b);
      LineThenMore(lf, l, t, b);
      LineIsCutOff(lf, l, t);
    } else {
      NoLine(lf, a);
    }
  }
}
