/** Small definitions shared by the modules of the model. */
module Prelude {

  /** A value that may be absent (a null pointer). */
  datatype Option<T> = None | Some(value: T)

  lemma AppendAssoc<T>(a: seq<T>, b: seq<T>, c: seq<T>)
    ensures (a + b) + c == a + (b + c)
  {
  }

  lemma AppendAssoc4<T>(a: seq<T>, b: seq<T>, c: seq<T>, d: seq<T>)
    ensures a + b + c + d == a + (b + c + d)
  {
    AppendAssoc(a, b, c);
    AppendAssoc(a, b + c, d);
  }

  /** Apply `step` to the elements of `w` in turn, stopping at the first
      that gives no result. */
  function Steps<S, B>(step: (S, B) -> Option<S>, s: S, w: seq<B>): Option<S>
    decreases |w|
  {
    if |w| == 0 then Some(s)
    else match Steps(step, s, w[..|w| - 1])
      case None => None
      case Some(t) => step(t, w[|w| - 1])
  }

  /** Steps over a concatenation compose. */
  lemma {:induction false} StepsAppend<S, B>(step: (S, B) -> Option<S>, s: S, a: seq<B>, b: seq<B>)
    ensures Steps(step, s, a + b) == if Steps(step, s, a).Some? then Steps(step, Steps(step, s, a).value, b) else None
    decreases |b|
  {
    if |b| == 0 {
      assert a + b == a;
    } else {
      assert (a + b)[..|a + b| - 1] == a + b[..|b| - 1];
      StepsAppend(step, s, a, b[..|b| - 1]);
    }
  }

  /** The first step of a run of steps. */
  lemma StepsFront<S, B>(step: (S, B) -> Option<S>, s: S, c: B, w: seq<B>)
    ensures Steps(step, s, [c] + w) == if step(s, c).Some? then Steps(step, step(s, c).value, w) else None
  {
    assert [c][..0] == [];
    StepsAppend(step, s, [c], w);
  }

  /** The steps before the last element of a concatenation. */
  lemma StepsBeforeLast<S, B>(step: (S, B) -> Option<S>, s: S, head: seq<B>, tail: seq<B>, t: S)
    requires |tail| > 0 && Steps(step, s, head) == Some(t)
    ensures var f := head + tail;
      && f[|f| - 1] == tail[|tail| - 1]
      && Steps(step, s, f[..|f| - 1]) == Steps(step, t, tail[..|tail| - 1])
  {
    var f := head + tail;
    assert f[..|f| - 1] == head + tail[..|tail| - 1];
    StepsAppend(step, s, head, tail[..|tail| - 1]);
  }

  /** A sequence of two or more elements, and its part before the last,
      split after the first. */
  lemma SplitFront<T>(f: seq<T>)
    requires |f| > 1
    ensures f[..|f| - 1] == [f[0]] + f[1..][..|f| - 2] && f[|f| - 1] == f[1..][|f| - 2]
  {
  }

  /** A slice that holds `f`, split after its first element. */
  lemma SliceFront<T>(s: seq<T>, i: nat, k: nat, f: seq<T>)
    requires k == i + |f| && |f| > 0 && k <= |s| && s[i..k] == f
    ensures s[i] == f[0] && s[i + 1..k] == f[1..]
  {
    assert s[i..k][1..] == s[i + 1..k];
  }

  /** Where a scan that may stop early stands: still going in state `s`, or
      stopped with result `r`. */
  datatype Halt<S, R> = Going(s: S) | Halted(r: R)

  /** Apply `step` to the elements of `w` in turn, until one of them stops
      the scan. */
  function Fold<S, B, R>(step: (S, B) -> Halt<S, R>, s: S, w: seq<B>): Halt<S, R>
    decreases |w|
  {
    if |w| == 0 then Going(s)
    else match step(s, w[0])
      case Halted(r) => Halted(r)
      case Going(t) => Fold(step, t, w[1..])
  }

  /** A fold over a concatenation is a fold over its first part followed,
      if that did not stop, by a fold over the second. */
  lemma {:induction false} FoldAppend<S, B, R>(step: (S, B) -> Halt<S, R>, s: S, a: seq<B>, b: seq<B>)
    ensures Fold(step, s, a + b) == match Fold(step, s, a)
      case Going(t) => Fold(step, t, b)
      case Halted(r) => Halted(r)
    decreases |a|
  {
    if |a| == 0 {
      assert a + b == b;
    } else {
      assert (a + b)[0] == a[0] && (a + b)[1..] == a[1..] + b;
      match step(s, a[0])
      case Halted(r) =>
      case Going(t) => FoldAppend(step, t, a[1..], b);
    }
  }

  /** The first step of a fold. */
  lemma FoldCons<S, B, R>(step: (S, B) -> Halt<S, R>, s: S, c: B, w: seq<B>)
    ensures Fold(step, s, [c] + w) == if step(s, c).Going? then Fold(step, step(s, c).s, w) else step(s, c)
  {
    assert ([c] + w)[0] == c && ([c] + w)[1..] == w;
  }

  /** A first step that goes on leaves the rest of the fold. */
  lemma FoldGoing<S, B, R>(step: (S, B) -> Halt<S, R>, s: S, c: B, w: seq<B>, t: S)
    requires step(s, c) == Going(t)
    ensures Fold(step, s, [c] + w) == Fold(step, t, w)
  {
    FoldCons(step, s, c, w);
  }

  /** Two states the first step treats alike lead to the same result. */
  lemma FoldSameStep<S, B, R>(step: (S, B) -> Halt<S, R>, a: S, b: S, w: seq<B>)
    requires |w| > 0 && step(a, w[0]) == step(b, w[0])
    ensures Fold(step, a, w) == Fold(step, b, w)
  {
  }

  /** The list without its first occurrence of `x`. */
  function RemoveFirst<T(==)>(s: seq<T>, x: T): (r: seq<T>)
    ensures x in s ==> |r| == |s| - 1 && multiset(r) == multiset(s) - multiset{x}
    ensures x !in s ==> r == s
    decreases |s|
  {
    if |s| == 0 then []
    else
      assert s == [s[0]] + s[1..];
      if s[0] == x then s[1..]
      else
        var r := RemoveFirst(s[1..], x);
        assert multiset([s[0]] + r) == multiset{s[0]} + multiset(r);
        [s[0]] + r
  }

  /** Where the first occurrence is, the list is cut. */
  lemma RemoveFirstAt<T>(s: seq<T>, x: T, k: nat)
    requires k <= |s| && x !in s[..k] && (k < |s| ==> s[k] == x)
    ensures RemoveFirst(s, x) == if k < |s| then s[..k] + s[k + 1..] else s
  {
    if k == |s| {
      assert s[..k] == s;
    } else {
      RemoveFirstHit(s, x, k);
    }
  }

  lemma {:induction false} RemoveFirstHit<T>(s: seq<T>, x: T, k: nat)
    requires k < |s| && x !in s[..k] && s[k] == x
    ensures RemoveFirst(s, x) == s[..k] + s[k + 1..]
    decreases k
  {
    if k > 0 {
      var t := s[1..];
      assert s[0] in s[..k] && t[..k - 1] == s[1..k];
      RemoveFirstHit(t, x, k - 1);
      assert RemoveFirst(s, x) == [s[0]] + RemoveFirst(t, x);
      assert s[..k] == [s[0]] + t[..k - 1] && s[k + 1..] == t[k..];
      AppendAssoc([s[0]], t[..k - 1], t[k..]);
    }
  }

  /** The index of the first occurrence of `x`, or the length when there
      is none. */
  function IndexOf<T(==)>(s: seq<T>, x: T): (k: nat)
    ensures k <= |s| && x !in s[..k] && (k < |s| ==> s[k] == x)
    ensures k == |s| <==> x !in s
  {
    if |s| == 0 then 0
    else if s[0] == x then 0
    else
      var k := IndexOf(s[1..], x);
      assert s[..k + 1] == [s[0]] + s[1..][..k];
      k + 1
  }
}
