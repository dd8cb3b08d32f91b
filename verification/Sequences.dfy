/** Facts about lists and finite sets that several modules need. */
module Sequences {
  import opened Wrappers

  function Filter<T>(p: T -> bool, cs: seq<T>): seq<T> {
    if cs == [] then []
    else
      var n := |cs| - 1;
      if p(cs[n]) then Filter(p, cs[..n]) + [cs[n]] else Filter(p, cs[..n])
  }

  lemma {:induction false} FilterConcat<T>(p: T -> bool, a: seq<T>, b: seq<T>)
    ensures Filter(p, a + b) == Filter(p, a) + Filter(p, b)
  {
    if b == [] {
      assert a + b == a;
    } else {
      var n := |b| - 1;
      FilterConcat(p, a, b[..n]);
      assert (a + b)[..|a + b| - 1] == a + b[..n];
    }
  }

  /** `part` is what is left of `whole` after dropping elements, in the same order. */
  ghost predicate Embedded<T(!new)>(part: seq<T>, whole: seq<T>) {
    exists at: seq<nat> :: EmbeddedAt(part, whole, at)
  }

  ghost predicate EmbeddedAt<T>(part: seq<T>, whole: seq<T>, at: seq<nat>) {
    && |at| == |part|
    && (forall i, j | 0 <= i < j < |at| :: at[i] < at[j])
    && (forall i | 0 <= i < |at| :: at[i] < |whole| && whole[at[i]] == part[i])
  }

  lemma EmbedsOneMore<T>(part: seq<T>, whole: seq<T>, at: seq<nat>, c: T)
    requires EmbeddedAt(part, whole, at)
    ensures EmbeddedAt(part, whole + [c], at) && EmbeddedAt(part + [c], whole + [c], at + [|whole|])
  {
  }

  lemma {:induction false} FilterEmbeds<T(!new)>(p: T -> bool, cs: seq<T>)
    ensures Embedded(Filter(p, cs), cs)
  {
    if cs == [] {
      assert EmbeddedAt(Filter(p, cs), cs, []);
    } else {
      var n := |cs| - 1;
      FilterEmbeds(p, cs[..n]);
      var at :| EmbeddedAt(Filter(p, cs[..n]), cs[..n], at);
      EmbedsOneMore(Filter(p, cs[..n]), cs[..n], at, cs[n]);
      assert cs == cs[..n] + [cs[n]];
    }
  }

  /** A filter keeps every copy of what passes and none of what does not. */
  lemma {:induction false} FilterCounts<T>(p: T -> bool, cs: seq<T>, c: T)
    ensures multiset(Filter(p, cs))[c] == if p(c) then multiset(cs)[c] else 0
  {
    if cs != [] {
      var n := |cs| - 1;
      FilterCounts(p, cs[..n], c);
      assert cs == cs[..n] + [cs[n]];
    }
  }

  lemma {:induction false} FilterAll<T>(p: T -> bool, cs: seq<T>)
    requires forall c | c in cs :: p(c)
    ensures Filter(p, cs) == cs
  {
    if cs != [] {
      FilterAll(p, cs[..|cs| - 1]);
      assert cs == cs[..|cs| - 1] + [cs[|cs| - 1]];
    }
  }

  lemma {:induction false} FilterNone<T>(p: T -> bool, cs: seq<T>)
    requires forall c | c in cs :: !p(c)
    ensures Filter(p, cs) == []
  {
    if cs != [] {
      FilterNone(p, cs[..|cs| - 1]);
    }
  }

  lemma {:induction false} FilterMembers<T(!new)>(p: T -> bool, cs: seq<T>)
    ensures forall c :: c in Filter(p, cs) <==> c in cs && p(c)
    ensures |Filter(p, cs)| <= |cs|
  {
    if cs != [] {
      var n := |cs| - 1;
      FilterMembers(p, cs[..n]);
      assert cs == cs[..n] + [cs[n]];
    }
  }

  /** A subset as large as the whole is the whole. */
  lemma {:induction false} SubsetSize<T>(a: set<T>, b: set<T>)
    requires a <= b
    ensures |a| <= |b| && (|a| == |b| ==> a == b)
  {
    if a != {} {
      var x :| x in a;
      SubsetSize(a - {x}, b - {x});
    } else if b != {} {
      var x :| x in b;
      assert |b| == |b - {x}| + 1;
    }
  }

  // ----- Lists of lists -----

  function Flatten<S, T>(f: S -> seq<T>, ss: seq<S>): seq<T> {
    if ss == [] then []
    else
      var n := |ss| - 1;
      Flatten(f, ss[..n]) + f(ss[n])
  }

  lemma FlattenOneMore<S, T>(f: S -> seq<T>, ss: seq<S>, s: S)
    ensures Flatten(f, ss + [s]) == Flatten(f, ss) + f(s)
  {
    assert (ss + [s])[..|ss|] == ss;
  }

  lemma {:induction false} FlattenHas<S, T>(f: S -> seq<T>, ss: seq<S>, x: T)
    ensures x in Flatten(f, ss) <==> exists s | s in ss :: x in f(s)
  {
    if ss != [] {
      var n := |ss| - 1;
      FlattenHas(f, ss[..n], x);
      assert ss == ss[..n] + [ss[n]];
    }
  }

  lemma JoinEqual<T>(a: seq<T>, b: seq<T>, c: seq<T>, d: seq<T>)
    requires |a| == |c|
    ensures a + b == c + d <==> a == c && b == d
  {
    if a + b == c + d {
      assert a == (a + b)[..|a|] && c == (c + d)[..|c|];
      assert b == (a + b)[|a|..] && d == (c + d)[|c|..];
    }
  }

  lemma {:induction false} FlattenSame<S, T>(f: S -> seq<T>, g: S -> seq<T>, ss: seq<S>)
    requires forall s | s in ss :: |f(s)| == |g(s)|
    ensures |Flatten(f, ss)| == |Flatten(g, ss)|
    ensures Flatten(f, ss) == Flatten(g, ss) <==> forall s | s in ss :: f(s) == g(s)
  {
    if ss != [] {
      var n := |ss| - 1;
      assert ss == ss[..n] + [ss[n]];
      FlattenSame(f, g, ss[..n]);
      JoinEqual(Flatten(f, ss[..n]), f(ss[n]), Flatten(g, ss[..n]), g(ss[n]));
    }
  }

  lemma PrefixNext<T>(ts: seq<T>, n: nat)
    requires n < |ts|
    ensures ts[..n + 1] == ts[..n] + [ts[n]]
  {
  }

  lemma InThree<T>(all: seq<T>, first: T, a: seq<T>, b: seq<T>)
    requires |all| == 1 + |a| + |b| && all[0] == first
    requires forall k {:trigger a[k]} | 0 <= k < |a| :: all[1 + k] == a[k]
    requires forall n {:trigger b[n]} | 0 <= n < |b| :: all[1 + |a| + n] == b[n]
    ensures all == [first] + (a + b)
  {
    forall i | 0 <= i < |all| ensures all[i] == ([first] + (a + b))[i] {
      if 0 < i <= |a| {
        assert a[i - 1] == (a + b)[i - 1];
      } else if i > |a| {
        assert b[i - 1 - |a|] == (a + b)[i - 1];
      }
    }
  }

  lemma Associate<T>(a: seq<T>, b: seq<T>, c: seq<T>)
    ensures a + b + c == a + (b + c)
  {
  }

  lemma Regroup<T>(a: seq<T>, b: seq<T>, c: seq<T>, d: seq<T>)
    ensures a + b + c + d == a + (b + (c + d))
  {
  }

  // ----- Steps that may fail -----

  /** Takes the steps one after another, from the first to the last, and gives up at a failure. */
  function Fold<S, T>(step: (S, T) -> Option<S>, start: S, ts: seq<T>): Option<S> {
    if ts == [] then Some(start)
    else
      var n := |ts| - 1;
      match Fold(step, start, ts[..n])
      case None => None
      case Some(s) => step(s, ts[n])
  }

  lemma FoldNext<S, T>(step: (S, T) -> Option<S>, start: S, ts: seq<T>, n: nat)
    requires n < |ts|
    ensures Fold(step, start, ts[..n + 1])
            == match Fold(step, start, ts[..n]) case None => None case Some(s) => step(s, ts[n])
  {
    assert ts[..n + 1][..n] == ts[..n];
  }

  lemma FoldWhole<S, T>(step: (S, T) -> Option<S>, start: S, ts: seq<T>)
    ensures Fold(step, start, ts[..|ts|]) == Fold(step, start, ts) && Fold(step, start, ts[..0]) == Some(start)
  {
    assert ts[..|ts|] == ts;
  }

  lemma {:induction false} FoldFails<S, T>(step: (S, T) -> Option<S>, start: S, ts: seq<T>, n: nat)
    requires n <= |ts| && Fold(step, start, ts[..n]) == None
    ensures Fold(step, start, ts) == None
    decreases |ts| - n
  {
    if n < |ts| {
      FoldNext(step, start, ts, n);
      FoldFails(step, start, ts, n + 1);
    } else {
      FoldWhole(step, start, ts);
    }
  }

  /** Goes on with more steps, unless one has failed before. */
  function FoldOn<S, T>(step: (S, T) -> Option<S>, so: Option<S>, ts: seq<T>): Option<S> {
    match so
    case None => None
    case Some(s) => Fold(step, s, ts)
  }

  lemma {:induction false} FoldConcat<S, T>(step: (S, T) -> Option<S>, start: S, a: seq<T>, b: seq<T>)
    ensures Fold(step, start, a + b) == FoldOn(step, Fold(step, start, a), b)
  {
    if b == [] {
      assert a + b == a;
    } else {
      var n := |b| - 1;
      FoldConcat(step, start, a, b[..n]);
      assert (a + b)[..|a + b| - 1] == a + b[..n];
    }
  }

  lemma FoldSingle<S, T>(step: (S, T) -> Option<S>, start: S, t: T)
    ensures Fold(step, start, [t]) == step(start, t)
  {
    assert [t][..0] == [];
  }

  /** What every step keeps, the whole keeps. */
  lemma {:induction false} FoldKeeps<S(!new), T(!new)>(inv: S -> bool, step: (S, T) -> Option<S>, start: S, ts: seq<T>)
    requires inv(start) && forall s, t | t in ts && inv(s) && step(s, t).Some? :: inv(step(s, t).value)
    ensures Fold(step, start, ts).Some? ==> inv(Fold(step, start, ts).value)
  {
    if ts != [] {
      var n := |ts| - 1;
      FoldKeeps(inv, step, start, ts[..n]);
      assert ts[n] in ts;
    }
  }

  /** If what every step keeps lets every step succeed, the whole succeeds. */
  lemma {:induction false} FoldSucceeds<S(!new), T(!new)>(inv: S -> bool, step: (S, T) -> Option<S>, start: S,
                                          ts: seq<T>)
    requires inv(start) && forall s, t | t in ts && inv(s) :: step(s, t).Some? && inv(step(s, t).value)
    ensures Fold(step, start, ts).Some? && inv(Fold(step, start, ts).value)
  {
    if ts != [] {
      var n := |ts| - 1;
      FoldSucceeds(inv, step, start, ts[..n]);
      assert ts[n] in ts;
    }
  }

  /** What one step brings about and every step keeps holds at the end. */
  lemma {:induction false} FoldReaches<S(!new), T(!new)>(goal: S -> bool, step: (S, T) -> Option<S>, start: S,
                                         ts: seq<T>, t: T)
    requires t in ts && Fold(step, start, ts).Some?
    requires forall s | step(s, t).Some? :: goal(step(s, t).value)
    requires forall s, x | x in ts && goal(s) && step(s, x).Some? :: goal(step(s, x).value)
    ensures goal(Fold(step, start, ts).value)
  {
    var n := |ts| - 1;
    if t in ts[..n] {
      FoldReaches(goal, step, start, ts[..n], t);
    }
    assert ts == ts[..n] + [ts[n]];
  }
}
