/**
 * The sequential async helpers: `SelectAsync` awaits `func` on one item at a
 * time, in enumeration order, and `ToListAsync` collects what it yields.
 * Whatever the awaited calls may change (the summary cache, in the range
 * endpoint) is threaded through as an explicit state.
 */
module AsyncExtensions {

  /** `enumerable.SelectAsync(func)`: call i starts only after call i-1 has produced its state. */
  function SelectAsync<S, A, B>(xs: seq<A>, s: S, f: (S, A) -> (B, S)): (r: (seq<B>, S))
    ensures |r.0| == |xs|
  {
    if |xs| == 0 then ([], s)
    else
      var (bs, s1) := SelectAsync(xs[..|xs| - 1], s, f);
      var (b, s2) := f(s1, xs[|xs| - 1]);
      (bs + [b], s2)
  }

  /** The state the call on `xs[i]` observes: the one left by the calls on `xs[..i]`. */
  function StateBefore<S, A, B>(xs: seq<A>, s: S, f: (S, A) -> (B, S), i: nat): S
    requires i <= |xs|
  {
    SelectAsync(xs[..i], s, f).1
  }

  /** Running on a prefix yields a prefix of the outputs: earlier results never depend on later items. */
  lemma {:induction false} SelectAsyncPrefix<S, A, B>(xs: seq<A>, s: S, f: (S, A) -> (B, S), i: nat)
    requires i <= |xs|
    ensures SelectAsync(xs[..i], s, f).0 == SelectAsync(xs, s, f).0[..i]
    decreases |xs|
  {
    if i < |xs| {
      var p := xs[..|xs| - 1];
      assert p[..i] == xs[..i];
      SelectAsyncPrefix(p, s, f, i);
    } else {
      assert xs[..i] == xs;
    }
  }

  /** One step of the fold: the call on `xs[i]` sees the state left by the calls before it. */
  lemma SelectAsyncStep<S, A, B>(xs: seq<A>, s: S, f: (S, A) -> (B, S), i: nat)
    requires i < |xs|
    ensures SelectAsync(xs, s, f).0[i] == f(StateBefore(xs, s, f, i), xs[i]).0
    ensures StateBefore(xs, s, f, i + 1) == f(StateBefore(xs, s, f, i), xs[i]).1
  {
    var q := xs[..i + 1];
    assert q[..|q| - 1] == xs[..i];
    assert q[|q| - 1] == xs[i];
    var r := SelectAsync(q, s, f);
    var p := SelectAsync(xs[..i], s, f);
    assert r.0 == p.0 + [f(p.1, xs[i]).0];
    SelectAsyncPrefix(xs, s, f, i + 1);
  }

  /**
   * The i-th output is what `func` returns for the i-th input in the state the
   * previous calls left; the final state is the one after the last call.
   */
  lemma SelectAsyncSequential<S, A, B>(xs: seq<A>, s: S, f: (S, A) -> (B, S))
    ensures SelectAsync(xs, s, f).1 == StateBefore(xs, s, f, |xs|)
    ensures forall i :: 0 <= i < |xs| ==>
              SelectAsync(xs, s, f).0[i] == f(StateBefore(xs, s, f, i), xs[i]).0 &&
              StateBefore(xs, s, f, i + 1) == f(StateBefore(xs, s, f, i), xs[i]).1
  {
    assert xs[..|xs|] == xs;
    forall i | 0 <= i < |xs|
      ensures SelectAsync(xs, s, f).0[i] == f(StateBefore(xs, s, f, i), xs[i]).0
      ensures StateBefore(xs, s, f, i + 1) == f(StateBefore(xs, s, f, i), xs[i]).1
    {
      SelectAsyncStep(xs, s, f, i);
    }
  }

  /** Wraps a state-free function as a step that leaves the state alone. */
  function Stateless<S, A, B>(g: A -> B): (S, A) -> (B, S) {
    (st: S, a: A) => (g(a), st)
  }

  /** With a function that ignores the state, the outputs are `func` applied pointwise, in order. */
  lemma {:induction false} SelectAsyncPointwise<S, A, B>(xs: seq<A>, s: S, g: A -> B)
    ensures SelectAsync(xs, s, Stateless(g)).1 == s
    ensures forall i :: 0 <= i < |xs| ==> SelectAsync(xs, s, Stateless(g)).0[i] == g(xs[i])
  {
    if |xs| > 0 {
      SelectAsyncPointwise(xs[..|xs| - 1], s, g);
    }
  }

  /** `ToListAsync`: appends each yielded item in enumeration order. */
  method ToListAsync<T>(items: seq<T>) returns (list: seq<T>)
    ensures list == items
  {
    list := [];
    var i := 0;
    while i < |items|
      invariant 0 <= i <= |items|
      invariant list == items[..i]
    {
      list := list + [items[i]];
      i := i + 1;
    }
  }
}
