/** Vocabulary shared by the model of every component. */
module Prelude {

  datatype Option<+T> = None | Some(value: T)

  /** Several statements of the library visibly miss their intent.  Every operation that
      contains one takes a Reading:  AsWritten executes the statement as it stands in the
      file,  Intended executes the statement it was meant to be.  All other statements are
      the same under both readings. */
  datatype Reading = AsWritten | Intended

  /** The result of a sequence of steps. */
  function Fold<S, T>(step: (S, T) -> S, s: S, ts: seq<T>): S
    decreases |ts|
  {
    if ts == [] then s else step(Fold(step, s, ts[..|ts| - 1]), ts[|ts| - 1])
  }

  lemma FoldSnoc<S, T>(step: (S, T) -> S, s: S, ts: seq<T>, t: T)
    ensures Fold(step, s, ts + [t]) == step(Fold(step, s, ts), t)
  {
    assert (ts + [t])[..|ts|] == ts;
  }

  lemma FoldTwo<S, T>(step: (S, T) -> S, s: S, t: T, u: T)
    ensures Fold(step, s, [t]) == step(s, t)
    ensures Fold(step, s, [t, u]) == step(step(s, t), u)
  {
    assert [t][..0] == [] && [t, u][..1] == [t];
  }

  lemma FoldFour<S, T>(step: (S, T) -> S, s: S, t: T, u: T, v: T, w: T)
    ensures Fold(step, s, [t, u, v]) == step(step(step(s, t), u), v)
    ensures Fold(step, s, [t, u, v, w]) == step(step(step(step(s, t), u), v), w)
  {
    FoldTwo(step, s, t, u);
    assert [t, u, v][..2] == [t, u] && [t, u, v, w][..3] == [t, u, v];
  }

  lemma {:induction false} FoldAppend<S, T>(step: (S, T) -> S, s: S, ts: seq<T>, us: seq<T>)
    ensures Fold(step, s, ts + us) == Fold(step, Fold(step, s, ts), us)
    decreases |us|
  {
    if us == [] {
      assert ts + us == ts;
    } else {
      var n := |us| - 1;
      FoldAppend(step, s, ts, us[..n]);
      assert (ts + us)[..|ts + us| - 1] == ts + us[..n];
    }
  }

  /** The results of f, one after the other. */
  function FlatMap<T, U>(f: T -> seq<U>, ts: seq<T>): seq<U>
    decreases |ts|
  {
    if ts == [] then [] else FlatMap(f, ts[..|ts| - 1]) + f(ts[|ts| - 1])
  }

  lemma FlatMapSnoc<T, U>(f: T -> seq<U>, ts: seq<T>, t: T)
    ensures FlatMap(f, ts + [t]) == FlatMap(f, ts) + f(t)
  {
    assert (ts + [t])[..|ts|] == ts;
  }

  lemma {:induction false} FlatMapAppend<T, U>(f: T -> seq<U>, ts: seq<T>, us: seq<T>)
    ensures FlatMap(f, ts + us) == FlatMap(f, ts) + FlatMap(f, us)
    decreases |us|
  {
    if us == [] {
      assert ts + us == ts;
    } else {
      var n := |us| - 1;
      FlatMapAppend(f, ts, us[..n]);
      assert (ts + us)[..|ts + us| - 1] == ts + us[..n];
    }
  }

  lemma Associate<T>(a: seq<T>, b: seq<T>, c: seq<T>)
    ensures (a + b) + c == a + (b + c)
  {
  }
}
