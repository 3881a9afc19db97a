/** Job wrapper chains of the cron package: a chain decorates a job with each of its wrappers. */
module CronChain {
  /** A Chain: the wrappers in the order they were given to NewChain. */
  datatype Chain<!J> = Chain(wrappers: seq<J -> J>)

  /** NewChain: a chain of the given wrappers. */
  function NewChain<J>(c: seq<J -> J>): Chain<J> {
    Chain(c)
  }

  /** The first wrapper applied outermost: Wrapped([m1, m2, m3], j) is m1(m2(m3(j))). */
  function Wrapped<J>(ws: seq<J -> J>, j: J): J
    decreases |ws|
  {
    if ws == [] then j else ws[0](Wrapped(ws[1..], j))
  }

  /** Then: the wrappers applied from the last to the first. */
  method Then<J>(c: Chain<J>, j: J) returns (r: J)
    ensures r == Wrapped(c.wrappers, j)
  {
    var ws := c.wrappers;
    r := j;
    var i := 0;
    while i < |ws|
      invariant 0 <= i <= |ws| && r == Wrapped(ws[|ws| - i..], j)
    {
      assert ws[|ws| - i - 1..][1..] == ws[|ws| - i..];
      r := ws[|ws| - i - 1](r);
      i := i + 1;
    }
  }

  /** The documented example: NewChain(m1, m2, m3) decorates a job as m1(m2(m3(job))). */
  lemma ThreeWrappers<J>(m1: J -> J, m2: J -> J, m3: J -> J, j: J)
    ensures Wrapped(NewChain([m1, m2, m3]).wrappers, j) == m1(m2(m3(j)))
  {
    assert [m3][1..] == [];
    assert Wrapped([m3], j) == m3(j);
    assert [m2, m3][1..] == [m3];
    assert Wrapped([m2, m3], j) == m2(m3(j));
    assert [m1, m2, m3][1..] == [m2, m3];
  }

  /** An empty chain leaves the job as it is. */
  lemma EmptyChain<J>(j: J)
    ensures Wrapped(NewChain<J>([]).wrappers, j) == j
  {
  }

  /** Chains compose: the wrappers of xs + ys decorate as xs around ys. */
  lemma {:induction false} ChainAppend<J>(xs: seq<J -> J>, ys: seq<J -> J>, j: J)
    ensures Wrapped(xs + ys, j) == Wrapped(xs, Wrapped(ys, j))
    decreases |xs|
  {
    if xs == [] {
      assert xs + ys == ys;
    } else {
      assert (xs + ys)[1..] == xs[1..] + ys;
      ChainAppend(xs[1..], ys, j);
    }
  }
}
