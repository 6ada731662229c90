/**
 * The terms dictionary of an openfermion QubitOperator.
 *
 * Python dictionaries keep insertion order, and the translator emits Qiskit
 * terms in that order, so a dictionary is modelled as a sequence of
 * (key, value) pairs: assigning to a present key replaces its value in place,
 * assigning to a new key appends it.
 */
module QubitOperators {
  import opened Wrappers
  import opened PauliStrings

  /** Operator coefficients are complex numbers. */
  datatype Complex = Complex(re: real, im: real)

  const Zero: Complex := Complex(0.0, 0.0)

  function Add(a: Complex, b: Complex): Complex {
    Complex(a.re + b.re, a.im + b.im)
  }

  /** Multiplication by an integer factor, as `np.prod(c) * coeff` does. */
  function Scale(k: int, z: Complex): Complex {
    Complex(k as real * z.re, k as real * z.im)
  }

  type Terms<C> = seq<(Term, C)>

  function Keys<C>(d: Terms<C>): set<Term> {
    set i | 0 <= i < |d| :: d[i].0
  }

  predicate DistinctKeys<C>(d: Terms<C>) {
    forall i, j :: 0 <= i < j < |d| ==> d[i].0 != d[j].0
  }

  lemma KeysCons<C>(x: (Term, C), d: Terms<C>)
    ensures Keys([x] + d) == {x.0} + Keys(d)
  {
    var e := [x] + d;
    forall y | y in Keys(e) ensures y in {x.0} + Keys(d) {
      var i :| 0 <= i < |e| && e[i].0 == y;
      if i > 0 { assert e[i] == d[i - 1]; }
    }
    forall y | y in Keys(d) ensures y in Keys(e) {
      var i :| 0 <= i < |d| && d[i].0 == y;
      assert e[i + 1] == d[i];
    }
    assert e[0] == x;
  }

  lemma DistinctCons<C>(x: (Term, C), d: Terms<C>)
    ensures DistinctKeys([x] + d) <==> x.0 !in Keys(d) && DistinctKeys(d)
  {
    var e := [x] + d;
    if DistinctKeys(e) {
      forall i | 0 <= i < |d| ensures d[i].0 != x.0 {
        assert e[0] == x && e[i + 1] == d[i];
        assert e[0].0 != e[i + 1].0;
      }
      forall i, j | 0 <= i < j < |d| ensures d[i].0 != d[j].0 {
        assert e[i + 1] == d[i] && e[j + 1] == d[j];
      }
    }
    if x.0 !in Keys(d) && DistinctKeys(d) {
      forall i, j | 0 <= i < j < |e| ensures e[i].0 != e[j].0 {
        assert e[j] == d[j - 1];
        if i > 0 { assert e[i] == d[i - 1]; }
      }
    }
  }

  /** Every key of `d` names only qubits below `n`. */
  predicate TermsBelow<C>(d: Terms<C>, n: nat) {
    forall i :: 0 <= i < |d| ==> IndicesBelow(d[i].0, n)
  }

  /** `d.get(k)`: the value stored under `k`, if any. */
  function Lookup<C>(d: Terms<C>, k: Term): (r: Option<C>)
    ensures r.Some? <==> k in Keys(d)
  {
    if d == [] then None
    else if d[0].0 == k then Some(d[0].1)
    else
      KeysCons(d[0], d[1..]);
      assert [d[0]] + d[1..] == d;
      Lookup(d[1..], k)
  }

  /**
   * `d[k] = v`: replaces the value of a present key in place and appends a new
   * key at the end, so the other entries keep their values and their order.
   */
  function Put<C>(d: Terms<C>, k: Term, v: C): (r: Terms<C>)
    ensures forall k' :: Lookup(r, k') == if k' == k then Some(v) else Lookup(d, k')
    ensures Keys(r) == Keys(d) + {k}
    ensures DistinctKeys(d) ==> DistinctKeys(r)
    ensures k !in Keys(d) ==> r == d + [(k, v)]
  {
    if d == [] then
      assert [(k, v)][0] == (k, v);
      [(k, v)]
    else
      KeysCons(d[0], d[1..]);
      assert [d[0]] + d[1..] == d;
      if d[0].0 == k then
        KeysCons((k, v), d[1..]);
        DistinctCons((k, v), d[1..]);
        DistinctCons(d[0], d[1..]);
        [(k, v)] + d[1..]
      else
        var rest := Put(d[1..], k, v);
        KeysCons(d[0], rest);
        DistinctCons(d[0], rest);
        DistinctCons(d[0], d[1..]);
        [d[0]] + rest
  }

  /**
   * Assigning to a present key changes its value where it stands: every key
   * keeps its position.
   */
  lemma {:induction false} PutInPlace<C>(d: Terms<C>, k: Term, v: C)
    requires k in Keys(d)
    ensures |Put(d, k, v)| == |d|
    ensures forall i :: 0 <= i < |d| ==> Put(d, k, v)[i].0 == d[i].0
  {
    KeysCons(d[0], d[1..]);
    assert [d[0]] + d[1..] == d;
    if d[0].0 != k {
      PutInPlace(d[1..], k, v);
      var r, rest := Put(d, k, v), Put(d[1..], k, v);
      assert r == [d[0]] + rest;
      forall i | 0 < i < |d|
        ensures r[i].0 == d[i].0
      {
        assert r[i] == rest[i - 1] && d[i] == d[1..][i - 1];
      }
    }
  }

  /**
   * `d += v * QubitOperator(k)` for a single term: the stored coefficient of
   * `k` (zero when absent) plus `v`.
   */
  function AddTerm(d: Terms<Complex>, k: Term, v: Complex): (r: Terms<Complex>)
    ensures forall k' :: Lookup(r, k') == if k' == k then Some(Add(Lookup(d, k).GetOr(Zero), v)) else Lookup(d, k')
    ensures Keys(r) == Keys(d) + {k}
    ensures DistinctKeys(d) ==> DistinctKeys(r)
  {
    Put(d, k, Add(Lookup(d, k).GetOr(Zero), v))
  }
}
