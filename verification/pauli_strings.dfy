/**
 * Pauli strings and openfermion term tuples.
 *
 * A term tuple is openfermion's key for one Pauli product: a sequence of
 * (qubit index, letter) factors such as ((0, 'X'), (3, 'Z')). A Pauli string
 * has one letter per qubit, 'I' where the tuple says nothing.
 *
 * The two conversions are the helpers `pauli_of_to_string` and
 * `pauli_string_to_of` of tangelo.linq.helpers, which are not part of this
 * model's sources; they are specified here from the way the translator and
 * the trimming code use them, and the rest of the model relies on exactly
 * the contracts below.
 */
module PauliStrings {

  type Term = seq<(nat, char)>

  /** The qubits a term tuple names. */
  function Qubits(t: Term): set<nat> {
    set k | 0 <= k < |t| :: t[k].0
  }

  /** Every factor of `t` acts on one of the qubits 0 .. n-1. */
  predicate IndicesBelow(t: Term, n: nat) {
    forall k :: 0 <= k < |t| ==> t[k].0 < n
  }

  /**
   * The form openfermion keeps its term keys in: qubit indices strictly
   * ascending and below `n`, and no identity factor.
   */
  predicate Canonical(t: Term, n: nat) {
    && IndicesBelow(t, n)
    && (forall k :: 0 <= k < |t| ==> t[k].1 != 'I')
    && (forall j, k :: 0 <= j < k < |t| ==> t[j].0 < t[k].0)
  }

  lemma QubitsAppend(t: Term, x: (nat, char))
    ensures Qubits(t + [x]) == Qubits(t) + {x.0}
  {
    var u := t + [x];
    forall q | q in Qubits(t)
      ensures q in Qubits(u)
    {
      var k :| 0 <= k < |t| && t[k].0 == q;
      assert u[k] == t[k];
    }
    assert u[|t|] == x;
  }

  /** `s[::-1]`: the bit-order flip between Tangelo's and Qiskit's labels. */
  function Reverse(s: string): (r: string)
    ensures |r| == |s|
    ensures forall k :: 0 <= k < |s| ==> r[k] == s[|s| - 1 - k]
  {
    if s == [] then [] else Reverse(s[1..]) + [s[0]]
  }

  lemma ReverseInvolution(s: string)
    ensures Reverse(Reverse(s)) == s
  {
    var r := Reverse(Reverse(s));
    assert |r| == |s|;
    forall k | 0 <= k < |s|
      ensures r[k] == s[k]
    {
      assert r[k] == Reverse(s)[|s| - 1 - k];
    }
  }

  /**
   * `pauli_of_to_string(t, n)`: start from n identities and write each factor's
   * letter at its qubit, in order (a later factor on the same qubit wins).
   */
  function PauliOfToString(t: Term, n: nat): (s: string)
    requires IndicesBelow(t, n)
    ensures |s| == n
    ensures forall q :: 0 <= q < n && q !in Qubits(t) ==> s[q] == 'I'
    ensures forall k {:trigger s[t[k].0]} :: 0 <= k < |t| && (forall j :: k < j < |t| ==> t[j].0 != t[k].0) ==> s[t[k].0] == t[k].1
  {
    if t == [] then seq(n, _ => 'I')
    else
      var init := t[..|t| - 1];
      QubitsAppend(init, t[|t| - 1]);
      assert init + [t[|t| - 1]] == t;
      PauliOfToString(init, n)[t[|t| - 1].0 := t[|t| - 1].1]
  }

  /** `pauli_string_to_of(s)`: the factors (i, s[i]) for every i where s[i] is not 'I', in order. */
  function PauliStringToOf(s: string): (t: Term)
    ensures Canonical(t, |s|)
    ensures forall k :: 0 <= k < |t| ==> s[t[k].0] == t[k].1
    ensures forall q :: 0 <= q < |s| && s[q] != 'I' ==> q in Qubits(t)
  {
    if s == [] then []
    else
      var init := PauliStringToOf(s[..|s| - 1]);
      if s[|s| - 1] == 'I' then init
      else
        QubitsAppend(init, (|s| - 1, s[|s| - 1]));
        init + [(|s| - 1, s[|s| - 1])]
  }

  /** A canonical term names each qubit once, so each factor is the last one on its qubit. */
  lemma CanonicalLetters(t: Term, n: nat)
    requires Canonical(t, n)
    ensures forall k :: 0 <= k < |t| ==> PauliOfToString(t, n)[t[k].0] == t[k].1
  {
    forall k | 0 <= k < |t|
      ensures PauliOfToString(t, n)[t[k].0] == t[k].1
    {
      assert forall j :: k < j < |t| ==> t[j].0 != t[k].0;
    }
  }

  /** Reading a string into a term tuple and writing it back gives the string. */
  lemma StringRoundTrip(s: string)
    ensures PauliOfToString(PauliStringToOf(s), |s|) == s
  {
    var t := PauliStringToOf(s);
    var r := PauliOfToString(t, |s|);
    CanonicalLetters(t, |s|);
    forall q | 0 <= q < |s|
      ensures r[q] == s[q]
    {
      if q in Qubits(t) {
        var k :| 0 <= k < |t| && t[k].0 == q;
        assert r[q] == t[k].1 == s[q];
      }
    }
  }

  /** Two term tuples with ascending distinct indices and the same factors are the same tuple. */
  lemma {:induction false} AscendingUnique<V>(a: seq<(nat, V)>, b: seq<(nat, V)>)
    requires forall j, k :: 0 <= j < k < |a| ==> a[j].0 < a[k].0
    requires forall j, k :: 0 <= j < k < |b| ==> b[j].0 < b[k].0
    requires forall x :: x in a <==> x in b
    ensures a == b
  {
    if b != [] {
      assert b[0] in b;
    }
    if a != [] {
      assert a[0] in a;
      var i :| 0 <= i < |a| && a[i] == b[0];
      var j :| 0 <= j < |b| && b[j] == a[0];
      assert i == 0;
      forall x
        ensures x in a[1..] <==> x in b[1..]
      {
        if x in a[1..] {
          var p :| 1 <= p < |a| && a[p] == x;
          assert x in b;
          var m :| 0 <= m < |b| && b[m] == x;
          assert m != 0 by { assert a[0].0 < a[p].0; }
        }
        if x in b[1..] {
          var p :| 1 <= p < |b| && b[p] == x;
          assert x in a;
          var m :| 0 <= m < |a| && a[m] == x;
          assert m != 0 by { assert b[0].0 < b[p].0; }
        }
      }
      AscendingUnique(a[1..], b[1..]);
      assert a == [a[0]] + a[1..];
      assert b == [b[0]] + b[1..];
    }
  }

  lemma FactorSurvives(t: Term, n: nat, k: nat)
    requires Canonical(t, n) && k < |t|
    ensures t[k] in PauliStringToOf(PauliOfToString(t, n))
  {
    var s := PauliOfToString(t, n);
    var u := PauliStringToOf(s);
    assert forall j :: k < j < |t| ==> t[j].0 != t[k].0;
    assert s[t[k].0] == t[k].1;
    assert t[k].0 in Qubits(u);
    var m :| 0 <= m < |u| && u[m].0 == t[k].0;
    assert u[m] == t[k];
  }

  lemma FactorOrigin(t: Term, n: nat, m: nat)
    requires Canonical(t, n) && m < |PauliStringToOf(PauliOfToString(t, n))|
    ensures PauliStringToOf(PauliOfToString(t, n))[m] in t
  {
    var s := PauliOfToString(t, n);
    var u := PauliStringToOf(s);
    var x := u[m];
    assert s[x.0] == x.1 != 'I';
    assert x.0 in Qubits(t);
    var k :| 0 <= k < |t| && t[k].0 == x.0;
    assert forall j :: k < j < |t| ==> t[j].0 != t[k].0;
    assert t[k] == x;
  }

  /** Writing a canonical term tuple out as a string and reading it back gives the tuple. */
  lemma TermRoundTrip(t: Term, n: nat)
    requires Canonical(t, n)
    ensures PauliStringToOf(PauliOfToString(t, n)) == t
  {
    var u := PauliStringToOf(PauliOfToString(t, n));
    forall x
      ensures x in t <==> x in u
    {
      if x in t {
        var k :| 0 <= k < |t| && t[k] == x;
        FactorSurvives(t, n, k);
      }
      if x in u {
        var m :| 0 <= m < |u| && u[m] == x;
        FactorOrigin(t, n, m);
      }
    }
    AscendingUnique(t, u);
  }
}
