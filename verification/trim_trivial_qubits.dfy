/**
 * Trimming of qubits whose state a circuit leaves trivially |0> or |1>.
 *
 * `trim_trivial_operator` replaces every trimmed qubit of every Pauli term by
 * its expectation value in the known state (0 for X and Y, +1 or -1 for Z,
 * 1 for I), and either deletes the trimmed positions from the Pauli string
 * (`reindex`) or blanks them to 'I'. `trim_trivial_circuit` picks the qubits
 * to trim from a circuit already split into independent components, and
 * `trim_trivial_qubits` chains the two.
 */
module TrimTrivialQubits {
  import opened Wrappers
  import opened PauliStrings
  import opened QubitOperators
  import opened AbstractCircuits
  import opened Permutations

  // ---------------------------------------------------------------------------
  // Pairing and sorting the trimmed qubits with their states
  // ---------------------------------------------------------------------------

  /** `zip(xs, ys)`: pairs up to the end of the shorter list. */
  function Zip<V>(xs: seq<nat>, ys: seq<V>): (r: seq<(nat, V)>)
    ensures |r| == if |xs| <= |ys| then |xs| else |ys|
    ensures forall i :: 0 <= i < |r| ==> r[i].0 == xs[i] && r[i].1 == ys[i]
  {
    var m := if |xs| <= |ys| then |xs| else |ys|;
    seq(m, i requires 0 <= i < m => (xs[i], ys[i]))
  }

  function Firsts<V>(p: seq<(nat, V)>): seq<nat> {
    seq(|p|, i requires 0 <= i < |p| => p[i].0)
  }

  function Seconds<V>(p: seq<(nat, V)>): seq<V> {
    seq(|p|, i requires 0 <= i < |p| => p[i].1)
  }

  predicate Distinct(xs: seq<nat>) {
    forall j, k :: 0 <= j < k < |xs| ==> xs[j] != xs[k]
  }

  predicate Ascending<V>(p: seq<(nat, V)>) {
    forall j, k :: 0 <= j < k < |p| ==> p[j].0 <= p[k].0
  }

  predicate StrictlyAscending(xs: seq<nat>) {
    forall j, k :: 0 <= j < k < |xs| ==> xs[j] < xs[k]
  }

  predicate UniqueKeys<V>(p: seq<(nat, V)>) {
    forall j, k :: 0 <= j < k < |p| ==> p[j].0 != p[k].0
  }

  predicate StrictKeys<V>(p: seq<(nat, V)>) {
    forall j, k :: 0 <= j < k < |p| ==> p[j].0 < p[k].0
  }

  /**
   * Inserts `x` into an ascending list before the first entry whose key is
   * not smaller, so that entries with equal keys keep their order.
   */
  function Insert<V>(x: (nat, V), s: seq<(nat, V)>): (r: seq<(nat, V)>)
    ensures |r| == |s| + 1
    ensures multiset(r) == multiset(s) + multiset{x}
    ensures r[0] == x || (s != [] && r[0] == s[0])
  {
    if s == [] || x.0 <= s[0].0 then
      [x] + s
    else
      assert s == [s[0]] + s[1..];
      [s[0]] + Insert(x, s[1..])
  }

  lemma {:induction false} InsertAscending<V>(x: (nat, V), s: seq<(nat, V)>)
    requires Ascending(s)
    ensures Ascending(Insert(x, s))
  {
    if s != [] && x.0 > s[0].0 {
      var rest := Insert(x, s[1..]);
      var r := Insert(x, s);
      assert r == [s[0]] + rest;
      InsertAscending(x, s[1..]);
      assert s[0].0 <= rest[0].0 by {
        if rest[0] != x {
          assert s[1..][0] == s[1];
        }
      }
      forall j, k | 0 <= j < k < |r|
        ensures r[j].0 <= r[k].0
      {
        assert r[k] == rest[k - 1];
        if j > 0 {
          assert r[j] == rest[j - 1];
        } else {
          assert rest[0].0 <= rest[k - 1].0;
        }
      }
    }
  }

  lemma {:induction false} InsertStrict<V>(x: (nat, V), s: seq<(nat, V)>)
    requires StrictKeys(s) && forall k :: 0 <= k < |s| ==> s[k].0 != x.0
    ensures StrictKeys(Insert(x, s))
  {
    if s != [] && x.0 > s[0].0 {
      var rest := Insert(x, s[1..]);
      InsertStrict(x, s[1..]);
      assert s[0].0 < rest[0].0;
      assert forall k :: 0 <= k < |rest| ==> rest[0].0 <= rest[k].0;
    }
  }

  /** Python's stable `sorted(pairs, key=lambda pair: pair[0])`. */
  function SortByKey<V>(p: seq<(nat, V)>): (r: seq<(nat, V)>)
    ensures |r| == |p|
    ensures multiset(r) == multiset(p)
  {
    if p == [] then []
    else
      assert p == [p[0]] + p[1..];
      Insert(p[0], SortByKey(p[1..]))
  }

  /** The sorted list is ascending, and strictly so when no two keys are equal. */
  lemma {:induction false} SortByKeySorted<V>(p: seq<(nat, V)>)
    ensures Ascending(SortByKey(p))
    ensures UniqueKeys(p) ==> StrictKeys(SortByKey(p))
  {
    if p != [] {
      var rest := SortByKey(p[1..]);
      SortByKeySorted(p[1..]);
      InsertAscending(p[0], rest);
      if UniqueKeys(p) {
        forall k | 0 <= k < |rest|
          ensures rest[k].0 != p[0].0
        {
          assert rest[k] in multiset(p[1..]);
          var m :| 0 <= m < |p[1..]| && p[1..][m] == rest[k];
          assert p[m + 1] == rest[k];
        }
        InsertStrict(p[0], rest);
      }
    }
  }

  /** `sorted(trim_index)`: the indices, each paired with itself, sorted by key. */
  function SortedIndices(xs: seq<nat>): (r: seq<nat>)
    ensures multiset(r) == multiset(xs)
    ensures forall j, k :: 0 <= j < k < |r| ==> r[j] <= r[k]
  {
    var z := Zip(xs, xs);
    SortByKeySorted(z);
    var key := (x: (nat, nat)) => x.0;
    assert Firsts(SortByKey(z)) == Map(key, SortByKey(z)) && Firsts(z) == Map(key, z);
    MapPermutation(key, SortByKey(z), z);
    assert Firsts(z) == xs;
    Firsts(SortByKey(z))
  }

  lemma FirstsCons<V>(x: (nat, V), s: seq<(nat, V)>)
    ensures Firsts([x] + s) == [x.0] + Firsts(s)
  {
    assert forall i :: 0 < i <= |s| ==> ([x] + s)[i] == s[i - 1];
  }

  /** Where an entry is inserted depends on the keys alone. */
  lemma {:induction false} InsertFirsts<V, W>(x: (nat, V), s: seq<(nat, V)>, y: (nat, W), t: seq<(nat, W)>)
    requires x.0 == y.0 && Firsts(s) == Firsts(t)
    ensures Firsts(Insert(x, s)) == Firsts(Insert(y, t))
  {
    assert |s| == |Firsts(s)| == |t|;
    if s != [] {
      assert s[0].0 == Firsts(s)[0] == t[0].0;
      assert Firsts(s[1..]) == Firsts(t[1..]) by {
        assert forall i :: 0 <= i < |s| - 1 ==> Firsts(s[1..])[i] == Firsts(s)[i + 1];
        assert forall i :: 0 <= i < |t| - 1 ==> Firsts(t[1..])[i] == Firsts(t)[i + 1];
      }
    }
    if s == [] || x.0 <= s[0].0 {
      FirstsCons(x, s);
      FirstsCons(y, t);
    } else {
      InsertFirsts(x, s[1..], y, t[1..]);
      FirstsCons(s[0], Insert(x, s[1..]));
      FirstsCons(t[0], Insert(y, t[1..]));
    }
  }

  /** Sorting by key moves the keys the same way whatever is attached to them. */
  lemma {:induction false} SortFirsts<V, W>(p: seq<(nat, V)>, q: seq<(nat, W)>)
    requires Firsts(p) == Firsts(q)
    ensures Firsts(SortByKey(p)) == Firsts(SortByKey(q))
  {
    assert |p| == |Firsts(p)| == |q|;
    if p != [] {
      assert p[0].0 == Firsts(p)[0] == q[0].0;
      assert Firsts(p[1..]) == Firsts(q[1..]) by {
        assert forall i :: 0 <= i < |p| - 1 ==> Firsts(p[1..])[i] == Firsts(p)[i + 1];
        assert forall i :: 0 <= i < |q| - 1 ==> Firsts(q[1..])[i] == Firsts(q)[i + 1];
      }
      SortFirsts(p[1..], q[1..]);
      InsertFirsts(p[0], SortByKey(p[1..]), q[0], SortByKey(q[1..]));
    }
  }

  /**
   * The two sorts of `trim_trivial_operator` agree: sorting the (index, state)
   * pairs puts the indices in the order `sorted(trim_index)` does, so the
   * i-th sorted state belongs to the i-th sorted index.
   */
  lemma SortedPairsMatchIndices(xs: seq<nat>, states: seq<int>)
    requires |xs| <= |states|
    ensures Firsts(SortByKey(Zip(xs, states))) == SortedIndices(xs)
  {
    assert Firsts(Zip(xs, states)) == Firsts(Zip(xs, xs));
    SortFirsts(Zip(xs, states), Zip(xs, xs));
  }

  // ---------------------------------------------------------------------------
  // Removing or blanking the trimmed positions of a Pauli string
  // ---------------------------------------------------------------------------

  predicate Below(xs: seq<nat>, n: nat) {
    forall i :: 0 <= i < |xs| ==> xs[i] < n
  }

  /**
   * The string without the positions listed in `xs` (ascending): the letters
   * before the last listed position with the earlier ones removed, then the
   * letters after it.
   */
  function Removed(s: string, xs: seq<nat>): (r: string)
    requires StrictlyAscending(xs) && Below(xs, |s|)
    ensures |r| == |s| - |xs|
  {
    if xs == [] then s
    else
      var q := xs[|xs| - 1];
      Removed(s[..q], xs[..|xs| - 1]) + s[q + 1..]
  }

  /** How many of the listed positions lie below `j`. */
  function CountBelow(xs: seq<nat>, j: nat): (c: nat)
    ensures c <= |xs|
  {
    if xs == [] then 0
    else CountBelow(xs[..|xs| - 1], j) + (if xs[|xs| - 1] < j then 1 else 0)
  }

  lemma {:induction false} CountAllBelow(xs: seq<nat>, j: nat)
    requires Below(xs, j)
    ensures CountBelow(xs, j) == |xs|
  {
    if xs != [] {
      CountAllBelow(xs[..|xs| - 1], j);
    }
  }

  /**
   * Every position that is not listed keeps its letter and moves left by the
   * number of listed positions before it.
   */
  lemma {:induction false} RemovedLetter(s: string, xs: seq<nat>, j: nat)
    requires StrictlyAscending(xs) && Below(xs, |s|) && j < |s| && j !in xs
    ensures CountBelow(xs, j) <= j
    ensures j - CountBelow(xs, j) < |Removed(s, xs)|
    ensures Removed(s, xs)[j - CountBelow(xs, j)] == s[j]
  {
    if xs != [] {
      var m := |xs| - 1;
      var init, q := xs[..m], xs[m];
      assert forall i :: 0 <= i < m ==> init[i] == xs[i];
      if j < q {
        var t := s[..q];
        assert StrictlyAscending(init) && Below(init, |t|);
        assert j !in init && t[j] == s[j];
        RemovedLetter(t, init, j);
        var c := CountBelow(init, j);
        assert CountBelow(xs, j) == c;
        var head := Removed(t, init);
        assert j - c < |head| && head[j - c] == s[j];
        assert Removed(s, xs) == head + s[q + 1..];
      } else {
        RemovedAfterLast(s, xs, j);
      }
    }
  }

  /** A position past the last listed one moves left by the number listed. */
  lemma RemovedAfterLast(s: string, xs: seq<nat>, j: nat)
    requires StrictlyAscending(xs) && Below(xs, |s|) && j < |s| && xs != [] && xs[|xs| - 1] < j
    ensures CountBelow(xs, j) == |xs| <= j
    ensures j - |xs| < |Removed(s, xs)| && Removed(s, xs)[j - |xs|] == s[j]
  {
    var m := |xs| - 1;
    var init, q := xs[..m], xs[m];
    assert forall i :: 0 <= i < m ==> init[i] == xs[i];
    assert StrictlyAscending(init) && Below(init, q) && Below(init, j);
    CountAllBelow(init, j);
    var head := Removed(s[..q], init);
    assert |head| == q - m;
    assert Removed(s, xs) == head + s[q + 1..];
  }

  /** Positions past every listed one are kept as they are. */
  lemma RemovedPrefix(s: string, xs: seq<nat>, m: nat)
    requires StrictlyAscending(xs) && Below(xs, m) && m <= |s|
    ensures Removed(s, xs) == Removed(s[..m], xs) + s[m..]
  {
    if xs != [] {
      var q := xs[|xs| - 1];
      assert s[..m][..q] == s[..q];
      assert s[..m][q + 1..] + s[m..] == s[q + 1..];
    }
  }

  /**
   * The step of `new_term[:qubit-i] + new_term[qubit-i + 1:]`: once the first
   * `i` (smaller) positions are gone, the letter of qubit `xs[i]` sits at
   * `xs[i] - i`, and cutting it out removes one more listed position.
   */
  lemma RemoveStep(s: string, xs: seq<nat>, i: nat)
    requires StrictlyAscending(xs) && Below(xs, |s|) && i < |xs|
    ensures xs[i] >= i
    ensures var r := Removed(s, xs[..i]); var p := xs[i] - i;
      && p < |r| && r[p] == s[xs[i]]
      && Removed(s, xs[..i + 1]) == r[..p] + r[p + 1..]
  {
    var q := xs[i];
    var init := xs[..i];
    assert StrictlyAscending(init) && Below(init, q);
    assert xs[..i + 1][..i] == init;
    assert Removed(s, xs[..i + 1]) == Removed(s[..q], init) + s[q + 1..];
    RemovedPrefix(s, init, q);
    var head := Removed(s[..q], init);
    assert |head| == q - i;
    var r := Removed(s, init);
    assert r == head + s[q..];
    assert r[..q - i] == head;
    assert r[q - i + 1..] == s[q + 1..];
  }

  /** The string with the positions listed in `xs` overwritten by 'I'. */
  function Masked(s: string, xs: seq<nat>): (r: string)
    requires Below(xs, |s|)
    ensures |r| == |s|
  {
    if xs == [] then s
    else Masked(s, xs[..|xs| - 1])[xs[|xs| - 1] := 'I']
  }

  /** Every listed position of a masked string reads 'I'; every other one is untouched. */
  lemma {:induction false} MaskedLetters(s: string, xs: seq<nat>)
    requires Below(xs, |s|)
    ensures forall i :: 0 <= i < |xs| ==> Masked(s, xs)[xs[i]] == 'I'
    ensures forall j :: 0 <= j < |s| && j !in xs ==> Masked(s, xs)[j] == s[j]
  {
    if xs != [] {
      var init := xs[..|xs| - 1];
      var q := xs[|xs| - 1];
      assert xs == init + [q];
      MaskedLetters(s, init);
      var r := Masked(s, xs);
      assert r == Masked(s, init)[q := 'I'];
      forall i | 0 <= i < |xs|
        ensures r[xs[i]] == 'I'
      {
        if i < |init| {
          assert xs[i] == init[i];
        }
      }
    }
  }

  /** The step of `new_term[:qubit] + 'I' + new_term[qubit + 1:]`. */
  lemma MaskStep(s: string, xs: seq<nat>, i: nat)
    requires Below(xs, |s|) && i < |xs|
    ensures Masked(s, xs[..i + 1]) == Masked(s, xs[..i])[xs[i] := 'I']
  {
    assert xs[..i + 1][..i] == xs[..i];
  }

  // ---------------------------------------------------------------------------
  // The expectation-value factor of a term
  // ---------------------------------------------------------------------------

  /**
   * The expectation value of one Pauli letter on a qubit in basis state
   * `state`: 0 for X and Y, -1 for Z on |1>, 1 otherwise (a state other than
   * 0 or 1 leaves the factor at its initial 1).
   */
  function LetterFactor(letter: char, state: int): (r: int)
    ensures r == 0 <==> letter == 'X' || letter == 'Y'
    ensures r == -1 <==> letter == 'Z' && state == 1
    ensures -1 <= r <= 1
  {
    if letter == 'X' || letter == 'Y' then 0
    else if letter == 'Z' then
      if state == 0 then 1
      else if state == 1 then -1
      else 1
    else 1
  }

  /** The array `c` once every trimmed qubit has been looked at. */
  function Factors(term: string, xs: seq<nat>, states: seq<int>): seq<int>
    requires |xs| == |states| && Below(xs, |term|)
  {
    seq(|xs|, i requires 0 <= i < |xs| => LetterFactor(term[xs[i]], states[i]))
  }

  /** `np.prod`. */
  function Product(c: seq<int>): int {
    if c == [] then 1 else c[0] * Product(c[1..])
  }

  /** Whether some trimmed qubit carries X or Y in the term. */
  predicate FlipsTrimmed(term: string, xs: seq<nat>)
    requires Below(xs, |term|)
  {
    exists i :: 0 <= i < |xs| && (term[xs[i]] == 'X' || term[xs[i]] == 'Y')
  }

  /** How many trimmed qubits carry Z and are in state 1. */
  function ZOnOnes(term: string, xs: seq<nat>, states: seq<int>): nat
    requires |xs| == |states| && Below(xs, |term|)
  {
    if xs == [] then 0
    else (if term[xs[0]] == 'Z' && states[0] == 1 then 1 else 0) + ZOnOnes(term, xs[1..], states[1..])
  }

  /**
   * The factor of a term is 0 exactly when a trimmed qubit carries X or Y;
   * otherwise it is -1 to the number of trimmed qubits carrying Z in state 1.
   */
  lemma {:induction false} FactorValues(term: string, xs: seq<nat>, states: seq<int>)
    requires |xs| == |states| && Below(xs, |term|)
    ensures Product(Factors(term, xs, states)) == 0 <==> FlipsTrimmed(term, xs)
    ensures !FlipsTrimmed(term, xs) ==>
      Product(Factors(term, xs, states)) == if ZOnOnes(term, xs, states) % 2 == 1 then -1 else 1
  {
    if xs != [] {
      var c := Factors(term, xs, states);
      assert c[1..] == Factors(term, xs[1..], states[1..]);
      FactorValues(term, xs[1..], states[1..]);
      if FlipsTrimmed(term, xs[1..]) {
        var i :| 0 <= i < |xs[1..]| && (term[xs[1..][i]] == 'X' || term[xs[1..][i]] == 'Y');
        assert term[xs[i + 1]] == term[xs[1..][i]];
      }
      if !FlipsTrimmed(term, xs[1..]) {
        forall i | 0 < i < |xs|
          ensures term[xs[i]] != 'X' && term[xs[i]] != 'Y'
        {
          assert xs[1..][i - 1] == xs[i];
        }
      }
    }
  }

  // ---------------------------------------------------------------------------
  // trim_trivial_operator
  // ---------------------------------------------------------------------------

  /** What the per-term loop needs of the sorted indices and states. */
  predicate TrimArgs(n: nat, xs: seq<nat>, states: seq<int>, reindex: bool) {
    |xs| == |states| && Below(xs, n) && (reindex ==> StrictlyAscending(xs))
  }

  /** A term's Pauli string with the trimmed positions removed (`reindex`) or blanked. */
  function TrimmedString(term: string, xs: seq<nat>, reindex: bool): string
    requires Below(xs, |term|) && (reindex ==> StrictlyAscending(xs))
  {
    if reindex then Removed(term, xs) else Masked(term, xs)
  }

  /**
   * The key a term is accumulated under: its Pauli string with the trimmed
   * positions removed (`reindex`) or blanked, read back as a term tuple.
   */
  function TrimmedKey(t: Term, n: nat, xs: seq<nat>, reindex: bool): Term
    requires IndicesBelow(t, n) && Below(xs, n) && (reindex ==> StrictlyAscending(xs))
  {
    PauliStringToOf(TrimmedString(PauliOfToString(t, n), xs, reindex))
  }

  /**
   * With `reindex` a trimmed key lives on the `n - |xs|` remaining qubits;
   * without it, it stays on `n` qubits and names none of the trimmed ones.
   */
  lemma TrimmedKeyShape(t: Term, n: nat, xs: seq<nat>, reindex: bool)
    requires IndicesBelow(t, n) && Below(xs, n) && (reindex ==> StrictlyAscending(xs))
    ensures reindex ==> |xs| <= n && Canonical(TrimmedKey(t, n, xs, reindex), n - |xs|)
    ensures !reindex ==> Canonical(TrimmedKey(t, n, xs, reindex), n)
    ensures !reindex ==> forall i :: 0 <= i < |xs| ==> xs[i] !in Qubits(TrimmedKey(t, n, xs, reindex))
  {
    if reindex {
      assert |Removed(PauliOfToString(t, n), xs)| == n - |xs|;
    } else {
      var masked := Masked(PauliOfToString(t, n), xs);
      var r := PauliStringToOf(masked);
      MaskedLetters(PauliOfToString(t, n), xs);
      forall i, k | 0 <= i < |xs| && 0 <= k < |r|
        ensures r[k].0 != xs[i]
      {
        assert masked[r[k].0] == r[k].1 != 'I';
      }
    }
  }

  /** `np.prod(c)` for one term. */
  function TrimFactor(t: Term, n: nat, xs: seq<nat>, states: seq<int>): int
    requires IndicesBelow(t, n) && |xs| == |states| && Below(xs, n)
  {
    Product(Factors(PauliOfToString(t, n), xs, states))
  }

  /**
   * `qu_op_trim` after the loop over `op`'s terms, for indices and states
   * already sorted: each term adds its factor times its coefficient under
   * its trimmed key.
   */
  function TrimmedTerms(op: Terms<Complex>, n: nat, xs: seq<nat>, states: seq<int>, reindex: bool): (r: Terms<Complex>)
    requires TermsBelow(op, n) && TrimArgs(n, xs, states, reindex)
    ensures DistinctKeys(r)
  {
    if op == [] then []
    else
      var init := op[..|op| - 1];
      var last := op[|op| - 1];
      AddTerm(TrimmedTerms(init, n, xs, states, reindex), TrimmedKey(last.0, n, xs, reindex),
              Scale(TrimFactor(last.0, n, xs, states), last.1))
  }

  lemma TrimmedTermsSnoc(op: Terms<Complex>, k: nat, n: nat, xs: seq<nat>, states: seq<int>, reindex: bool)
    requires TermsBelow(op, n) && TrimArgs(n, xs, states, reindex) && k < |op|
    ensures TermsBelow(op[..k], n) && TermsBelow(op[..k + 1], n)
    ensures TrimmedTerms(op[..k + 1], n, xs, states, reindex)
         == AddTerm(TrimmedTerms(op[..k], n, xs, states, reindex), TrimmedKey(op[k].0, n, xs, reindex),
                    Scale(TrimFactor(op[k].0, n, xs, states), op[k].1))
  {
    assert op[..k + 1][..k] == op[..k];
  }

  /** The sorted pairs meet the loop's needs. */
  lemma SortedPairs(n: nat, xs: seq<nat>, states: seq<int>, reindex: bool)
    requires |xs| <= |states| && Below(xs, n) && (reindex ==> Distinct(xs))
    ensures var pairs := SortByKey(Zip(xs, states));
      TrimArgs(n, Firsts(pairs), Seconds(pairs), reindex)
  {
    var z := Zip(xs, states);
    var pairs := SortByKey(z);
    var firsts := Firsts(pairs);
    SortByKeySorted(z);
    forall i | 0 <= i < |firsts|
      ensures firsts[i] < n
    {
      assert pairs[i] in multiset(z);
      var k :| 0 <= k < |z| && z[k] == pairs[i];
      assert z[k].0 == xs[k];
    }
    if reindex {
      assert UniqueKeys(z) by {
        forall j, k | 0 <= j < k < |z|
          ensures z[j].0 != z[k].0
        {
          assert z[j].0 == xs[j] && z[k].0 == xs[k];
        }
      }
      forall j, k | 0 <= j < k < |firsts|
        ensures firsts[j] < firsts[k]
      {
        assert firsts[j] == pairs[j].0 && firsts[k] == pairs[k].0;
      }
    }
  }

  /** `trim_trivial_operator(op, n, trim_index, trim_states, reindex)`. */
  function TrimTrivialOperatorSpec(op: Terms<Complex>, n: nat, trimIndex: seq<nat>, trimStates: seq<int>, reindex: bool): (r: Terms<Complex>)
    requires TermsBelow(op, n) && |trimIndex| <= |trimStates| && Below(trimIndex, n)
    requires reindex ==> Distinct(trimIndex)
    ensures DistinctKeys(r)
  {
    var pairs := SortByKey(Zip(trimIndex, trimStates));
    SortedPairs(n, trimIndex, trimStates, reindex);
    TrimmedTerms(op, n, Firsts(pairs), Seconds(pairs), reindex)
  }

  /**
   * The sum, over the terms of `op` in order, of factor times coefficient for
   * the terms whose trimmed key is `k`.
   */
  function Contribution(op: Terms<Complex>, n: nat, xs: seq<nat>, states: seq<int>, reindex: bool, k: Term): Complex
    requires TermsBelow(op, n) && TrimArgs(n, xs, states, reindex)
  {
    if op == [] then Zero
    else
      var init := op[..|op| - 1];
      var last := op[|op| - 1];
      assert TermsBelow(init, n) by {
        forall i | 0 <= i < |init|
          ensures IndicesBelow(init[i].0, n)
        {
          assert init[i] == op[i];
        }
      }
      var before := Contribution(init, n, xs, states, reindex, k);
      if TrimmedKey(last.0, n, xs, reindex) == k then Add(before, Scale(TrimFactor(last.0, n, xs, states), last.1))
      else before
  }

  /** Some term of `op` trims to `k`. */
  predicate Produces(op: Terms<Complex>, n: nat, xs: seq<nat>, reindex: bool, k: Term)
    requires TermsBelow(op, n) && Below(xs, n) && (reindex ==> StrictlyAscending(xs))
  {
    exists i :: 0 <= i < |op| && TrimmedKey(op[i].0, n, xs, reindex) == k
  }

  /**
   * The trimmed operator has a key exactly for the keys some source term
   * trims to, and its coefficient there is the sum of factor times
   * coefficient over those source terms.
   */
  lemma {:induction false} TrimmedCoefficients(op: Terms<Complex>, n: nat, xs: seq<nat>, states: seq<int>, reindex: bool, k: Term)
    requires TermsBelow(op, n) && TrimArgs(n, xs, states, reindex)
    ensures Lookup(TrimmedTerms(op, n, xs, states, reindex), k)
         == if Produces(op, n, xs, reindex, k) then Some(Contribution(op, n, xs, states, reindex, k)) else None
  {
    if op != [] {
      var init := op[..|op| - 1];
      var last := op[|op| - 1];
      ProducesSnoc(op, n, xs, reindex, k);
      TrimmedCoefficients(init, n, xs, states, reindex, k);
      var prev := TrimmedTerms(init, n, xs, states, reindex);
      var key := TrimmedKey(last.0, n, xs, reindex);
      var v := Scale(TrimFactor(last.0, n, xs, states), last.1);
      assert TrimmedTerms(op, n, xs, states, reindex) == AddTerm(prev, key, v);
      if key == k {
        UnproducedContributesZero(init, n, xs, states, reindex, k);
        assert Lookup(prev, k).GetOr(Zero) == Contribution(init, n, xs, states, reindex, k);
      }
    }
  }

  lemma ProducesSnoc(op: Terms<Complex>, n: nat, xs: seq<nat>, reindex: bool, k: Term)
    requires TermsBelow(op, n) && Below(xs, n) && (reindex ==> StrictlyAscending(xs)) && op != []
    ensures TermsBelow(op[..|op| - 1], n)
    ensures Produces(op, n, xs, reindex, k)
        <==> Produces(op[..|op| - 1], n, xs, reindex, k) || TrimmedKey(op[|op| - 1].0, n, xs, reindex) == k
  {
    var init := op[..|op| - 1];
    assert TermsBelow(init, n) by {
      forall i | 0 <= i < |init|
        ensures IndicesBelow(init[i].0, n)
      {
        assert init[i] == op[i];
      }
    }
    if Produces(op, n, xs, reindex, k) {
      var i :| 0 <= i < |op| && TrimmedKey(op[i].0, n, xs, reindex) == k;
      if i < |init| {
        assert op[i] == init[i];
      }
    }
    if Produces(init, n, xs, reindex, k) {
      var i :| 0 <= i < |init| && TrimmedKey(init[i].0, n, xs, reindex) == k;
      assert op[i] == init[i];
    }
  }

  /** A key no term trims to receives nothing. */
  lemma {:induction false} UnproducedContributesZero(op: Terms<Complex>, n: nat, xs: seq<nat>, states: seq<int>, reindex: bool, k: Term)
    requires TermsBelow(op, n) && TrimArgs(n, xs, states, reindex)
    ensures !Produces(op, n, xs, reindex, k) ==> Contribution(op, n, xs, states, reindex, k) == Zero
  {
    if op != [] {
      ProducesSnoc(op, n, xs, reindex, k);
      UnproducedContributesZero(op[..|op| - 1], n, xs, states, reindex, k);
    }
  }

  /**
   * A term with X or Y on a trimmed qubit changes no coefficient of the
   * trimmed operator (its key may appear, with coefficient zero).
   */
  lemma FlippedTermContributesNothing(op: Terms<Complex>, t: Term, coeff: Complex, n: nat, xs: seq<nat>, states: seq<int>, reindex: bool)
    requires TermsBelow(op, n) && IndicesBelow(t, n) && TrimArgs(n, xs, states, reindex)
    requires FlipsTrimmed(PauliOfToString(t, n), xs)
    ensures TermsBelow(op + [(t, coeff)], n)
    ensures forall k :: Lookup(TrimmedTerms(op + [(t, coeff)], n, xs, states, reindex), k).GetOr(Zero)
                     == Lookup(TrimmedTerms(op, n, xs, states, reindex), k).GetOr(Zero)
  {
    var full := op + [(t, coeff)];
    assert full[..|full| - 1] == op;
    FactorValues(PauliOfToString(t, n), xs, states);
    assert Scale(TrimFactor(t, n, xs, states), coeff) == Zero;
  }

  lemma {:induction false} ProductAppend(a: seq<int>, b: seq<int>)
    ensures Product(a + b) == Product(a) * Product(b)
  {
    if a == [] {
      assert a + b == b;
    } else {
      assert (a + b)[0] == a[0] && (a + b)[1..] == a[1..] + b;
      ProductAppend(a[1..], b);
      assert Product(a + b) == a[0] * (Product(a[1..]) * Product(b));
    }
  }

  /** `np.prod` does not depend on the order of the factors. */
  lemma {:induction false} ProductPermutation(a: seq<int>, b: seq<int>)
    requires multiset(a) == multiset(b)
    ensures Product(a) == Product(b)
  {
    assert |a| == |multiset(a)| == |b|;
    if a != [] {
      assert a[0] in multiset(b);
      var m :| 0 <= m < |b| && b[m] == a[0];
      var rest := b[m + 1..];
      var r := b[..m] + rest;
      RestPermutation(a, b, m);
      ProductPermutation(a[1..], r);
      assert b == b[..m] + ([b[m]] + rest);
      ProductAppend(b[..m], [b[m]] + rest);
      ProductAppend(b[..m], rest);
      assert ([b[m]] + rest)[1..] == rest;
      var x, y := Product(b[..m]), Product(rest);
      assert Product([b[m]] + rest) == a[0] * y;
      assert Product(b) == x * (a[0] * y);
      assert Product(r) == x * y;
      assert Product(a) == a[0] * Product(a[1..]);
      assert Product(a) == a[0] * (x * y);
      MulSwap(x, a[0], y);
    } else {
      assert b == [];
    }
  }

  /** Two rearrangements of one list of pairs, both sorted by key, list the keys alike. */
  lemma SortedKeysAgree(p: seq<(nat, int)>, q: seq<(nat, int)>)
    requires Ascending(p) && Ascending(q) && multiset(p) == multiset(q)
    ensures Firsts(p) == Firsts(q)
  {
    var key := (x: (nat, int)) => x.0;
    assert Firsts(p) == Map(key, p) && Firsts(q) == Map(key, q);
    MapPermutation(key, p, q);
    AscendingSame(Firsts(p), Firsts(q));
  }

  /**
   * Rearranging the (index, state) pairs without moving the indices leaves a
   * term's factor unchanged: the factors are the same, in another order.
   */
  lemma FactorsRearranged(term: string, p: seq<(nat, int)>, q: seq<(nat, int)>)
    requires multiset(p) == multiset(q) && Firsts(p) == Firsts(q) && Below(Firsts(p), |term|)
    ensures Product(Factors(term, Firsts(p), Seconds(p))) == Product(Factors(term, Firsts(q), Seconds(q)))
  {
    var f := (x: (nat, int)) => if x.0 < |term| then LetterFactor(term[x.0], x.1) else 1;
    assert Factors(term, Firsts(p), Seconds(p)) == Map(f, p);
    assert Factors(term, Firsts(q), Seconds(q)) == Map(f, q);
    MapPermutation(f, p, q);
    ProductPermutation(Map(f, p), Map(f, q));
  }

  /** Two lists of states that give every term the same factor trim the operator the same way. */
  lemma {:induction false} TrimmedTermsSameFactors(op: Terms<Complex>, n: nat, xs: seq<nat>, states: seq<int>, states': seq<int>, reindex: bool)
    requires TermsBelow(op, n) && TrimArgs(n, xs, states, reindex) && TrimArgs(n, xs, states', reindex)
    requires forall i :: 0 <= i < |op| ==> TrimFactor(op[i].0, n, xs, states) == TrimFactor(op[i].0, n, xs, states')
    ensures TrimmedTerms(op, n, xs, states, reindex) == TrimmedTerms(op, n, xs, states', reindex)
  {
    if op != [] {
      var init := op[..|op| - 1];
      assert forall i :: 0 <= i < |init| ==> init[i] == op[i];
      TrimmedTermsSameFactors(init, n, xs, states, states', reindex);
    }
  }

  /**
   * The (index, state) pairs may come in any order: two listings of the same
   * pairs trim every operator the same way. Pairs that share an index are
   * reordered among themselves by the sort, but they read the same letter,
   * so only the order of their factors changes.
   */
  lemma PairOrderIrrelevant(op: Terms<Complex>, n: nat, xs: seq<nat>, states: seq<int>, ys: seq<nat>, states': seq<int>, reindex: bool)
    requires TermsBelow(op, n) && |xs| <= |states| && |ys| <= |states'| && Below(xs, n) && Below(ys, n)
    requires reindex ==> Distinct(xs) && Distinct(ys)
    requires multiset(Zip(xs, states)) == multiset(Zip(ys, states'))
    ensures TrimTrivialOperatorSpec(op, n, xs, states, reindex) == TrimTrivialOperatorSpec(op, n, ys, states', reindex)
  {
    var p := SortByKey(Zip(xs, states));
    var q := SortByKey(Zip(ys, states'));
    SortByKeySorted(Zip(xs, states));
    SortByKeySorted(Zip(ys, states'));
    SortedPairs(n, xs, states, reindex);
    SortedPairs(n, ys, states', reindex);
    assert multiset(p) == multiset(q);
    SortedKeysAgree(p, q);
    forall i | 0 <= i < |op|
      ensures TrimFactor(op[i].0, n, Firsts(p), Seconds(p)) == TrimFactor(op[i].0, n, Firsts(q), Seconds(q))
    {
      FactorsRearranged(PauliOfToString(op[i].0, n), p, q);
    }
    TrimmedTermsSameFactors(op, n, Firsts(p), Seconds(p), Seconds(q), reindex);
  }

  /**
   * `trim_trivial_operator`: sorts the indices and, separately, the states by
   * index; then, for every term of `op` in order, fills the factor array `c`
   * and cuts the trimmed positions out of (or blanks them in) the term's Pauli
   * string, and adds the scaled term to a fresh operator.
   */
  method TrimTrivialOperator(op: Terms<Complex>, n: nat, trimIndex: seq<nat>, trimStates: seq<int>, reindex: bool)
    returns (result: Terms<Complex>)
    requires TermsBelow(op, n) && |trimIndex| <= |trimStates| && Below(trimIndex, n)
    requires reindex ==> Distinct(trimIndex)
    ensures result == TrimTrivialOperatorSpec(op, n, trimIndex, trimStates, reindex)
  {
    var pairs := SortByKey(Zip(trimIndex, trimStates));
    var states := Seconds(pairs);
    var index := SortedIndices(trimIndex);
    SortedPairsMatchIndices(trimIndex, trimStates);
    SortedPairs(n, trimIndex, trimStates, reindex);
    result := [];
    for k := 0 to |op|
      invariant result == TrimmedTerms(op[..k], n, index, states, reindex)
    {
      var term := PauliOfToString(op[k].0, n);
      var newTerm, factor := TrimTerm(term, index, states, reindex);
      TrimmedTermsSnoc(op, k, n, index, states, reindex);
      result := AddTerm(result, PauliStringToOf(newTerm), Scale(factor, op[k].1));
    }
    assert op[..|op|] == op;
  }

  /**
   * The body of the loop over terms: the factor array `c` filled letter by
   * letter, and the Pauli string cut down position by position, the `i`-th
   * trimmed qubit sitting at `qubit - i` once the `i` smaller ones are gone.
   */
  method TrimTerm(term: string, index: seq<nat>, states: seq<int>, reindex: bool) returns (newTerm: string, factor: int)
    requires TrimArgs(|term|, index, states, reindex)
    ensures newTerm == TrimmedString(term, index, reindex)
    ensures factor == Product(Factors(term, index, states))
  {
    var c := new int[|index|](_ => 1);
    newTerm := term;
    ghost var factors := Factors(term, index, states);
    for i := 0 to |index|
      invariant forall j :: 0 <= j < i ==> c[j] == factors[j]
      invariant forall j :: i <= j < c.Length ==> c[j] == 1
      invariant newTerm == TrimmedString(term, index[..i], reindex)
    {
      RecordFactor(c, i, term[index[i]], states[i]);
      newTerm := CutQubit(newTerm, term, index, i, reindex);
    }
    assert index[..|index|] == index;
    assert c[..] == factors;
    factor := Product(c[..]);
  }

  /**
   * The string half of one pass: with `reindex` the letter of the `i`-th
   * trimmed qubit, found at `qubit - i`, is cut out; otherwise it is
   * overwritten by 'I'.
   */
  method CutQubit(newTerm: string, term: string, index: seq<nat>, i: nat, reindex: bool) returns (next: string)
    requires Below(index, |term|) && (reindex ==> StrictlyAscending(index)) && i < |index|
    requires newTerm == TrimmedString(term, index[..i], reindex)
    ensures next == TrimmedString(term, index[..i + 1], reindex)
  {
    var qubit := index[i];
    if reindex {
      RemoveStep(term, index, i);
      next := newTerm[..qubit - i] + newTerm[qubit - i + 1..];
    } else {
      MaskStep(term, index, i);
      next := newTerm[..qubit] + "I" + newTerm[qubit + 1..];
      assert next == newTerm[qubit := 'I'];
    }
  }

  /**
   * One pass of the factor branches: X or Y sets `c[i]` to 0, Z sets it to
   * 1 or -1 for state 0 or 1, anything else leaves it alone.
   */
  method RecordFactor(c: array<int>, i: nat, letter: char, state: int)
    requires i < c.Length && c[i] == 1
    modifies c
    ensures c[i] == LetterFactor(letter, state)
    ensures forall j :: 0 <= j < c.Length && j != i ==> c[j] == old(c[j])
  {
    if letter == 'X' || letter == 'Y' {
      c[i] := 0;
    } else if letter == 'Z' {
      if state == 0 {
        c[i] := 1;
      } else if state == 1 {
        c[i] := -1;
      }
    }
  }

  // ---------------------------------------------------------------------------
  // trim_trivial_circuit and trim_trivial_qubits
  // ---------------------------------------------------------------------------

  /** A component the trimming removes: one qubit wide and nothing but one X gate. */
  predicate TrivialX(c: Circuit) {
    c.width == 1 && |c.gates| == 1 && c.gates[0].name == "X"
  }

  /** `gated_qubits`: every qubit some component acts on. */
  function Gated(entangled: seq<set<nat>>): (r: set<nat>)
    ensures forall i :: 0 <= i < |entangled| ==> entangled[i] <= r
  {
    if entangled == [] then {}
    else Gated(entangled[..|entangled| - 1]) + entangled[|entangled| - 1]
  }

  /** A qubit is gated exactly when some component acts on it. */
  lemma {:induction false} GatedMembers(entangled: seq<set<nat>>)
    ensures forall i, q :: 0 <= i < |entangled| && q in entangled[i] ==> q in Gated(entangled)
    ensures forall q :: q in Gated(entangled) ==> exists i :: 0 <= i < |entangled| && q in entangled[i]
  {
    if entangled != [] {
      var init := entangled[..|entangled| - 1];
      GatedMembers(init);
      assert forall i :: 0 <= i < |init| ==> init[i] == entangled[i];
    }
  }

  /** `sorted(set(range(m)) - used)`. */
  function Untouched(m: nat, used: set<nat>): (r: seq<nat>)
    ensures forall k :: 0 <= k < |r| ==> r[k] < m && r[k] !in used
  {
    if m == 0 then []
    else Untouched(m - 1, used) + (if m - 1 in used then [] else [m - 1])
  }

  /** The untouched qubits are those below `m` outside `used`, in strictly ascending order. */
  lemma {:induction false} UntouchedMembers(m: nat, used: set<nat>)
    ensures StrictlyAscending(Untouched(m, used))
    ensures forall q: nat :: q in Untouched(m, used) <==> q < m && q !in used
  {
    if m > 0 {
      var init := Untouched(m - 1, used);
      UntouchedMembers(m - 1, used);
      assert forall k :: 0 <= k < |init| ==> init[k] in init;
    }
  }

  /** The positions of the trivial components, in order. */
  function TrivialPositions(components: seq<Circuit>): seq<nat> {
    if components == [] then []
    else
      var m := |components| - 1;
      TrivialPositions(components[..m]) + (if TrivialX(components[m]) then [m] else [])
  }

  /** The trivial positions are ascending positions of `components`. */
  lemma {:induction false} TrivialPositionsAscending(components: seq<Circuit>)
    ensures StrictlyAscending(TrivialPositions(components))
    ensures forall k :: 0 <= k < |TrivialPositions(components)| ==> TrivialPositions(components)[k] < |components|
  {
    if components != [] {
      var m := |components| - 1;
      var init := TrivialPositions(components[..m]);
      TrivialPositionsAscending(components[..m]);
      var r := TrivialPositions(components);
      assert r == init + (if TrivialX(components[m]) then [m] else []);
      assert forall k :: 0 <= k < |init| ==> r[k] == init[k];
    }
  }

  /** A position is listed exactly when the component there is trivial. */
  lemma {:induction false} TrivialPositionsMembers(components: seq<Circuit>)
    ensures forall j: nat :: j in TrivialPositions(components) <==> j < |components| && TrivialX(components[j])
  {
    if components != [] {
      var m := |components| - 1;
      var init := TrivialPositions(components[..m]);
      TrivialPositionsMembers(components[..m]);
      assert TrivialPositions(components) == init + (if TrivialX(components[m]) then [m] else []);
      assert forall j :: 0 <= j < m ==> components[..m][j] == components[j];
    }
  }

  /** `circuit_new`'s gates: the gates of every other component, in order. */
  function KeptGates(components: seq<Circuit>): seq<Gate> {
    if components == [] then []
    else
      var m := |components| - 1;
      KeptGates(components[..m]) + (if TrivialX(components[m]) then [] else components[m].gates)
  }

  /** A gate is kept exactly when it belongs to a component that is not trivial. */
  lemma {:induction false} KeptGatesMembers(components: seq<Circuit>)
    ensures forall g :: g in KeptGates(components) <==>
      exists i :: 0 <= i < |components| && !TrivialX(components[i]) && g in components[i].gates
  {
    if components != [] {
      var m := |components| - 1;
      var init := components[..m];
      KeptGatesMembers(init);
      assert forall i :: 0 <= i < m ==> init[i] == components[i];
    }
  }

  /** `fill` copies of `value`. */
  function Repeat(value: int, fill: nat): seq<int> {
    seq(fill, _ => value)
  }

  lemma RepeatSnoc(value: int, fill: nat)
    ensures Repeat(value, fill + 1) == Repeat(value, fill) + [value]
  {
  }

  /** Each `chosen[j]` is a qubit of the component at `picks[j]`. */
  predicate Picked(chosen: seq<nat>, entangled: seq<set<nat>>, picks: seq<nat>) {
    |chosen| == |picks| && forall j :: 0 <= j < |picks| ==> picks[j] < |entangled| && chosen[j] in entangled[picks[j]]
  }

  /**
   * What `trim_trivial_circuit` returns as `trim_index` and `trim_states`:
   * the untouched qubits in ascending order with state 0, then, for each
   * trivial component in order, a qubit of that component with state 1.
   */
  predicate CircuitTrim(width: nat, components: seq<Circuit>, entangled: seq<set<nat>>, trimIndex: seq<nat>, trimStates: seq<int>)
    requires |components| == |entangled|
    ensures CircuitTrim(width, components, entangled, trimIndex, trimStates) ==> |trimIndex| == |trimStates|
  {
    var zeros := Untouched(width, Gated(entangled));
    var picks := TrivialPositions(components);
    && |zeros| <= |trimIndex|
    && trimIndex[..|zeros|] == zeros
    && Picked(trimIndex[|zeros|..], entangled, picks)
    && trimStates == Repeat(0, |zeros|) + Repeat(1, |picks|)
  }

  /**
   * The selection loop of `trim_trivial_circuit`, given the components
   * `circuit.split()` returned and, for each, the qubits it acts on
   * (`circuit.get_entangled_indices()`).
   */
  method TrimTrivialCircuit(width: nat, components: seq<Circuit>, entangled: seq<set<nat>>)
    returns (kept: seq<Gate>, trimIndex: seq<nat>, trimStates: seq<int>)
    requires |components| == |entangled|
    requires forall i :: 0 <= i < |components| && TrivialX(components[i]) ==> entangled[i] != {}
    ensures kept == KeptGates(components)
    ensures CircuitTrim(width, components, entangled, trimIndex, trimStates)
  {
    var gated := GatedQubits(entangled);
    var zeros := Untouched(width, gated);
    trimIndex := zeros;
    trimStates := Repeat(0, |zeros|);
    kept := [];
    ghost var picks: seq<nat> := [];
    ghost var chosen: seq<nat> := [];
    for i := 0 to |components|
      invariant kept == KeptGates(components[..i])
      invariant picks == TrivialPositions(components[..i])
      invariant trimIndex == zeros + chosen
      invariant Picked(chosen, entangled, picks)
      invariant trimStates == Repeat(0, |zeros|) + Repeat(1, |picks|)
    {
      SelectionStep(components, i);
      var circ := components[i];
      if circ.width == 1 {
        if |circ.gates| == 1 && circ.gates[0].name == "X" {
          var q :| q in entangled[i];
          RepeatSnoc(1, |picks|);
          assert trimStates + [1] == Repeat(0, |zeros|) + Repeat(1, |picks| + 1);
          trimIndex := trimIndex + [q];
          trimStates := trimStates + [1];
          picks := picks + [i];
          chosen := chosen + [q];
        } else {
          kept := kept + circ.gates;
        }
      } else {
        kept := kept + circ.gates;
      }
    }
    assert components[..|components|] == components;
    assert picks == TrivialPositions(components);
    assert trimIndex[..|zeros|] == zeros;
    assert trimIndex[|zeros|..] == chosen;
  }

  /** The loop that collects `gated_qubits`. */
  method GatedQubits(entangled: seq<set<nat>>) returns (gated: set<nat>)
    ensures gated == Gated(entangled)
  {
    gated := {};
    for i := 0 to |entangled|
      invariant gated == Gated(entangled[..i])
    {
      assert entangled[..i + 1][..i] == entangled[..i];
      gated := gated + entangled[i];
    }
    assert entangled[..|entangled|] == entangled;
  }

  lemma SelectionStep(components: seq<Circuit>, i: nat)
    requires i < |components|
    ensures TrivialPositions(components[..i + 1])
         == TrivialPositions(components[..i]) + (if TrivialX(components[i]) then [i] else [])
    ensures KeptGates(components[..i + 1])
         == KeptGates(components[..i]) + (if TrivialX(components[i]) then [] else components[i].gates)
  {
    assert components[..i + 1][..i] == components[..i];
  }

  /**
   * When the components act on disjoint sets of qubits below `width`, the
   * trimmed qubits are distinct and below `width`, as reindexing needs.
   */
  lemma TrimIndicesDistinct(width: nat, components: seq<Circuit>, entangled: seq<set<nat>>, trimIndex: seq<nat>, trimStates: seq<int>)
    requires |components| == |entangled|
    requires forall i, j :: 0 <= i < j < |entangled| ==> entangled[i] !! entangled[j]
    requires forall i, q :: 0 <= i < |entangled| && q in entangled[i] ==> q < width
    requires CircuitTrim(width, components, entangled, trimIndex, trimStates)
    ensures Distinct(trimIndex) && Below(trimIndex, width)
  {
    var zeros := Untouched(width, Gated(entangled));
    var picks := TrivialPositions(components);
    var chosen := trimIndex[|zeros|..];
    TrivialPositionsAscending(components);
    GatedMembers(entangled);
    UntouchedMembers(width, Gated(entangled));
    assert trimIndex == zeros + chosen;
    assert forall a :: 0 <= a < |zeros| ==> zeros[a] in zeros;
    assert forall j :: 0 <= j < |chosen| ==> chosen[j] in Gated(entangled);
    forall a, b | 0 <= a < b < |chosen|
      ensures chosen[a] != chosen[b]
    {
      assert picks[a] < picks[b];
    }
  }

  /**
   * `trim_trivial_qubits`: trims the circuit, then trims the operator with
   * reindexing on the circuit's width, using exactly the indices and states
   * the circuit trimming produced.
   */
  method TrimTrivialQubits(op: Terms<Complex>, width: nat, components: seq<Circuit>, entangled: seq<set<nat>>)
    returns (kept: seq<Gate>, trimmed: Terms<Complex>)
    requires TermsBelow(op, width) && |components| == |entangled|
    requires forall i :: 0 <= i < |components| && TrivialX(components[i]) ==> entangled[i] != {}
    requires forall i, j :: 0 <= i < j < |entangled| ==> entangled[i] !! entangled[j]
    requires forall i, q :: 0 <= i < |entangled| && q in entangled[i] ==> q < width
    ensures kept == KeptGates(components)
    ensures exists trimIndex, trimStates ::
      && CircuitTrim(width, components, entangled, trimIndex, trimStates)
      && Distinct(trimIndex) && Below(trimIndex, width) && |trimIndex| == |trimStates|
      && trimmed == TrimTrivialOperatorSpec(op, width, trimIndex, trimStates, true)
  {
    var trimIndex, trimStates;
    kept, trimIndex, trimStates := TrimTrivialCircuit(width, components, entangled);
    TrimIndicesDistinct(width, components, entangled, trimIndex, trimStates);
    trimmed := TrimTrivialOperator(op, width, trimIndex, trimStates, true);
  }
}
