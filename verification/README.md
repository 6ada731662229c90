# Tangelo: Qiskit translation and trivial-qubit trimming, modelled in Dafny

This project models two pieces of Tangelo, the quantum-chemistry toolkit.

**The Qiskit translator** (`tangelo/linq/translator/translate_qiskit.py`):
- The gate-name table `get_qiskit_gates`.
- The per-gate dispatch of `translate_qiskit`. It turns an abstract circuit into the list of `QuantumCircuit` calls that build the Qiskit circuit, and fails with the translator's errors.
- The two operator conversions `translate_op_to_qiskit` and `translate_op_from_qiskit`. They reverse each Pauli string, because Qiskit writes qubit 0 last.

**The trimming of trivial qubits** (`tangelo/toolboxes/operators/trim_trivial_qubits.py`):
- `trim_trivial_operator` replaces every trimmed qubit of every Pauli term by its expectation value in the known basis state. It then deletes the trimmed positions from the Pauli string (reindexing) or blanks them to `I`.
- The selection loop of `trim_trivial_circuit` picks the qubits to trim: the untouched qubits in state 0, and the qubit of each one-qubit, single-X component in state 1.
- `trim_trivial_qubits` chains the two.

Layout:
- `wrappers.dfy`: `Option` and `Result`.
- `permutations.dfy`: facts about rearranged lists (mapping over them, sorted rearrangements), used to show that the order of the trimmed pairs does not matter.
- `pauli_strings.dfy`: openfermion term tuples, Pauli strings, and the two conversion helpers.
- `qubit_operators.dfy`: a `QubitOperator`'s terms dictionary, as an insertion-ordered list of (term, coefficient) pairs.
- `abstract_circuits.dfy`: Tangelo's `Gate` and `Circuit`.
- `translate_qiskit.dfy` and `trim_trivial_qubits.dfy`: the two source files.

Modelling choices:
- The loops of the source are methods with loop invariants:
  - the dispatch loop;
  - the two operator loops;
  - the per-term loop and its inner per-qubit loop, which fills the factor array `c` in place;
  - the gated-qubit loop and the component loop.
- Each method is proved against a specification function. The lemmas state what the source promises about that function.
- A Python dictionary is a sequence of pairs. Assigning to a present key replaces its value in place, and assigning to a new key appends it. The translator emits terms in this order, so the model keeps it.

## Model

| member | source | states |
|---|---|---|
| TranslateQiskit.GetQiskitGates | tangelo/linq/translator/translate_qiskit.py:40-64 | filling the dictionary entry by entry yields exactly the 23-entry name table |
| TranslateQiskit.TableCoversSupportedGates | tangelo/linq/translator/translate_qiskit.py:40-64 | the table's keys are exactly the names the dispatch accepts (the union of its name sets) |
| TranslateQiskit.NativeNames | tangelo/linq/translator/translate_qiskit.py:46-62 | CNOT and CX both map to `cx` and no other name does; XX maps to `rxx`, PHASE to `p`, CPHASE to `cp` |
| TranslateQiskit.DispatchMatchesTable | tangelo/linq/translator/translate_qiskit.py:88-105 | a name falls in some branch of the if/elif chain iff it has a table entry |
| TranslateQiskit.FamilyOf | tangelo/linq/translator/translate_qiskit.py:88-105 | the if/elif chain selects a family exactly for the names it supports, and none for any other name |
| TranslateQiskit.FamilyMembers | tangelo/linq/translator/translate_qiskit.py:88-103 | each family of the dispatch is selected by exactly its branch's name set |
| TranslateQiskit.TranslateGate | tangelo/linq/translator/translate_qiskit.py:85-105 | more than one control fails with the multi-control error before the name is looked at; an unknown name fails as unsupported; a success calls the table's method for the name |
| TranslateQiskit.TranslateOne | tangelo/linq/translator/translate_qiskit.py:84-105 | one pass of the dispatch loop yields the translation of that gate, or its error |
| TranslateQiskit.FamilyCall | tangelo/linq/translator/translate_qiskit.py:88-103 | a gate with the operands its family reads becomes that family's call, with the family's argument order |
| TranslateQiskit.OperandsOfInstruction | tangelo/linq/translator/translate_qiskit.py:88-103 | a translated gate's qubit arguments are its first control (controlled families) then its first one or two targets; the parameter is first exactly for the parameterised families; only MEASURE writes a classical bit, numbered like its qubit |
| TranslateQiskit.MissingOperandExactly | tangelo/linq/translator/translate_qiskit.py:88-103 | past the control-count and name checks, a gate fails iff it has fewer targets or controls than its family reads, and then with the missing-operand error |
| TranslateQiskit.UnreadControlIgnored | tangelo/linq/translator/translate_qiskit.py:85-95 | a single control on a gate of an uncontrolled family is ignored: the gate translates as if it had none |
| TranslateQiskit.TranslateQiskitCircuit | tangelo/linq/translator/translate_qiskit.py:67-106 | succeeds iff every gate translates; the result then has width-many qubits and classical bits and one instruction per gate, in order; otherwise the error is that of the first gate that fails |
| TranslateQiskit.QiskitLabel | tangelo/linq/translator/translate_qiskit.py:127-130 | the reversed Pauli string of a term has one letter per qubit |
| TranslateQiskit.LabelIdentity | tangelo/linq/translator/translate_qiskit.py:127-130 | a qubit the term does not mention reads `I` at position n-1-q of its Qiskit label |
| TranslateQiskit.LabelLetter | tangelo/linq/translator/translate_qiskit.py:127-130 | a mentioned qubit q reads, at position n-1-q of the label, the letter of its last mention |
| TranslateQiskit.QiskitKey | tangelo/linq/translator/translate_qiskit.py:150-151 | reading a label back gives a canonical term whose factors are exactly the label's non-`I` letters, qubit q read at position len-1-q |
| TranslateQiskit.LabelRoundTrip | tangelo/linq/translator/translate_qiskit.py:127-151 | a canonical term written out as a Qiskit label and read back is the same term |
| TranslateQiskit.KeyRoundTrip | tangelo/linq/translator/translate_qiskit.py:127-151 | a label read back as a term and written out again is the same label |
| TranslateQiskit.ToQiskitTerms | tangelo/linq/translator/translate_qiskit.py:126-131 | one pair per term of the dictionary: a label of n letters and the term's own coefficient, at the term's position |
| TranslateQiskit.TranslateOpToQiskit | tangelo/linq/translator/translate_qiskit.py:109-132 | one (reversed label, coefficient) pair per term, in the dictionary's order |
| TranslateQiskit.FromQiskitTerms | tangelo/linq/translator/translate_qiskit.py:146-156 | the rebuilt dictionary never holds a key twice |
| TranslateQiskit.LastCoefficientWitness | tangelo/linq/translator/translate_qiskit.py:148-152 | a term has a coefficient iff some Qiskit pair reads back as that term, and the coefficient is that of the last such pair |
| TranslateQiskit.FromQiskitLookup | tangelo/linq/translator/translate_qiskit.py:148-152 | each term's coefficient is the one carried by the last Qiskit pair that reads back as that term, and a term with no such pair is absent |
| TranslateQiskit.TranslateOpFromQiskit | tangelo/linq/translator/translate_qiskit.py:135-161 | the loop builds the dictionary of FromQiskitTerms |
| TranslateQiskit.OpRoundTrip | tangelo/linq/translator/translate_qiskit.py:109-161 | an operator with canonical, distinct terms comes back from Qiskit unchanged, order included |
| PauliStrings.Reverse | tangelo/linq/translator/translate_qiskit.py:130 | `s[::-1]` keeps the length and puts position k at len-1-k |
| PauliStrings.ReverseInvolution | tangelo/linq/translator/translate_qiskit.py:150 | reversing twice gives the string back |
| PauliStrings.PauliOfToString | tangelo/linq/translator/translate_qiskit.py:127 | the Pauli string of a term has n letters, `I` where the term says nothing, and the letter of the last factor on each named qubit |
| PauliStrings.PauliStringToOf | tangelo/linq/translator/translate_qiskit.py:151 | the term of a Pauli string is canonical (ascending indices, no `I`) and lists exactly the non-`I` positions with their letters |
| PauliStrings.StringRoundTrip | tangelo/linq/translator/translate_qiskit.py:151 | a string read as a term and written out again is the same string |
| PauliStrings.TermRoundTrip | tangelo/linq/translator/translate_qiskit.py:127 | a canonical term written out and read back is the same term |
| QubitOperators.Lookup | tangelo/linq/translator/translate_qiskit.py:152 | a key has a value exactly when it is one of the dictionary's keys |
| QubitOperators.Put | tangelo/linq/translator/translate_qiskit.py:152 | assignment gives the key the new value and leaves every other key's value alone; it adds the key to the key set, keeps keys distinct, and appends a new key at the end |
| QubitOperators.PutInPlace | tangelo/linq/translator/translate_qiskit.py:152 | assigning to a key already present keeps the dictionary's length and every key at its position |
| QubitOperators.AddTerm | tangelo/toolboxes/operators/trim_trivial_qubits.py:46 | `+=` of one term adds the value to the key's stored coefficient (zero when absent) and changes no other key |
| TrimTrivialQubits.Zip | tangelo/toolboxes/operators/trim_trivial_qubits.py:24 | `zip` pairs the i-th index with the i-th state, up to the end of the shorter list |
| TrimTrivialQubits.SortByKey | tangelo/toolboxes/operators/trim_trivial_qubits.py:24 | sorting the (index, state) pairs is a permutation of them |
| TrimTrivialQubits.SortByKeySorted | tangelo/toolboxes/operators/trim_trivial_qubits.py:24 | the sorted pairs are in ascending index order, strictly so when no index repeats |
| TrimTrivialQubits.SortedIndices | tangelo/toolboxes/operators/trim_trivial_qubits.py:25 | `sorted(trim_index)` holds the same indices, in non-decreasing order |
| TrimTrivialQubits.SortedPairsMatchIndices | tangelo/toolboxes/operators/trim_trivial_qubits.py:24-25 | sorting the pairs puts the indices in the order `sorted(trim_index)` does, so the i-th sorted state belongs to the i-th sorted index |
| TrimTrivialQubits.SortedPairs | tangelo/toolboxes/operators/trim_trivial_qubits.py:24-25 | sorted indices are paired one-to-one with states, stay below n, and ascend strictly when they are distinct |
| TrimTrivialQubits.PairOrderIrrelevant | tangelo/toolboxes/operators/trim_trivial_qubits.py:24-25 | two listings of the same (index, state) pairs trim every operator identically; distinct indices are needed only with reindexing, where the operator demands them anyway |
| TrimTrivialQubits.Removed | tangelo/toolboxes/operators/trim_trivial_qubits.py:42 | removing the listed positions shortens the string by their number |
| TrimTrivialQubits.RemovedLetter | tangelo/toolboxes/operators/trim_trivial_qubits.py:42 | a position that is not trimmed keeps its letter and moves left by the number of trimmed positions below it |
| TrimTrivialQubits.RemoveStep | tangelo/toolboxes/operators/trim_trivial_qubits.py:42 | once the i smaller trimmed positions are gone, the i-th trimmed qubit's letter sits at `qubit - i`, and cutting it out removes one more listed position |
| TrimTrivialQubits.Masked | tangelo/toolboxes/operators/trim_trivial_qubits.py:44 | blanking keeps the string's length |
| TrimTrivialQubits.MaskedLetters | tangelo/toolboxes/operators/trim_trivial_qubits.py:44 | blanking puts `I` at every listed position and leaves every other position unchanged |
| TrimTrivialQubits.MaskStep | tangelo/toolboxes/operators/trim_trivial_qubits.py:44 | each pass overwrites one more listed position with `I` |
| TrimTrivialQubits.CutQubit | tangelo/toolboxes/operators/trim_trivial_qubits.py:41-44 | one pass of the string update extends the removal or blanking by the next trimmed qubit |
| TrimTrivialQubits.RecordFactor | tangelo/toolboxes/operators/trim_trivial_qubits.py:33-39 | the branches set `c[i]` to the letter's expectation value (0 for X/Y, 1 or -1 for Z in state 0 or 1, otherwise left at 1) and touch no other entry |
| TrimTrivialQubits.LetterFactor | tangelo/toolboxes/operators/trim_trivial_qubits.py:33-39 | a letter's factor is 0 iff it is X or Y, -1 iff it is Z on a qubit in state 1, and otherwise 1 |
| TrimTrivialQubits.TrimTerm | tangelo/toolboxes/operators/trim_trivial_qubits.py:29-44 | the inner loop yields the term's string with the trimmed positions removed or blanked, and `np.prod(c)` |
| TrimTrivialQubits.FactorValues | tangelo/toolboxes/operators/trim_trivial_qubits.py:30-39 | a term's factor is 0 iff some trimmed qubit carries X or Y; otherwise it is -1 to the number of trimmed qubits carrying Z in state 1 |
| TrimTrivialQubits.ProductPermutation | tangelo/toolboxes/operators/trim_trivial_qubits.py:46 | `np.prod` does not depend on the order of the factors |
| TrimTrivialQubits.TrimmedKeyShape | tangelo/toolboxes/operators/trim_trivial_qubits.py:41-46 | with reindexing a trimmed key is canonical on the n-|trim_index| remaining qubits; without it, it is canonical on n qubits and names no trimmed qubit |
| TrimTrivialQubits.TrimmedTerms | tangelo/toolboxes/operators/trim_trivial_qubits.py:28-46 | the accumulated operator never holds a key twice |
| TrimTrivialQubits.TrimmedCoefficients | tangelo/toolboxes/operators/trim_trivial_qubits.py:28-46 | the trimmed operator has a key exactly for the keys some term trims to, and its coefficient is the sum of factor times coefficient over those terms |
| TrimTrivialQubits.UnproducedContributesZero | tangelo/toolboxes/operators/trim_trivial_qubits.py:46 | a key no term trims to receives nothing |
| TrimTrivialQubits.FlippedTermContributesNothing | tangelo/toolboxes/operators/trim_trivial_qubits.py:33-46 | adding a term with X or Y on a trimmed qubit changes no coefficient of the trimmed operator |
| TrimTrivialQubits.TrimTrivialOperatorSpec | tangelo/toolboxes/operators/trim_trivial_qubits.py:9-48 | the trimmed operator never holds a key twice |
| TrimTrivialQubits.TrimTrivialOperator | tangelo/toolboxes/operators/trim_trivial_qubits.py:9-48 | the per-term loop computes the sorted-pairs specification of `trim_trivial_operator` |
| TrimTrivialQubits.Gated | tangelo/toolboxes/operators/trim_trivial_qubits.py:73-75 | every component's qubits are among the gated qubits |
| TrimTrivialQubits.GatedQubits | tangelo/toolboxes/operators/trim_trivial_qubits.py:73-75 | the loop collects exactly the gated qubits |
| TrimTrivialQubits.GatedMembers | tangelo/toolboxes/operators/trim_trivial_qubits.py:73-75 | a qubit is gated iff some component acts on it |
| TrimTrivialQubits.Untouched | tangelo/toolboxes/operators/trim_trivial_qubits.py:78 | every zero is below the width and gated by no component |
| TrimTrivialQubits.UntouchedMembers | tangelo/toolboxes/operators/trim_trivial_qubits.py:78 | the zeros are exactly the qubits below the width that no component acts on, in strictly ascending order |
| TrimTrivialQubits.TrivialPositionsAscending | tangelo/toolboxes/operators/trim_trivial_qubits.py:84-88 | the trimmed components are visited in ascending position order |
| TrimTrivialQubits.TrivialPositionsMembers | tangelo/toolboxes/operators/trim_trivial_qubits.py:85-86 | a component is trimmed iff it is one qubit wide and holds exactly one gate, an X |
| TrimTrivialQubits.KeptGatesMembers | tangelo/toolboxes/operators/trim_trivial_qubits.py:84-92 | a gate is kept iff it belongs to a component that is not a lone X on one qubit |
| TrimTrivialQubits.CircuitTrim | tangelo/toolboxes/operators/trim_trivial_qubits.py:79-92 | the trim list and the state list of a trimming have the same length |
| TrimTrivialQubits.TrimTrivialCircuit | tangelo/toolboxes/operators/trim_trivial_qubits.py:73-94 | the kept gates are those of every non-trivial component in order; the trim list is the zeros with state 0, then one qubit of each trivial component, in order, with state 1 |
| TrimTrivialQubits.TrimIndicesDistinct | tangelo/toolboxes/operators/trim_trivial_qubits.py:78-88 | for components on disjoint qubits below the width, the trimmed qubits are distinct and below the width |
| TrimTrivialQubits.TrimTrivialQubits | tangelo/toolboxes/operators/trim_trivial_qubits.py:97-113 | the circuit is trimmed as above, and the operator is trimmed with reindexing on exactly the indices and states the circuit trimming produced, which are distinct and in range |

## Left out

- Qiskit itself is not modelled. A `QuantumCircuit` is its register sizes plus the list of method calls the translator makes. A `PauliSumOp` is the `(label, coefficient)` list handed to `PauliSumOp.from_list`. Iterating over it is taken to give those pairs back in order. Tangelo keeps every gate's qubits below the circuit's width, and that invariant is not modelled: TranslateQiskit.TranslateQiskitCircuit reports success for a gate on a qubit past the width, which Qiskit would reject.
- `pauli_of_to_string` and `pauli_string_to_of` (tangelo.linq.helpers) are not part of this model. They are specified by the contracts of PauliStrings.PauliOfToString and PauliStrings.PauliStringToOf: a later factor on the same qubit wins, and the result lists the non-`I` positions in ascending order.
- Coefficients are complex numbers over exact reals, with no floating-point rounding. The entries of `c` and their product `np.prod(c)` are integers (0, 1 or -1), since numpy only ever multiplies those values there.
- QubitOperators.AddTerm: openfermion's `+=` drops a term whose summed coefficient falls below its tolerance. The model keeps every key, so a term whose factor is 0 leaves its key with a zero coefficient.
- TranslateQiskit.TranslateOpFromQiskit: the final `compress()` is left out for the same reason, so the model's operator still holds zero or near-zero coefficients.
- TranslateQiskit.MissingOperandExactly: Python's IndexError or TypeError for a missing target or control becomes one `MissingOperand` error. The error strings of the ValueErrors are not modelled, only which error is raised for which gate.
- `circuit.remove_redundant_gates()`, `remove_small_rotations()`, `split()` and `get_entangled_indices()` are calls into code outside this model. TrimTrivialQubits.TrimTrivialCircuit takes their results as inputs: the components and, for each, the set of qubits it acts on.
- TrimTrivialQubits.TrimTrivialCircuit: `e_indices[i].pop()` takes an arbitrary element of the set. The model picks one nondeterministically and requires the set of a trivial component to be non-empty. The contract says only that the picked qubit belongs to that component.
- TrimTrivialQubits.TrimTrivialCircuit: `circuit_new` is modelled as its gate list. The width that `Circuit.__add__` gives it is not modelled.
- TranslateQiskit.TranslateOpToQiskit requires every qubit of every term below `n_qubits`. `pauli_of_to_string` raises IndexError otherwise, and the model does not capture that error.
- TrimTrivialQubits.TrimTrivialOperator requires every trimmed index, and every qubit of every term, to be below `n_qubits`. Python raises IndexError otherwise.
- TrimTrivialQubits.TrimTrivialOperator requires at least as many states as indices. `zip` would silently drop indices otherwise, leaving `trim_index` and `trim_states` of different lengths.
- TrimTrivialQubits.TrimTrivialOperator requires distinct indices when reindexing. With a repeated index, `qubit - i` cuts a position that is not the trimmed qubit.
- TrimTrivialQubits.TrimTrivialQubits requires the components to act on disjoint qubit sets below the circuit's width, as the components of `split()` do.
