/**
 * Translation of Tangelo's abstract circuits and qubit operators to Qiskit's
 * native form, and of Qiskit operators back.
 *
 * A Qiskit circuit is modelled by its register sizes and the list of
 * instructions appended to it; an instruction by the name of the
 * `QuantumCircuit` method that appends it and that method's arguments.
 */
module TranslateQiskit {
  import opened Wrappers
  import opened PauliStrings
  import opened QubitOperators
  import opened AbstractCircuits

  // ---------------------------------------------------------------------------
  // Gate vocabulary and the name table
  // ---------------------------------------------------------------------------

  const OneQubitGates: set<string> := {"H", "X", "Y", "Z", "S", "T"}
  const RotationGates: set<string> := {"RX", "RY", "RZ", "PHASE"}
  const ControlledRotationGates: set<string> := {"CRX", "CRY", "CRZ", "CPHASE"}
  const ControlledPauliGates: set<string> := {"CNOT", "CH", "CX", "CY", "CZ"}
  const SupportedGates: set<string> :=
    OneQubitGates + RotationGates + ControlledRotationGates + ControlledPauliGates
    + {"SWAP", "CSWAP", "XX", "MEASURE"}

  /**
   * The table of `get_qiskit_gates`: each supported abstract name and the
   * `QuantumCircuit` method that appends it.
   */
  const QiskitGates: map<string, string> := map[
    "H" := "h", "X" := "x", "Y" := "y", "Z" := "z",
    "CH" := "ch", "CX" := "cx", "CY" := "cy", "CZ" := "cz",
    "S" := "s", "T" := "t",
    "RX" := "rx", "RY" := "ry", "RZ" := "rz",
    "CRX" := "crx", "CRY" := "cry", "CRZ" := "crz",
    "CNOT" := "cx", "SWAP" := "swap", "XX" := "rxx", "CSWAP" := "cswap",
    "PHASE" := "p", "CPHASE" := "cp", "MEASURE" := "measure"
  ]

  /** The table names exactly the gates the dispatch accepts. */
  lemma TableCoversSupportedGates()
    ensures QiskitGates.Keys == SupportedGates
  {
  }

  /** `get_qiskit_gates`: the dictionary is filled one entry at a time. */
  method GetQiskitGates() returns (table: map<string, string>)
    ensures table == QiskitGates
  {
    table := map[];
    table := table["H" := "h"];
    table := table["X" := "x"];
    table := table["Y" := "y"];
    table := table["Z" := "z"];
    table := table["CH" := "ch"];
    table := table["CX" := "cx"];
    table := table["CY" := "cy"];
    table := table["CZ" := "cz"];
    table := table["S" := "s"];
    table := table["T" := "t"];
    table := table["RX" := "rx"];
    table := table["RY" := "ry"];
    table := table["RZ" := "rz"];
    table := table["CRX" := "crx"];
    table := table["CRY" := "cry"];
    table := table["CRZ" := "crz"];
    table := table["CNOT" := "cx"];
    table := table["SWAP" := "swap"];
    table := table["XX" := "rxx"];
    table := table["CSWAP" := "cswap"];
    table := table["PHASE" := "p"];
    table := table["CPHASE" := "cp"];
    table := table["MEASURE" := "measure"];
  }

  /**
   * CNOT and CX both become `cx`, and no other name does; XX, PHASE and
   * CPHASE are the entries whose method is not their lower-cased name.
   */
  lemma NativeNames()
    ensures QiskitGates["CNOT"] == QiskitGates["CX"] == "cx"
    ensures forall a :: a in QiskitGates && QiskitGates[a] == "cx" ==> a == "CNOT" || a == "CX"
    ensures QiskitGates["XX"] == "rxx" && QiskitGates["PHASE"] == "p" && QiskitGates["CPHASE"] == "cp"
  {
  }

  // ---------------------------------------------------------------------------
  // Native instructions and the per-gate dispatch
  // ---------------------------------------------------------------------------

  datatype Arg = Param(value: real) | Qubit(index: nat) | Clbit(index: nat)

  datatype Instruction = Instruction(name: string, args: seq<Arg>)

  /** `qiskit.QuantumCircuit(numQubits, numClbits)` with the instructions appended to it. */
  datatype QiskitCircuit = QiskitCircuit(numQubits: nat, numClbits: nat, data: seq<Instruction>)

  /**
   * The ValueErrors raised by the translator, and `MissingOperand` for the
   * IndexError or TypeError Python raises when a gate lacks the target or
   * control its family reads.
   */
  datatype TranslateError = MultiControlled(gate: string) | Unsupported(gate: string) | MissingOperand(gate: string)

  /** The gate families of the dispatch, one per branch of its if/elif chain. */
  datatype Family = OneQubit | Rotation | ControlledRotation | ControlledPauli | Swap | ControlledSwap | Xx | Measure

  /** The dispatch's if/elif chain: the family of a name, or `None` for an unsupported name. */
  function FamilyOf(name: string): (r: Option<Family>)
    ensures r.Some? <==> name in SupportedGates
  {
    if name in OneQubitGates then Some(OneQubit)
    else if name in RotationGates then Some(Rotation)
    else if name in ControlledRotationGates then Some(ControlledRotation)
    else if name in ControlledPauliGates then Some(ControlledPauli)
    else if name == "SWAP" then Some(Swap)
    else if name == "CSWAP" then Some(ControlledSwap)
    else if name == "XX" then Some(Xx)
    else if name == "MEASURE" then Some(Measure)
    else None
  }

  /** Every name the dispatch accepts has an entry in the table, and no other name has one. */
  lemma DispatchMatchesTable(name: string)
    ensures FamilyOf(name).Some? <==> name in QiskitGates
  {
    TableCoversSupportedGates();
    if name in OneQubitGates || name in RotationGates || name in ControlledRotationGates || name in ControlledPauliGates {
      assert name in SupportedGates;
    } else if name in {"SWAP", "CSWAP", "XX", "MEASURE"} {
      assert name in SupportedGates;
    } else {
      assert name !in SupportedGates;
    }
  }

  /** Where one argument of the Qiskit call is read from. */
  datatype Operand = Parameter | Control(k: nat) | Target(k: nat) | TargetBit(k: nat)

  /** The argument layout of each family, in the order Qiskit's methods take them. */
  function Layout(f: Family): seq<Operand> {
    match f
    case OneQubit => [Target(0)]
    case Rotation => [Parameter, Target(0)]
    case ControlledRotation => [Parameter, Control(0), Target(0)]
    case ControlledPauli => [Control(0), Target(0)]
    case Swap => [Target(0), Target(1)]
    case ControlledSwap => [Control(0), Target(0), Target(1)]
    case Xx => [Parameter, Target(0), Target(1)]
    case Measure => [Target(0), TargetBit(0)]
  }

  function Resolve(g: Gate, op: Operand): Option<Arg> {
    match op
    case Parameter => Some(Param(g.parameter))
    case Control(k) => if g.control.Some? && k < |g.control.value| then Some(Qubit(g.control.value[k])) else None
    case Target(k) => if k < |g.target| then Some(Qubit(g.target[k])) else None
    case TargetBit(k) => if k < |g.target| then Some(Clbit(g.target[k])) else None
  }

  /** The call's arguments, or `None` when the gate lacks an operand its family reads. */
  function ResolveAll(g: Gate, ops: seq<Operand>): Option<seq<Arg>> {
    if forall i :: 0 <= i < |ops| ==> Resolve(g, ops[i]).Some? then
      Some(seq(|ops|, i requires 0 <= i < |ops| => Resolve(g, ops[i]).value))
    else None
  }

  lemma ResolvesTo(g: Gate, ops: seq<Operand>, args: seq<Arg>)
    requires |ops| == |args|
    requires forall i :: 0 <= i < |ops| ==> Resolve(g, ops[i]) == Some(args[i])
    ensures ResolveAll(g, ops) == Some(args)
  {
    var r := ResolveAll(g, ops);
    assert r.Some?;
    assert r.value == args;
  }

  predicate MultiControlled?(g: Gate) {
    g.control.Some? && |g.control.value| > 1
  }

  /**
   * The instruction one abstract gate becomes. A gate with more than one
   * control is refused before its name is looked at; then an unknown name is
   * refused; then the family's operands are read.
   */
  function TranslateGate(g: Gate): (r: Result<Instruction, TranslateError>)
    ensures MultiControlled?(g) ==> r == Failure(MultiControlled(g.name))
    ensures !MultiControlled?(g) && g.name !in QiskitGates ==> r == Failure(Unsupported(g.name))
    ensures r.Success? ==> g.name in QiskitGates && r.value.name == QiskitGates[g.name]
  {
    DispatchMatchesTable(g.name);
    if MultiControlled?(g) then Failure(MultiControlled(g.name))
    else match FamilyOf(g.name)
      case None => Failure(Unsupported(g.name))
      case Some(f) =>
        match ResolveAll(g, Layout(f))
        case None => Failure(MissingOperand(g.name))
        case Some(args) => Success(Instruction(QiskitGates[g.name], args))
  }

  /** What one family's call looks like for a gate that has the operands it reads. */
  function Expected(g: Gate, f: Family): Instruction
    requires g.name in QiskitGates
    requires |g.target| >= TargetsRead(f) && |Controls(g)| >= ControlsRead(f)
  {
    Instruction(QiskitGates[g.name], Arguments(g, f))
  }

  /** The arguments of one family's call, in the order its branch passes them. */
  function Arguments(g: Gate, f: Family): seq<Arg>
    requires |g.target| >= TargetsRead(f) && |Controls(g)| >= ControlsRead(f)
  {
    match f
    case OneQubit => [Qubit(g.target[0])]
    case Rotation => [Param(g.parameter), Qubit(g.target[0])]
    case ControlledRotation => [Param(g.parameter), Qubit(g.control.value[0]), Qubit(g.target[0])]
    case ControlledPauli => [Qubit(g.control.value[0]), Qubit(g.target[0])]
    case Swap => [Qubit(g.target[0]), Qubit(g.target[1])]
    case ControlledSwap => [Qubit(g.control.value[0]), Qubit(g.target[0]), Qubit(g.target[1])]
    case Xx => [Param(g.parameter), Qubit(g.target[0]), Qubit(g.target[1])]
    case Measure => [Qubit(g.target[0]), Clbit(g.target[0])]
  }

  /** The families are the name sets of the dispatch. */
  lemma FamilyMembers(name: string)
    ensures FamilyOf(name) == Some(OneQubit) <==> name in OneQubitGates
    ensures FamilyOf(name) == Some(Rotation) <==> name in RotationGates
    ensures FamilyOf(name) == Some(ControlledRotation) <==> name in ControlledRotationGates
    ensures FamilyOf(name) == Some(ControlledPauli) <==> name in ControlledPauliGates
    ensures FamilyOf(name) == Some(Swap) <==> name == "SWAP"
    ensures FamilyOf(name) == Some(ControlledSwap) <==> name == "CSWAP"
    ensures FamilyOf(name) == Some(Xx) <==> name == "XX"
    ensures FamilyOf(name) == Some(Measure) <==> name == "MEASURE"
  {
  }

  /** How many targets and controls each family reads, and whether it takes the parameter. */
  function TargetsRead(f: Family): nat {
    if f in {Swap, ControlledSwap, Xx} then 2 else 1
  }

  function ControlsRead(f: Family): nat {
    if f in {ControlledRotation, ControlledPauli, ControlledSwap} then 1 else 0
  }

  predicate Parameterized(f: Family) {
    f in {Rotation, ControlledRotation, Xx}
  }

  function Controls(g: Gate): seq<nat> {
    if g.control.Some? then g.control.value else []
  }

  /**
   * Argument order of each family: the call the dispatch emits for a gate of
   * family `f` that has the operands the family reads.
   */
  lemma {:induction false} FamilyCall(g: Gate, f: Family)
    requires !MultiControlled?(g) && FamilyOf(g.name) == Some(f)
    requires |g.target| >= TargetsRead(f) && |Controls(g)| >= ControlsRead(f)
    ensures g.name in QiskitGates
    ensures TranslateGate(g) == Success(Expected(g, f))
  {
    DispatchMatchesTable(g.name);
    var e := Expected(g, f);
    ResolvesTo(g, Layout(f), e.args);
  }

  /** The qubit arguments of a call, in order. */
  function QubitArgs(args: seq<Arg>): seq<nat> {
    if args == [] then []
    else (if args[0].Qubit? then [args[0].index] else []) + QubitArgs(args[1..])
  }

  /** The classical-bit arguments of a call, in order. */
  function ClbitArgs(args: seq<Arg>): seq<nat> {
    if args == [] then []
    else (if args[0].Clbit? then [args[0].index] else []) + ClbitArgs(args[1..])
  }

  /**
   * A translated gate acts on exactly the qubits its family reads: its first
   * control (for a controlled family) followed by its first one or two
   * targets. The parameter, when the family takes one, is the first argument,
   * and only MEASURE writes a classical bit: the one numbered like its qubit.
   */
  lemma OperandsOfInstruction(g: Gate)
    requires TranslateGate(g).Success?
    ensures FamilyOf(g.name).Some?
    ensures var f := FamilyOf(g.name).value; var args := TranslateGate(g).value.args;
      && |g.target| >= TargetsRead(f) && |Controls(g)| >= ControlsRead(f)
      && QubitArgs(args) == Controls(g)[..ControlsRead(f)] + g.target[..TargetsRead(f)]
      && ClbitArgs(args) == (if f == Measure then [g.target[0]] else [])
      && (Parameterized(f) <==> |args| > 0 && args[0] == Param(g.parameter))
  {
    var f := FamilyOf(g.name).value;
    OperandsPresent(g, f);
    FamilyCall(g, f);
    ExpectedOperands(g, f);
  }

  /** A gate that translates has every operand its family reads. */
  lemma OperandsPresent(g: Gate, f: Family)
    requires TranslateGate(g).Success? && FamilyOf(g.name) == Some(f)
    ensures !MultiControlled?(g)
    ensures |g.target| >= TargetsRead(f) && |Controls(g)| >= ControlsRead(f)
  {
    var ops := Layout(f);
    assert ResolveAll(g, ops).Some?;
    match f
    case OneQubit => assert Resolve(g, ops[0]).Some?;
    case Rotation => assert Resolve(g, ops[1]).Some?;
    case ControlledRotation => assert Resolve(g, ops[1]).Some? && Resolve(g, ops[2]).Some?;
    case ControlledPauli => assert Resolve(g, ops[0]).Some? && Resolve(g, ops[1]).Some?;
    case Swap => assert Resolve(g, ops[1]).Some?;
    case ControlledSwap => assert Resolve(g, ops[0]).Some? && Resolve(g, ops[2]).Some?;
    case Xx => assert Resolve(g, ops[2]).Some?;
    case Measure => assert Resolve(g, ops[0]).Some?;
  }

  /** The qubits, classical bits and parameter of each family's call. */
  lemma ExpectedOperands(g: Gate, f: Family)
    requires g.name in QiskitGates
    requires |g.target| >= TargetsRead(f) && |Controls(g)| >= ControlsRead(f)
    ensures var args := Expected(g, f).args;
      && QubitArgs(args) == Controls(g)[..ControlsRead(f)] + g.target[..TargetsRead(f)]
      && ClbitArgs(args) == (if f == Measure then [g.target[0]] else [])
      && (Parameterized(f) <==> |args| > 0 && args[0] == Param(g.parameter))
  {
    var c := Controls(g);
    var t := g.target;
    var args := Expected(g, f).args;
    if ControlsRead(f) == 1 {
      assert c[..1] == [c[0]];
    }
    if TargetsRead(f) == 2 {
      assert t[..2] == [t[0], t[1]];
    } else {
      assert t[..1] == [t[0]];
    }
    match f
    case OneQubit =>
      ArgsOfOne(Qubit(t[0]));
    case Rotation =>
      ArgsOfTwo(Param(g.parameter), Qubit(t[0]));
    case ControlledRotation =>
      ArgsOfThree(Param(g.parameter), Qubit(c[0]), Qubit(t[0]));
    case ControlledPauli =>
      ArgsOfTwo(Qubit(c[0]), Qubit(t[0]));
    case Swap =>
      ArgsOfTwo(Qubit(t[0]), Qubit(t[1]));
    case ControlledSwap =>
      ArgsOfThree(Qubit(c[0]), Qubit(t[0]), Qubit(t[1]));
    case Xx =>
      ArgsOfThree(Param(g.parameter), Qubit(t[0]), Qubit(t[1]));
    case Measure =>
      ArgsOfTwo(Qubit(t[0]), Clbit(t[0]));
  }

  /** The qubits and classical bits one argument contributes. */
  function QubitOf(a: Arg): seq<nat> {
    if a.Qubit? then [a.index] else []
  }

  function ClbitOf(a: Arg): seq<nat> {
    if a.Clbit? then [a.index] else []
  }

  lemma ArgsOfOne(a: Arg)
    ensures QubitArgs([a]) == QubitOf(a) && ClbitArgs([a]) == ClbitOf(a)
  {
    assert [a][1..] == [];
  }

  lemma ArgsOfTwo(a: Arg, b: Arg)
    ensures QubitArgs([a, b]) == QubitOf(a) + QubitOf(b)
    ensures ClbitArgs([a, b]) == ClbitOf(a) + ClbitOf(b)
  {
    assert [a, b][1..] == [b];
    ArgsOfOne(b);
  }

  lemma ArgsOfThree(a: Arg, b: Arg, c: Arg)
    ensures QubitArgs([a, b, c]) == QubitOf(a) + QubitOf(b) + QubitOf(c)
    ensures ClbitArgs([a, b, c]) == ClbitOf(a) + ClbitOf(b) + ClbitOf(c)
  {
    assert [a, b, c][1..] == [b, c];
    ArgsOfTwo(b, c);
  }

  /**
   * Once the control count and the name have been accepted, the only failure
   * left is a gate with fewer targets or controls than its family reads.
   */
  lemma MissingOperandExactly(g: Gate)
    requires !MultiControlled?(g) && FamilyOf(g.name).Some?
    ensures var f := FamilyOf(g.name).value;
      TranslateGate(g).Failure? <==> |g.target| < TargetsRead(f) || |Controls(g)| < ControlsRead(f)
    ensures TranslateGate(g).Failure? ==> TranslateGate(g).error == MissingOperand(g.name)
  {
    var f := FamilyOf(g.name).value;
    var ops := Layout(f);
    if |g.target| < TargetsRead(f) {
      var k := (if Parameterized(f) then 1 else 0) + ControlsRead(f) + |g.target|;
      TargetPosition(f, |g.target|);
      assert Resolve(g, ops[k]).None?;
    } else if |Controls(g)| < ControlsRead(f) {
      var k := if f == ControlledRotation then 1 else 0;
      assert ops[k] == Control(0);
      assert Resolve(g, ops[k]).None?;
    } else {
      FamilyCall(g, f);
    }
  }

  /**
   * A single control on a gate of an uncontrolled family is not read: the
   * gate is translated as if it had no control list.
   */
  lemma UnreadControlIgnored(g: Gate)
    requires FamilyOf(g.name).Some? && ControlsRead(FamilyOf(g.name).value) == 0
    requires g.control.Some? && |g.control.value| == 1
    ensures TranslateGate(g) == TranslateGate(g.(control := None))
  {
    var h := g.(control := None);
    var ops := Layout(FamilyOf(g.name).value);
    assert forall i :: 0 <= i < |ops| ==> !ops[i].Control?;
    assert forall i :: 0 <= i < |ops| ==> Resolve(g, ops[i]) == Resolve(h, ops[i]);
    if ResolveAll(g, ops).Some? {
      ResolvesTo(h, ops, ResolveAll(g, ops).value);
    }
  }

  /** The `j`-th target sits after the parameter and the control in a family's layout. */
  lemma TargetPosition(f: Family, j: nat)
    requires j < TargetsRead(f)
    ensures var k := (if Parameterized(f) then 1 else 0) + ControlsRead(f) + j;
      k < |Layout(f)| && Layout(f)[k] == Target(j)
  {
  }

  /**
   * `translate_qiskit`: a circuit with as many qubits and classical bits as
   * the abstract circuit is wide, holding one instruction per gate in order.
   * The first gate that cannot be translated aborts the whole translation
   * with that gate's error.
   */
  method TranslateQiskitCircuit(source: Circuit) returns (r: Result<QiskitCircuit, TranslateError>)
    ensures r.Success? <==> forall i :: 0 <= i < |source.gates| ==> TranslateGate(source.gates[i]).Success?
    ensures r.Success? ==>
      && r.value.numQubits == source.width && r.value.numClbits == source.width
      && |r.value.data| == |source.gates|
      && forall i :: 0 <= i < |source.gates| ==> TranslateGate(source.gates[i]) == Success(r.value.data[i])
    ensures r.Failure? ==>
      exists k :: 0 <= k < |source.gates|
        && (forall i :: 0 <= i < k ==> TranslateGate(source.gates[i]).Success?)
        && TranslateGate(source.gates[k]) == Failure(r.error)
  {
    var table := GetQiskitGates();
    var data: seq<Instruction> := [];
    var j := 0;
    while j < |source.gates|
      invariant 0 <= j <= |source.gates|
      invariant |data| == j
      invariant forall i :: 0 <= i < j ==> TranslateGate(source.gates[i]) == Success(data[i])
    {
      var call := TranslateOne(table, source.gates[j]);
      if call.Failure? {
        return Failure(call.error);
      }
      data := data + [call.value];
      j := j + 1;
    }
    return Success(QiskitCircuit(source.width, source.width, data));
  }

  /**
   * The body of the dispatch loop for one gate: the control-count check, the
   * if/elif chain over the name, and the call of the family's branch.
   */
  method TranslateOne(table: map<string, string>, gate: Gate) returns (r: Result<Instruction, TranslateError>)
    requires table == QiskitGates
    ensures r == TranslateGate(gate)
  {
    if gate.control.Some? && |gate.control.value| > 1 {
      return Failure(MultiControlled(gate.name));
    }
    match FamilyOf(gate.name)
    case None =>
      DispatchMatchesTable(gate.name);
      return Failure(Unsupported(gate.name));
    case Some(f) =>
      if |gate.target| < TargetsRead(f) || |Controls(gate)| < ControlsRead(f) {
        MissingOperandExactly(gate);
        return Failure(MissingOperand(gate.name));
      }
      FamilyCall(gate, f);
      return Success(Instruction(table[gate.name], Arguments(gate, f)));
  }

  // ---------------------------------------------------------------------------
  // Qubit operators to and from Qiskit's Pauli sums
  // ---------------------------------------------------------------------------

  /** A Qiskit Pauli sum as the `(label, coefficient)` list it is built from. */
  type PauliSum = seq<(string, Complex)>

  /** Every key of `op` is in openfermion's canonical form on `n` qubits. */
  predicate CanonicalTerms(op: Terms<Complex>, n: nat) {
    forall i :: 0 <= i < |op| ==> Canonical(op[i].0, n)
  }

  lemma CanonicalPrefix(op: Terms<Complex>, n: nat, m: nat)
    requires CanonicalTerms(op, n) && m <= |op|
    ensures CanonicalTerms(op[..m], n)
  {
    forall i | 0 <= i < m
      ensures Canonical(op[..m][i].0, n)
    {
      assert op[..m][i] == op[i];
    }
  }

  /**
   * The Qiskit label of a term on `n` qubits: Qiskit writes qubit 0 last, so
   * the letter of qubit `q` sits at position `n - 1 - q`.
   */
  function QiskitLabel(t: Term, n: nat): (word: string)
    requires IndicesBelow(t, n)
    ensures |word| == n
  {
    Reverse(PauliOfToString(t, n))
  }

  /** A qubit the term does not mention reads 'I' in its label. */
  lemma LabelIdentity(t: Term, n: nat, q: nat)
    requires IndicesBelow(t, n) && q < n && q !in Qubits(t)
    ensures QiskitLabel(t, n)[n - 1 - q] == 'I'
  {
    var s := PauliOfToString(t, n);
    assert QiskitLabel(t, n)[n - 1 - q] == s[q];
  }

  /** A mentioned qubit reads, in the label, the letter of its last mention. */
  lemma LabelLetter(t: Term, n: nat, k: nat)
    requires IndicesBelow(t, n) && k < |t|
    requires forall j :: k < j < |t| ==> t[j].0 != t[k].0
    ensures QiskitLabel(t, n)[n - 1 - t[k].0] == t[k].1
  {
    var s := PauliOfToString(t, n);
    assert QiskitLabel(t, n)[n - 1 - t[k].0] == s[t[k].0];
  }

  /** The term a Qiskit label stands for, read back with qubit 0 at the end of the label. */
  function QiskitKey(word: string): (t: Term)
    ensures Canonical(t, |word|)
    ensures forall k :: 0 <= k < |t| ==> word[|word| - 1 - t[k].0] == t[k].1
    ensures forall q :: 0 <= q < |word| && word[|word| - 1 - q] != 'I' ==> q in Qubits(t)
  {
    PauliStringToOf(Reverse(word))
  }

  /** Reading a label back gives the term it was written from, for a canonical term. */
  lemma LabelRoundTrip(t: Term, n: nat)
    requires Canonical(t, n)
    ensures QiskitKey(QiskitLabel(t, n)) == t
  {
    ReverseInvolution(PauliOfToString(t, n));
    TermRoundTrip(t, n);
  }

  /** Writing a label's term back out gives the label. */
  lemma KeyRoundTrip(word: string)
    ensures QiskitLabel(QiskitKey(word), |word|) == word
  {
    StringRoundTrip(Reverse(word));
    ReverseInvolution(word);
  }

  /** The pairs `translate_op_to_qiskit` hands to `PauliSumOp.from_list`. */
  function ToQiskitTerms(op: Terms<Complex>, n: nat): (sum: PauliSum)
    requires TermsBelow(op, n)
    ensures |sum| == |op|
    ensures forall i :: 0 <= i < |op| ==> |sum[i].0| == n && sum[i].1 == op[i].1
  {
    seq(|op|, i requires 0 <= i < |op| => (QiskitLabel(op[i].0, n), op[i].1))
  }

  /**
   * `translate_op_to_qiskit`: one `(label, coefficient)` pair per term of the
   * operator, in the operator's order.
   */
  method TranslateOpToQiskit(op: Terms<Complex>, n: nat) returns (sum: PauliSum)
    requires TermsBelow(op, n)
    ensures sum == ToQiskitTerms(op, n)
  {
    sum := [];
    for i := 0 to |op|
      invariant |sum| == i
      invariant forall j :: 0 <= j < i ==> sum[j] == (QiskitLabel(op[j].0, n), op[j].1)
    {
      var word := QiskitLabel(op[i].0, n);
      sum := sum + [(word, op[i].1)];
    }
  }

  /** The value of the last pair whose string `read` maps to `k`. */
  function LastBy<V>(read: string -> Term, sum: seq<(string, V)>, k: Term): Option<V> {
    if sum == [] then None
    else if read(sum[|sum| - 1].0) == k then Some(sum[|sum| - 1].1)
    else LastBy(read, sum[..|sum| - 1], k)
  }

  lemma {:induction false} LastByPresent<V>(read: string -> Term, sum: seq<(string, V)>, k: Term)
    ensures LastBy(read, sum, k).Some? <==> exists i :: 0 <= i < |sum| && read(sum[i].0) == k
  {
    if sum != [] {
      var init := sum[..|sum| - 1];
      LastByPresent(read, init, k);
      if read(sum[|sum| - 1].0) != k {
        if exists i :: 0 <= i < |sum| && read(sum[i].0) == k {
          var i :| 0 <= i < |sum| && read(sum[i].0) == k;
          if i < |init| {
            assert init[i] == sum[i];
          } else {
            assert false;
          }
        }
        if exists i :: 0 <= i < |init| && read(init[i].0) == k {
          var i :| 0 <= i < |init| && read(init[i].0) == k;
          assert init[i] == sum[i];
        }
      }
    }
  }

  lemma {:induction false} LastByLast<V>(read: string -> Term, sum: seq<(string, V)>, k: Term)
    requires LastBy(read, sum, k).Some?
    ensures exists i :: 0 <= i < |sum| && read(sum[i].0) == k && LastBy(read, sum, k).value == sum[i].1
                        && forall j :: i < j < |sum| ==> read(sum[j].0) != k
  {
    var m := |sum| - 1;
    if read(sum[m].0) == k {
      assert LastBy(read, sum, k).value == sum[m].1;
    } else {
      var init := sum[..m];
      LastByLast(read, init, k);
      var i :| 0 <= i < |init| && read(init[i].0) == k && LastBy(read, init, k).value == init[i].1
        && forall j :: i < j < |init| ==> read(init[j].0) != k;
      assert init[i] == sum[i];
      forall j | i < j < |sum|
        ensures read(sum[j].0) != k
      {
        if j < m {
          assert init[j] == sum[j];
        }
      }
    }
  }

  /** The coefficient of the last pair of `sum` whose label reads back as `k`. */
  function LastCoefficient(sum: PauliSum, k: Term): Option<Complex> {
    LastBy(QiskitKey, sum, k)
  }

  /**
   * The last pair that reads back as `k` decides: there is a coefficient
   * exactly when some pair reads back as `k`, and it is the coefficient of
   * such a pair that no later such pair follows.
   */
  lemma LastCoefficientWitness(sum: PauliSum, k: Term)
    ensures LastCoefficient(sum, k).Some? <==> exists i :: 0 <= i < |sum| && QiskitKey(sum[i].0) == k
    ensures LastCoefficient(sum, k).Some? ==>
      exists i :: 0 <= i < |sum| && QiskitKey(sum[i].0) == k && LastCoefficient(sum, k).value == sum[i].1
                  && forall j :: i < j < |sum| ==> QiskitKey(sum[j].0) != k
  {
    LastByPresent(QiskitKey, sum, k);
    if LastCoefficient(sum, k).Some? {
      LastByLast(QiskitKey, sum, k);
    }
  }

  /**
   * The dictionary `translate_op_from_qiskit` fills: each pair stores its
   * coefficient under its term, a later pair with the same term overwriting
   * the earlier one in place.
   */
  function FromQiskitTerms(sum: PauliSum): (op: Terms<Complex>)
    ensures DistinctKeys(op)
  {
    if sum == [] then []
    else
      var last := sum[|sum| - 1];
      Put(FromQiskitTerms(sum[..|sum| - 1]), QiskitKey(last.0), last.1)
  }

  /** Every term's coefficient is the one the last pair with that term carries. */
  lemma {:induction false} FromQiskitLookup(sum: PauliSum, k: Term)
    ensures Lookup(FromQiskitTerms(sum), k) == LastCoefficient(sum, k)
  {
    if sum != [] {
      FromQiskitLookup(sum[..|sum| - 1], k);
    }
  }

  /** `translate_op_from_qiskit`, without the final `compress`. */
  method TranslateOpFromQiskit(sum: PauliSum) returns (op: Terms<Complex>)
    ensures op == FromQiskitTerms(sum)
  {
    op := [];
    for i := 0 to |sum|
      invariant op == FromQiskitTerms(sum[..i])
    {
      assert sum[..i + 1][..i] == sum[..i];
      op := Put(op, QiskitKey(sum[i].0), sum[i].1);
    }
    assert sum[..|sum|] == sum;
  }

  /**
   * An operator whose terms are canonical on `n` qubits and distinct comes
   * back from Qiskit unchanged, order included.
   */
  lemma {:induction false} OpRoundTrip(op: Terms<Complex>, n: nat)
    requires DistinctKeys(op) && CanonicalTerms(op, n)
    ensures TermsBelow(op, n) && FromQiskitTerms(ToQiskitTerms(op, n)) == op
  {
    assert TermsBelow(op, n);
    if op != [] {
      var init := op[..|op| - 1];
      var last := op[|op| - 1];
      assert init + [last] == op;
      assert DistinctKeys(init);
      CanonicalPrefix(op, n, |op| - 1);
      OpRoundTrip(init, n);
      ToQiskitSnoc(init, last, n);
      var pair := (QiskitLabel(last.0, n), last.1);
      FromQiskitSnoc(ToQiskitTerms(init, n), pair);
      LabelRoundTrip(last.0, n);
      assert last.0 !in Keys(init) by {
        forall j | 0 <= j < |init|
          ensures init[j].0 != last.0
        {
          assert init[j] == op[j];
        }
      }
      assert FromQiskitTerms(ToQiskitTerms(op, n)) == Put(init, last.0, last.1);
    }
  }

  lemma ToQiskitSnoc(op: Terms<Complex>, x: (Term, Complex), n: nat)
    requires TermsBelow(op, n) && IndicesBelow(x.0, n)
    ensures TermsBelow(op + [x], n)
    ensures ToQiskitTerms(op + [x], n) == ToQiskitTerms(op, n) + [(QiskitLabel(x.0, n), x.1)]
  {
    assert forall i :: 0 <= i < |op| ==> (op + [x])[i] == op[i];
    assert (op + [x])[|op|] == x;
  }

  lemma FromQiskitSnoc(sum: PauliSum, x: (string, Complex))
    ensures FromQiskitTerms(sum + [x]) == Put(FromQiskitTerms(sum), QiskitKey(x.0), x.1)
  {
    assert (sum + [x])[..|sum|] == sum;
  }
}
