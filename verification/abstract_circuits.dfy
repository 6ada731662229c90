/** Tangelo's abstract gates and circuits, as far as the translator and the trimming code read them. */
module AbstractCircuits {
  import opened Wrappers

  /**
   * A gate: its name, its target qubits, its control qubits (`None` when the
   * gate has no control list) and its parameter.
   */
  datatype Gate = Gate(name: string, target: seq<nat>, control: Option<seq<nat>>, parameter: real)

  /** A circuit: the number of qubits it spans and its gates in order. */
  datatype Circuit = Circuit(width: nat, gates: seq<Gate>)
}
