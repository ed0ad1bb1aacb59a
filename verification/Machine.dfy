/** What the flat ARM machine and the lifted C program share: the functions
    outside the lifted code, and the record of calls made to them. */
module Machine {
  import opened Words
  import opened Guest

  /** One call of a function outside the lifted code, with the state it saw. */
  datatype Event = Event(addr: Word, r: Regs, mem: Mem)

  /** Such a function changes registers and memory, or leaves without returning. */
  datatype ExtResult = Returned(r: Regs, mem: Mem) | Left

  /** ext may depend on everything that happened before, which stands for host state.
      mulCarry and mulOverflow are the C and V that ARMv4 leaves open. */
  datatype Env = Env(
    ext: (seq<Event>, Word, Regs, Mem) -> ExtResult,
    mulCarry: (Word, Regs) -> bool,
    mulOverflow: (Word, Regs) -> bool)
}
