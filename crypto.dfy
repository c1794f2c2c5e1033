/** The cryptographic instructions of the interpreter: `ECR` (recover a
    secp256k1 public key from a signature), `K256` (Keccak-256) and `S256`
    (SHA-256). Each handler checks its operands against the VM's memory
    bounds before touching memory, writes its result through the
    ownership-checked memory write, and advances pc only on success.

    The primitives (signature recovery and the two hashes) are parameters;
    so is the memory-ownership predicate, whose definition lives with the
    interpreter's call frames and is not part of this model. */
module CryptoOps {
  import opened Wrappers
  import opened FuelTypes
  import opened ByteOrder

  /** `VM_MAX_RAM`: 64 MiB of byte-addressed memory. */
  const VM_MAX_RAM: Word := 0x400_0000
  /** `MEM_MAX_ACCESS_SIZE`: the largest range one instruction may read. */
  const MEM_MAX_ACCESS_SIZE: Word := VM_MAX_RAM

  /** Unsigned 64-bit subtraction, defined only where it cannot underflow. */
  function Sub(x: Word, y: Word): Word
    requires y <= x
  {
    x - y
  }

  /** `inc_pc`: pc moves past the 4-byte instruction, wrapping at 2^64. */
  function IncPc(pc: Word): Word
  {
    (pc + 4) % (WORD_MAX + 1)
  }

  /** What the handlers see of the interpreter: its memory, pc and the error
      flag register. */
  datatype VmState = VmState(memory: seq<Byte>, pc: Word, err: Word)

  /** `memory` with `data` written at `addr`. */
  function Splice(memory: seq<Byte>, addr: nat, data: Bytes): (r: seq<Byte>)
    requires addr + |data| <= |memory|
    ensures |r| == |memory| && r[addr..addr + |data|] == data
    ensures forall k :: 0 <= k < |memory| && !(addr <= k < addr + |data|) ==> r[k] == memory[k]
  {
    memory[..addr] + data + memory[addr + |data|..]
  }

  /** `try_mem_write`: the write happens only when the context owns the
      whole target range. */
  function MemWrite(s: VmState, addr: nat, data: Bytes, owns: (nat, nat) -> bool): (r: (Result<(), ExecuteError>, VmState))
    requires addr + |data| <= |s.memory|
    ensures r.0.Ok? <==> owns(addr, addr + |data|)
    ensures r.0.Ok? ==> r.1 == s.(memory := Splice(s.memory, addr, data))
    ensures !r.0.Ok? ==> r == (Err(MemoryOwnership), s)
  {
    if owns(addr, addr + |data|) then (Ok(()), s.(memory := Splice(s.memory, addr, data)))
    else (Err(MemoryOwnership), s)
  }

  // ---------------------------------------------------------------------------
  // Bounds checks
  // ---------------------------------------------------------------------------

  /** The check at the head of `ecrecover`, evaluated as written. */
  function EcrecoverOverflows(a: Word, b: Word, c: Word): (overflow: bool)
    ensures !overflow <==> a + 64 <= VM_MAX_RAM && b + 64 <= VM_MAX_RAM && c + 32 <= VM_MAX_RAM
  {
    a > Sub(VM_MAX_RAM, 64) || b > Sub(VM_MAX_RAM, 64) || c > Sub(VM_MAX_RAM, 32)
  }

  /** The check at the head of `keccak256` and `sha256`, evaluated as
      written: the size is checked first, so `VM_MAX_RAM - c` cannot
      underflow. */
  function HashOverflows(a: Word, b: Word, c: Word): (overflow: bool)
    ensures !overflow <==> a + 32 <= VM_MAX_RAM && c <= MEM_MAX_ACCESS_SIZE && b + c <= VM_MAX_RAM
  {
    a > Sub(VM_MAX_RAM, 32) || c > MEM_MAX_ACCESS_SIZE || b > Sub(VM_MAX_RAM, c)
  }

  // ---------------------------------------------------------------------------
  // The handlers as functions of the state
  // ---------------------------------------------------------------------------

  /** `ecrecover`: recover the key signed in `memory[b..b+64]` over the
      message hash `memory[c..c+32]` and write it at `a`, clearing the error
      flag; when recovery fails, zero those 64 bytes and set the flag. */
  function EcrecoverSpec(s: VmState, a: Word, b: Word, c: Word,
                         recover: (Bytes64, Bytes32) -> Option<Bytes64>,
                         owns: (nat, nat) -> bool): (r: (Result<(), ExecuteError>, VmState))
    requires |s.memory| == VM_MAX_RAM
  {
    if EcrecoverOverflows(a, b, c) then (Err(MemoryOverflow), s)
    else
      var e := s.memory[c..c + 32];
      var sig := s.memory[b..b + 64];
      match recover(sig, e)
      case Some(pk) =>
        var (res, t) := MemWrite(s, a, pk, owns);
        if res.Err? then (res, t) else (Ok(()), t.(err := 0, pc := IncPc(t.pc)))
      case None =>
        var (res, t) := MemWrite(s, a, seq(64, _ => 0 as Byte), owns);
        if res.Err? then (res, t) else (Ok(()), t.(err := 1, pc := IncPc(t.pc)))
  }

  /** `ecrecover` fails with an overflow exactly when a range leaves memory,
      and with an ownership error when the output range is not owned; both
      leave the state alone. Otherwise pc advances, the recovered key (or 64
      zero bytes) lands at `a`, the error flag records whether recovery
      failed, and no other byte changes. */
  lemma EcrecoverCases(s: VmState, a: Word, b: Word, c: Word,
                       recover: (Bytes64, Bytes32) -> Option<Bytes64>, owns: (nat, nat) -> bool)
    requires |s.memory| == VM_MAX_RAM
    ensures var r := EcrecoverSpec(s, a, b, c, recover, owns);
      |r.1.memory| == |s.memory|
      && (EcrecoverOverflows(a, b, c) ==> r == (Err(MemoryOverflow), s))
      && (r.0.Ok? <==> !EcrecoverOverflows(a, b, c) && owns(a, a + 64))
      && (!r.0.Ok? ==> r.1 == s)
    ensures var r := EcrecoverSpec(s, a, b, c, recover, owns);
      r.0.Ok? ==>
      var key := recover(s.memory[b..b + 64], s.memory[c..c + 32]);
      r.1.pc == IncPc(s.pc)
      && r.1.memory[a..a + 64] == (if key.Some? then key.value else seq(64, _ => 0 as Byte))
      && r.1.err == (if key.Some? then 0 else 1)
      && forall k :: 0 <= k < |s.memory| && !(a <= k < a + 64) ==> r.1.memory[k] == s.memory[k]
  {
  }

  /** `keccak256` and `sha256`: write the 32-byte digest of
      `memory[b..b+c]` at `a`. */
  function HashSpec(s: VmState, a: Word, b: Word, c: Word, hash: Bytes -> Bytes32,
                    owns: (nat, nat) -> bool): (r: (Result<(), ExecuteError>, VmState))
    requires |s.memory| == VM_MAX_RAM
  {
    if HashOverflows(a, b, c) then (Err(MemoryOverflow), s)
    else
      var (res, t) := MemWrite(s, a, hash(s.memory[b..b + c]), owns);
      if res.Err? then (res, t) else (Ok(()), t.(pc := IncPc(t.pc)))
  }

  /** The hash handlers fail with an overflow exactly when a range leaves
      memory or the input is over the access limit, and with an ownership
      error when the output range is not owned; both leave the state alone.
      Otherwise pc advances and the digest lands at `a`: nothing but those
      32 bytes and pc changes. */
  lemma HashCases(s: VmState, a: Word, b: Word, c: Word, hash: Bytes -> Bytes32, owns: (nat, nat) -> bool)
    requires |s.memory| == VM_MAX_RAM
    ensures var r := HashSpec(s, a, b, c, hash, owns);
      |r.1.memory| == |s.memory|
      && (HashOverflows(a, b, c) ==> r == (Err(MemoryOverflow), s))
      && (r.0.Ok? <==> !HashOverflows(a, b, c) && owns(a, a + 32))
      && (!r.0.Ok? ==> r.1 == s)
    ensures var r := HashSpec(s, a, b, c, hash, owns);
      r.0.Ok? ==>
      r.1.pc == IncPc(s.pc) && r.1.err == s.err
      && r.1.memory[a..a + 32] == hash(s.memory[b..b + c])
      && forall k :: 0 <= k < |s.memory| && !(a <= k < a + 32) ==> r.1.memory[k] == s.memory[k]
  {
  }

  /** A handler that fails leaves pc, the error flag and memory as they
      were, and one that succeeds advances pc exactly once. */
  lemma HandlersAdvancePcOnlyOnSuccess(s: VmState, a: Word, b: Word, c: Word, hash: Bytes -> Bytes32,
                                       recover: (Bytes64, Bytes32) -> Option<Bytes64>, owns: (nat, nat) -> bool)
    requires |s.memory| == VM_MAX_RAM
    ensures var (r, t) := HashSpec(s, a, b, c, hash, owns);
      t.pc == if r.Ok? then IncPc(s.pc) else s.pc
    ensures var (r, t) := EcrecoverSpec(s, a, b, c, recover, owns);
      t.pc == if r.Ok? then IncPc(s.pc) else s.pc
  {
    HashCases(s, a, b, c, hash, owns);
    EcrecoverCases(s, a, b, c, recover, owns);
  }

  // ---------------------------------------------------------------------------
  // The interpreter
  // ---------------------------------------------------------------------------

  class Interpreter {
    const memory: array<Byte>
    var pc: Word
    var err: Word

    function State(): VmState
      reads this, memory
    {
      VmState(memory[..], pc, err)
    }

    constructor(pc: Word)
      ensures memory.Length == VM_MAX_RAM && fresh(memory)
      ensures State() == VmState(seq(VM_MAX_RAM, _ => 0 as Byte), pc, 0)
    {
      memory := new Byte[VM_MAX_RAM](_ => 0);
      this.pc := pc;
      err := 0;
    }

    /** `try_mem_write`. */
    method TryMemWrite(addr: nat, data: Bytes, owns: (nat, nat) -> bool) returns (r: Result<(), ExecuteError>)
      requires addr + |data| <= memory.Length
      modifies memory
      ensures (r, State()) == MemWrite(old(State()), addr, data, owns)
    {
      if !owns(addr, addr + |data|) {
        return Err(MemoryOwnership);
      }
      forall k | addr <= k < addr + |data| {
        memory[k] := data[k - addr];
      }
      assert memory[..] == Splice(old(memory[..]), addr, data);
      return Ok(());
    }

    method Ecrecover(a: Word, b: Word, c: Word, recover: (Bytes64, Bytes32) -> Option<Bytes64>,
                     owns: (nat, nat) -> bool) returns (r: Result<(), ExecuteError>)
      requires memory.Length == VM_MAX_RAM
      modifies this, memory
      ensures (r, State()) == EcrecoverSpec(old(State()), a, b, c, recover, owns)
    {
      if a > Sub(VM_MAX_RAM, 64) || b > Sub(VM_MAX_RAM, 64) || c > Sub(VM_MAX_RAM, 32) {
        return Err(MemoryOverflow);
      }
      ghost var before := State();
      assert !EcrecoverOverflows(a, b, c);
      var bx := b + 64;
      var cx := c + 32;
      var e := memory[c..cx];
      var sig := memory[b..bx];
      assert e == before.memory[c..c + 32] && sig == before.memory[b..b + 64];
      match recover(sig, e) {
        case Some(pk) =>
          r := TryMemWrite(a, pk, owns);
          if r.Err? {
            return;
          }
          err := 0;
          pc := IncPc(pc);
        case None =>
          r := TryMemWrite(a, seq(64, _ => 0 as Byte), owns);
          if r.Err? {
            return;
          }
          err := 1;
          pc := IncPc(pc);
      }
    }

    method Keccak256(a: Word, b: Word, c: Word, keccak: Bytes -> Bytes32, owns: (nat, nat) -> bool)
      returns (r: Result<(), ExecuteError>)
      requires memory.Length == VM_MAX_RAM
      modifies this, memory
      ensures (r, State()) == HashSpec(old(State()), a, b, c, keccak, owns)
    {
      if a > Sub(VM_MAX_RAM, 32) || c > MEM_MAX_ACCESS_SIZE || b > Sub(VM_MAX_RAM, c) {
        return Err(MemoryOverflow);
      }
      ghost var before := State();
      assert !HashOverflows(a, b, c);
      var bc := b + c;
      var input := memory[b..bc];
      assert input == before.memory[b..b + c];
      r := TryMemWrite(a, keccak(input), owns);
      if r.Err? {
        return;
      }
      pc := IncPc(pc);
      return Ok(());
    }

    method Sha256(a: Word, b: Word, c: Word, sha256: Bytes -> Bytes32, owns: (nat, nat) -> bool)
      returns (r: Result<(), ExecuteError>)
      requires memory.Length == VM_MAX_RAM
      modifies this, memory
      ensures (r, State()) == HashSpec(old(State()), a, b, c, sha256, owns)
    {
      if a > Sub(VM_MAX_RAM, 32) || c > MEM_MAX_ACCESS_SIZE || b > Sub(VM_MAX_RAM, c) {
        return Err(MemoryOverflow);
      }
      ghost var before := State();
      assert !HashOverflows(a, b, c);
      var bc := b + c;
      var input := memory[b..bc];
      assert input == before.memory[b..b + c];
      r := TryMemWrite(a, sha256(input), owns);
      if r.Err? {
        return;
      }
      pc := IncPc(pc);
      return Ok(());
    }
  }
}
