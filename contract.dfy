/** Contract bytecode as the interpreter stores it: the code root (the Merkle
    root over the code cut into zero-padded 8-byte words), the contract id
    derived from a salt and that root, the bytecode taken from a `Create`
    transaction, and the interpreter's lookups of contracts and balances.

    The hash primitives (`ephemeral_merkle_root` and the SHA-256 `Hasher`)
    are parameters: the model fixes what is fed to them and in which order,
    not their output. */
module ContractCode {
  import opened Wrappers
  import opened FuelTypes
  import opened ByteOrder

  /** `Contract`: the contract's bytecode. */
  datatype Contract = Contract(code: Bytes)

  /** `ContractId::SEED`, the four bytes "FUEL" that prefix the id preimage. */
  const SEED: Bytes := [0x46, 0x55, 0x45, 0x4C]

  // ---------------------------------------------------------------------------
  // Code root
  // ---------------------------------------------------------------------------

  /** One chunk of at most eight bytes copied into a zeroed 8-byte word. */
  function PadWord(chunk: Bytes): (w: Bytes)
    requires |chunk| <= 8
    ensures |w| == 8 && w[..|chunk|] == chunk
    ensures forall j :: |chunk| <= j < 8 ==> w[j] == 0
  {
    chunk + seq(8 - |chunk|, _ => 0 as Byte)
  }

  /** The leaves of the code root: `code.chunks(8)`, each padded to a word. */
  function CodeWords(code: Bytes): (ws: seq<Bytes>)
    ensures |ws| == (|code| + 7) / 8
    ensures forall i :: 0 <= i < |ws| ==> |ws[i]| == 8
    ensures forall i, j :: 0 <= i < |ws| && 0 <= j < 8 ==>
      ws[i][j] == if 8 * i + j < |code| then code[8 * i + j] else 0
    decreases |code|
  {
    if |code| == 0 then []
    else if |code| <= 8 then [PadWord(code)]
    else
      var rest := CodeWords(code[8..]);
      var ws := [PadWord(code[..8])] + rest;
      assert forall i, j :: 1 <= i < |ws| && 0 <= j < 8 ==>
        ws[i][j] == rest[i - 1][j] && 8 * i + j == 8 + (8 * (i - 1) + j);
      ws
  }

  function Flatten(ws: seq<Bytes>): Bytes
  {
    if ws == [] then [] else ws[0] + Flatten(ws[1..])
  }

  /** Joining the code words gives the code followed by fewer than eight zero
      bytes: a multiple of eight long, with the code as its prefix. */
  lemma {:induction false} CodeWordsFlatten(code: Bytes)
    ensures var f := Flatten(CodeWords(code));
      |f| % 8 == 0 && |code| <= |f| < |code| + 8 && f[..|code|] == code
      && forall k :: |code| <= k < |f| ==> f[k] == 0
    decreases |code|
  {
    var ws := CodeWords(code);
    if |code| == 0 {
    } else if |code| <= 8 {
      assert Flatten(ws) == PadWord(code) + Flatten([]);
    } else {
      CodeWordsFlatten(code[8..]);
      var rest := CodeWords(code[8..]);
      assert ws == [PadWord(code[..8])] + rest;
      assert ws[1..] == rest;
      var f := Flatten(ws);
      var g := Flatten(rest);
      assert f == code[..8] + g;
      Mod8Shift(|g|);
      assert f[..|code|] == code[..8] + g[..|code| - 8];
      assert code == code[..8] + code[8..];
      forall k | |code| <= k < |f|
        ensures f[k] == 0
      {
        assert f[k] == g[k - 8];
      }
    }
  }

  lemma Mod8Shift(x: nat)
    requires x % 8 == 0
    ensures (x + 8) % 8 == 0
  {
  }

  /** `Contract::root`: the ephemeral Merkle root over the code words. */
  function Root(c: Contract, merkleRoot: seq<Bytes> -> Bytes32): Bytes32
  {
    merkleRoot(CodeWords(c.code))
  }

  /** A zero byte appended inside the last, partial word does not change the
      words: the root cannot tell the two codes apart. */
  lemma TrailingZeroSharesRoot(code: Bytes, merkleRoot: seq<Bytes> -> Bytes32)
    requires |code| % 8 != 0
    ensures CodeWords(code + [0]) == CodeWords(code)
    ensures Root(Contract(code + [0]), merkleRoot) == Root(Contract(code), merkleRoot)
  {
    var ext := code + [0];
    var a, b := CodeWords(ext), CodeWords(code);
    WordCountUnchanged(|code|);
    assert |a| == |b|;
    forall i | 0 <= i < |a|
      ensures a[i] == b[i]
    {
      WordUnchanged(code, i);
    }
    SameSeq(a, b);
  }

  lemma SameSeq<T>(a: seq<T>, b: seq<T>)
    requires |a| == |b| && forall i :: 0 <= i < |a| ==> a[i] == b[i]
    ensures a == b
  {
  }

  lemma WordCountUnchanged(n: nat)
    requires n % 8 != 0
    ensures (n + 1 + 7) / 8 == (n + 7) / 8
  {
    var q, m := n / 8, n % 8;
    assert n + 7 == 8 * (q + 1) + (m - 1);
    assert n + 8 == 8 * (q + 1) + m;
  }

  lemma WordUnchanged(code: Bytes, i: nat)
    requires i < (|code| + 7) / 8 && i < (|code| + 1 + 7) / 8
    ensures CodeWords(code + [0])[i] == CodeWords(code)[i]
  {
    var ext := code + [0];
    var a, b := CodeWords(ext)[i], CodeWords(code)[i];
    forall j | 0 <= j < 8
      ensures a[j] == b[j]
    {
      CodeWordsByte(ext, i, j);
      CodeWordsByte(code, i, j);
      var k := 8 * i + j;
      if k < |code| {
        assert ext[k] == code[k];
      } else if k == |code| {
        assert ext[k] == 0;
      }
    }
    SameSeq(a, b);
  }

  /** One byte of one code word. */
  lemma CodeWordsByte(code: Bytes, i: nat, j: nat)
    requires i < (|code| + 7) / 8 && j < 8
    ensures |CodeWords(code)[i]| == 8
    ensures CodeWords(code)[i][j] == if 8 * i + j < |code| then code[8 * i + j] else 0
  {
  }

  // ---------------------------------------------------------------------------
  // Contract id
  // ---------------------------------------------------------------------------

  /** What `Contract::id` feeds its hasher: the seed, the salt, the root, in
      that order. */
  function IdPreimage(salt: Salt, root: Bytes32): (p: Bytes)
    ensures |p| == 68 && p[..4] == SEED && p[4..36] == salt && p[36..] == root
  {
    SEED + salt + root
  }

  /** `Contract::id`. The contract's own code is not an input: the id depends
      only on the given salt and root. */
  function Id(c: Contract, salt: Salt, root: Bytes32, hash: Bytes -> Bytes32): ContractId
  {
    hash(IdPreimage(salt, root))
  }

  /** Distinct (salt, root) pairs give distinct preimages, so the id is as
      collision-free as the hash. */
  lemma IdPreimageInjective(salt: Salt, root: Bytes32, salt': Salt, root': Bytes32)
    requires IdPreimage(salt, root) == IdPreimage(salt', root')
    ensures salt == salt' && root == root'
  {
    var p := IdPreimage(salt, root);
    assert salt == p[4..36] == salt';
    assert root == p[36..] == root';
  }

  // ---------------------------------------------------------------------------
  // Conversions
  // ---------------------------------------------------------------------------

  /** `From<Vec<u8>>` (and the slice variants). */
  function FromBytes(code: Bytes): Contract
  {
    Contract(code)
  }

  /** `From<Contract> for Vec<u8>`. */
  function IntoBytes(c: Contract): Bytes
  {
    c.code
  }

  lemma ConversionRoundTrip(code: Bytes, c: Contract)
    ensures IntoBytes(FromBytes(code)) == code
    ensures FromBytes(IntoBytes(c)) == c
  {
  }

  /** The transaction kinds; only a `Create` carries contract bytecode. */
  datatype Transaction =
    | Script
    | Create(bytecodeWitnessIndex: nat, witnesses: seq<Bytes>)

  /** `TryFrom<&Transaction> for Contract`. */
  function TryFromTransaction(tx: Transaction): (r: Result<Contract, ExecuteError>)
    ensures r.Ok? <==> tx.Create? && tx.bytecodeWitnessIndex < |tx.witnesses|
    ensures r.Ok? ==> IntoBytes(r.value) == tx.witnesses[tx.bytecodeWitnessIndex]
    ensures tx.Create? && !r.Ok? ==> r == Err(Validation(TransactionCreateBytecodeWitnessIndex))
    ensures tx.Script? ==> r == Err(Validation(TransactionScriptOutputContractCreated(0)))
  {
    match tx
    case Create(index, witnesses) =>
      if index < |witnesses| then Ok(FromBytes(witnesses[index]))
      else Err(Validation(TransactionCreateBytecodeWitnessIndex))
    case Script => Err(Validation(TransactionScriptOutputContractCreated(0)))
  }

  // ---------------------------------------------------------------------------
  // Interpreter lookups (over the storage's contracts and balances tables)
  // ---------------------------------------------------------------------------

  /** `Interpreter::contract`. */
  function ContractOf(contracts: map<ContractId, Contract>, id: ContractId): (r: Option<Contract>)
    ensures r.Some? <==> id in contracts
    ensures r.Some? ==> r.value == contracts[id]
  {
    Get(contracts, id)
  }

  /** `Interpreter::check_contract_exists`. */
  function ContractExists(contracts: map<ContractId, Contract>, id: ContractId): (b: bool)
    ensures b <==> ContractOf(contracts, id).Some?
  {
    id in contracts
  }

  /** `Interpreter::balance`: an absent entry reads as zero. */
  function Balance(balances: map<(ContractId, Color), Word>, contract: ContractId, color: Color): (w: Word)
    ensures (contract, color) !in balances ==> w == 0
    ensures (contract, color) in balances ==> w == balances[(contract, color)]
  {
    if (contract, color) in balances then balances[(contract, color)] else 0
  }
}
