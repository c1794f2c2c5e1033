/** The in-memory storage of the client: three copies (layers) of the same
    four tables. `memory` is the working layer every read and write goes to,
    `transacted` is the state at the last commit and `persisted` the state at
    the last persist. `commit`, `revert`, `rollback` and `persist` move whole
    layers between the three.

    `ephemeral_merkle_root` and the hasher are parameters; `block_hash` is
    not part of the model. */
module ClientStorage {
  import opened Wrappers
  import opened FuelTypes
  import opened ByteOrder
  import opened ContractCode

  type U32 = x: nat | x < 0x1_0000_0000

  /** `MemoryStorageInner`: the four tables of one layer. Balances and
      contract state are keyed by (contract, key) pairs. */
  datatype Tables = Tables(
    contracts: map<ContractId, Contract>,
    balances: map<(ContractId, Color), Word>,
    contractState: map<(ContractId, Bytes32), Bytes32>,
    contractCodeRoot: map<ContractId, (Salt, Bytes32)>)

  /** `MemoryStorageInner::default()`. */
  const EMPTY: Tables := Tables(map[], map[], map[], map[])

  // ---------------------------------------------------------------------------
  // The layer state machine
  // ---------------------------------------------------------------------------

  datatype Layers = Layers(memory: Tables, transacted: Tables, persisted: Tables)

  /** `commit`: the working layer becomes the committed one. */
  function Committed(l: Layers): Layers
  {
    l.(transacted := l.memory)
  }

  /** `revert`: the working layer goes back to the last commit. */
  function Reverted(l: Layers): Layers
  {
    l.(memory := l.transacted)
  }

  /** `rollback`: working and committed layers go back to the last persist. */
  function RolledBack(l: Layers): Layers
  {
    l.(memory := l.persisted, transacted := l.persisted)
  }

  /** `persist`: the committed layer becomes the working and persisted one. */
  function Persisted(l: Layers): Layers
  {
    l.(memory := l.transacted, persisted := l.transacted)
  }

  /** How the four operations combine. */
  lemma LayerLaws(l: Layers)
    // commit leaves the working layer and the persisted layer alone
    ensures Committed(l).memory == l.memory && Committed(l).persisted == l.persisted
    // revert straight after commit changes nothing
    ensures Reverted(Committed(l)) == Committed(l)
    // revert discards the writes since the last commit
    ensures Reverted(l).memory == l.transacted
    // persist drops uncommitted writes: only committed ones are persisted
    ensures Persisted(l).persisted == l.transacted && Persisted(l).memory == l.transacted
    // commit then persist makes every layer the working one
    ensures var p := Persisted(Committed(l)); p.memory == p.transacted == p.persisted == l.memory
    // rollback undoes every commit since the last persist
    ensures RolledBack(Committed(l)) == RolledBack(l)
    ensures RolledBack(l).memory == RolledBack(l).transacted == l.persisted
    // each operation is idempotent
    ensures Committed(Committed(l)) == Committed(l) && Reverted(Reverted(l)) == Reverted(l)
    ensures RolledBack(RolledBack(l)) == RolledBack(l) && Persisted(Persisted(l)) == Persisted(l)
  {
  }

  // ---------------------------------------------------------------------------
  // Per-contract roots
  // ---------------------------------------------------------------------------

  /** The keys stored under `parent` in a table keyed by (contract, key). */
  function KeysOf<V>(m: map<(ContractId, Bytes32), V>, parent: ContractId): (ks: set<Bytes32>)
    ensures forall k :: k in ks <==> (parent, k) in m
  {
    var ks := set p | p in m && p.0 == parent :: p.1;
    assert forall k :: k in ks ==> (parent, k) in m by {
      forall k | k in ks
        ensures (parent, k) in m
      {
        var p :| p in m && p.0 == parent && p.1 == k;
        assert p == (parent, k);
      }
    }
    assert forall k :: (parent, k) in m ==> k in ks by {
      forall k | (parent, k) in m
        ensures k in ks
      {
        var p := (parent, k);
        assert p in m && p.0 == parent;
      }
    }
    ks
  }

  /** The values stored under `parent`, in ascending key order: the filter
      and sort of the `root` pipelines. */
  function EntriesOf<V>(m: map<(ContractId, Bytes32), V>, parent: ContractId): (vs: seq<V>)
    ensures |vs| == |KeysOf(m, parent)|
  {
    var ks := SortedKeys(KeysOf(m, parent));
    seq(|ks|, i requires 0 <= i < |ks| => m[(parent, ks[i])])
  }

  /** Listing `parent`'s entries by any strictly ascending enumeration of its
      keys gives `EntriesOf`: the root input is fixed by the table's
      contents, whatever order the entries were inserted in. */
  lemma EntriesOfUnique<V>(m: map<(ContractId, Bytes32), V>, parent: ContractId, ks: seq<Bytes32>, vs: seq<V>)
    requires forall k: Bytes32 :: (parent, k) in m <==> k in ks
    requires forall i, j :: 0 <= i < j < |ks| ==> LexLess(ks[i], ks[j])
    requires |vs| == |ks| && forall i :: 0 <= i < |ks| ==> vs[i] == m[(parent, ks[i])]
    ensures vs == EntriesOf(m, parent)
  {
    var keys := KeysOf(m, parent);
    forall i, j | 0 <= i < j < |ks|
      ensures ks[i] != ks[j]
    {
      LexIrreflexive(ks[i]);
    }
    DistinctCard(ks);
    assert forall k :: k in keys <==> k in ks by {
      forall k
        ensures k in keys <==> k in ks
      {
        if k in keys {
          var p :| p in m && p.0 == parent && p.1 == k;
        }
      }
    }
    assert keys == set k | k in ks;
    SortedUnique(keys, ks);
  }

  /** A sequence of distinct elements has as many elements as its set. */
  lemma {:induction false} DistinctCard<T>(s: seq<T>)
    requires forall i, j :: 0 <= i < j < |s| ==> s[i] != s[j]
    ensures |set x | x in s| == |s|
  {
    if s != [] {
      var rest := s[1..];
      DistinctCard(rest);
      assert (set x | x in s) == {s[0]} + (set x | x in rest);
      assert s[0] !in rest;
    }
  }

  /** A write under another contract leaves `parent`'s entries unchanged. */
  lemma EntriesOfIsolated<V>(m: map<(ContractId, Bytes32), V>, parent: ContractId, other: ContractId, k: Bytes32, v: V)
    requires other != parent
    ensures EntriesOf(m[(other, k) := v], parent) == EntriesOf(m, parent)
    ensures EntriesOf(m - {(other, k)}, parent) == EntriesOf(m, parent)
  {
    assert KeysOf(m[(other, k) := v], parent) == KeysOf(m, parent);
    assert KeysOf(m - {(other, k)}, parent) == KeysOf(m, parent);
  }

  /** A balance written or removed under another contract leaves `parent`'s
      balance root input unchanged. */
  lemma BalanceLeavesIsolated(m: map<(ContractId, Color), Word>, parent: ContractId, other: ContractId, k: Color, w: Word)
    requires other != parent
    ensures BalanceLeaves(m[(other, k) := w], parent) == BalanceLeaves(m, parent)
    ensures BalanceLeaves(m - {(other, k)}, parent) == BalanceLeaves(m, parent)
  {
    EntriesOfIsolated(m, parent, other, k, w);
  }

  /** The root input of the balances table: the balances under `parent` in
      ascending color order, each as eight big-endian bytes. */
  function BalanceLeaves(balances: map<(ContractId, Color), Word>, parent: ContractId): (leaves: seq<Bytes>)
    ensures |leaves| == |KeysOf(balances, parent)|
    ensures forall i :: 0 <= i < |leaves| ==>
      |leaves[i]| == 8 && BeValue(leaves[i]) == EntriesOf(balances, parent)[i]
  {
    var vs := EntriesOf(balances, parent);
    forall i | 0 <= i < |vs|
      ensures BeValue(WordToBeBytes(vs[i])) == vs[i]
    {
      WordRoundTrip(vs[i]);
    }
    seq(|vs|, i requires 0 <= i < |vs| => WordToBeBytes(vs[i]))
  }

  // ---------------------------------------------------------------------------
  // The storage
  // ---------------------------------------------------------------------------

  /** `MemoryStorage`. */
  class MemoryStorage {
    const blockHeight: U32
    const coinbase: Address
    var memory: Tables
    var transacted: Tables
    var persisted: Tables

    function Snapshot(): Layers
      reads this
    {
      Layers(memory, transacted, persisted)
    }

    /** `MemoryStorage::new`: all three layers empty. */
    constructor(blockHeight: U32, coinbase: Address)
      ensures this.blockHeight == blockHeight && this.coinbase == coinbase
      ensures memory == transacted == persisted == EMPTY
    {
      this.blockHeight := blockHeight;
      this.coinbase := coinbase;
      memory, transacted, persisted := EMPTY, EMPTY, EMPTY;
    }

    /** `MemoryStorage::default`: height 1, coinbase the hash of the ASCII
        bytes of "coinbase". */
    constructor Default(hash: Bytes -> Bytes32)
      ensures blockHeight == 1 && coinbase == hash([0x63, 0x6F, 0x69, 0x6E, 0x62, 0x61, 0x73, 0x65])
      ensures memory == transacted == persisted == EMPTY
    {
      blockHeight := 1;
      coinbase := hash([0x63, 0x6F, 0x69, 0x6E, 0x62, 0x61, 0x73, 0x65]);
      memory, transacted, persisted := EMPTY, EMPTY, EMPTY;
    }

    method Commit()
      modifies this
      ensures Snapshot() == Committed(old(Snapshot()))
    {
      transacted := memory;
    }

    method Revert()
      modifies this
      ensures Snapshot() == Reverted(old(Snapshot()))
    {
      memory := transacted;
    }

    method Rollback()
      modifies this
      ensures Snapshot() == RolledBack(old(Snapshot()))
    {
      memory := persisted;
      transacted := persisted;
    }

    method Persist()
      modifies this
      ensures Snapshot() == Persisted(old(Snapshot()))
    {
      memory := transacted;
      persisted := transacted;
    }

    // Contracts --------------------------------------------------------------

    function GetContract(key: ContractId): (r: Option<Contract>)
      reads this
      ensures r == ContractOf(memory.contracts, key)
    {
      Get(memory.contracts, key)
    }

    function ContainsContract(key: ContractId): (b: bool)
      reads this
      ensures b <==> GetContract(key).Some?
    {
      key in memory.contracts
    }

    method InsertContract(key: ContractId, value: Contract) returns (prev: Option<Contract>)
      modifies this
      ensures prev == old(GetContract(key)) && GetContract(key) == Some(value)
      ensures memory == old(memory).(contracts := old(memory.contracts)[key := value])
      ensures transacted == old(transacted) && persisted == old(persisted)
    {
      prev := Get(memory.contracts, key);
      memory := memory.(contracts := memory.contracts[key := value]);
    }

    method RemoveContract(key: ContractId) returns (prev: Option<Contract>)
      modifies this
      ensures prev == old(GetContract(key)) && !ContainsContract(key)
      ensures memory == old(memory).(contracts := old(memory.contracts) - {key})
      ensures transacted == old(transacted) && persisted == old(persisted)
    {
      prev := Get(memory.contracts, key);
      memory := memory.(contracts := memory.contracts - {key});
    }

    // Code roots -------------------------------------------------------------

    function GetCodeRoot(key: ContractId): (r: Option<(Salt, Bytes32)>)
      reads this
      ensures r.Some? <==> key in memory.contractCodeRoot
      ensures r.Some? ==> r.value == memory.contractCodeRoot[key]
    {
      Get(memory.contractCodeRoot, key)
    }

    function ContainsCodeRoot(key: ContractId): (b: bool)
      reads this
      ensures b <==> GetCodeRoot(key).Some?
    {
      key in memory.contractCodeRoot
    }

    method InsertCodeRoot(key: ContractId, value: (Salt, Bytes32)) returns (prev: Option<(Salt, Bytes32)>)
      modifies this
      ensures prev == old(GetCodeRoot(key)) && GetCodeRoot(key) == Some(value)
      ensures memory == old(memory).(contractCodeRoot := old(memory.contractCodeRoot)[key := value])
      ensures transacted == old(transacted) && persisted == old(persisted)
    {
      prev := Get(memory.contractCodeRoot, key);
      memory := memory.(contractCodeRoot := memory.contractCodeRoot[key := value]);
    }

    method RemoveCodeRoot(key: ContractId) returns (prev: Option<(Salt, Bytes32)>)
      modifies this
      ensures prev == old(GetCodeRoot(key)) && !ContainsCodeRoot(key)
      ensures memory == old(memory).(contractCodeRoot := old(memory.contractCodeRoot) - {key})
      ensures transacted == old(transacted) && persisted == old(persisted)
    {
      prev := Get(memory.contractCodeRoot, key);
      memory := memory.(contractCodeRoot := memory.contractCodeRoot - {key});
    }

    // Balances ---------------------------------------------------------------

    function GetBalance(parent: ContractId, key: Color): (r: Option<Word>)
      reads this
      ensures r.Some? <==> (parent, key) in memory.balances
      ensures Balance(memory.balances, parent, key) == if r.Some? then r.value else 0
    {
      Get(memory.balances, (parent, key))
    }

    function ContainsBalance(parent: ContractId, key: Color): (b: bool)
      reads this
      ensures b <==> GetBalance(parent, key).Some?
    {
      (parent, key) in memory.balances
    }

    method InsertBalance(parent: ContractId, key: Color, value: Word) returns (prev: Option<Word>)
      modifies this
      ensures prev == old(GetBalance(parent, key)) && GetBalance(parent, key) == Some(value)
      ensures memory == old(memory).(balances := old(memory.balances)[(parent, key) := value])
      ensures transacted == old(transacted) && persisted == old(persisted)
    {
      prev := Get(memory.balances, (parent, key));
      memory := memory.(balances := memory.balances[(parent, key) := value]);
    }

    method RemoveBalance(parent: ContractId, key: Color) returns (prev: Option<Word>)
      modifies this
      ensures prev == old(GetBalance(parent, key)) && !ContainsBalance(parent, key)
      ensures memory == old(memory).(balances := old(memory.balances) - {(parent, key)})
      ensures transacted == old(transacted) && persisted == old(persisted)
    {
      prev := Get(memory.balances, (parent, key));
      memory := memory.(balances := memory.balances - {(parent, key)});
    }

    /** The balances root of `parent`. */
    function BalanceRoot(parent: ContractId, merkleRoot: seq<Bytes> -> Bytes32): Bytes32
      reads this
    {
      merkleRoot(BalanceLeaves(memory.balances, parent))
    }

    // Contract state ---------------------------------------------------------

    function GetState(parent: ContractId, key: Bytes32): (r: Option<Bytes32>)
      reads this
      ensures r.Some? <==> (parent, key) in memory.contractState
      ensures r.Some? ==> r.value == memory.contractState[(parent, key)]
    {
      Get(memory.contractState, (parent, key))
    }

    function ContainsState(parent: ContractId, key: Bytes32): (b: bool)
      reads this
      ensures b <==> GetState(parent, key).Some?
    {
      (parent, key) in memory.contractState
    }

    method InsertState(parent: ContractId, key: Bytes32, value: Bytes32) returns (prev: Option<Bytes32>)
      modifies this
      ensures prev == old(GetState(parent, key)) && GetState(parent, key) == Some(value)
      ensures memory == old(memory).(contractState := old(memory.contractState)[(parent, key) := value])
      ensures transacted == old(transacted) && persisted == old(persisted)
    {
      prev := Get(memory.contractState, (parent, key));
      memory := memory.(contractState := memory.contractState[(parent, key) := value]);
    }

    method RemoveState(parent: ContractId, key: Bytes32) returns (prev: Option<Bytes32>)
      modifies this
      ensures prev == old(GetState(parent, key)) && !ContainsState(parent, key)
      ensures memory == old(memory).(contractState := old(memory.contractState) - {(parent, key)})
      ensures transacted == old(transacted) && persisted == old(persisted)
    {
      prev := Get(memory.contractState, (parent, key));
      memory := memory.(contractState := memory.contractState - {(parent, key)});
    }

    /** The state root of `parent`. */
    function StateRoot(parent: ContractId, merkleRoot: seq<Bytes> -> Bytes32): Bytes32
      reads this
    {
      merkleRoot(EntriesOf(memory.contractState, parent))
    }

    /** `MemoryStorage::contract_state`: an absent key reads as all zeros. */
    function ContractState(contract: ContractId, key: Bytes32): (v: Bytes32)
      reads this
      ensures (contract, key) !in memory.contractState ==> v == Zeroed32()
      ensures GetState(contract, key).Some? ==> v == GetState(contract, key).value
    {
      match GetState(contract, key)
      case Some(v) => v
      case None => Zeroed32()
    }

    // InterpreterStorage -----------------------------------------------------

    function BlockHeight(): U32
      reads this
    {
      blockHeight
    }

    function Coinbase(): Address
      reads this
    {
      coinbase
    }
  }
}
