/** The primitive values of the older interpreter API: bytes, 64-bit words
    and the fixed-width identifiers (`Bytes32`, `ContractId`, `Color`,
    `Salt`, `Address`), together with the byte-wise ordering that sorting
    such identifiers uses. */
module FuelTypes {
  import opened ByteOrder

  type Bytes = seq<Byte>

  const WORD_MAX: nat := 0xFFFF_FFFF_FFFF_FFFF

  /** A VM word: an unsigned 64-bit integer. */
  type Word = x: nat | x <= WORD_MAX

  /** A 32-byte value. Contract ids, colors, salts, addresses and storage
      keys and values are all of this shape. */
  type Bytes32 = b: Bytes | |b| == 32 witness seq(32, _ => 0 as Byte)
  type ContractId = Bytes32
  type Color = Bytes32
  type Salt = Bytes32
  type Address = Bytes32

  /** A 64-byte value: a signature or an uncompressed public key. */
  type Bytes64 = b: Bytes | |b| == 64 witness seq(64, _ => 0 as Byte)

  /** `Bytes32::zeroed()`. */
  function Zeroed32(): (z: Bytes32)
    ensures forall i :: 0 <= i < 32 ==> z[i] == 0
  {
    seq(32, _ => 0 as Byte)
  }

  /** The transaction validation errors the model reports. */
  datatype ValidationError =
    | TransactionCreateBytecodeWitnessIndex
    | TransactionScriptOutputContractCreated(index: nat)
    | OutputContractInputIndex(index: nat)

  /** `ExecuteError` of the interpreter: the variants its handlers return. */
  datatype ExecuteError =
    | MemoryOverflow
    | MemoryOwnership
    | Validation(error: ValidationError)

  // ---------------------------------------------------------------------------
  // Big-endian words
  // ---------------------------------------------------------------------------

  /** `Word::to_be_bytes`: eight bytes, most significant first. */
  function WordToBeBytes(w: Word): (r: Bytes)
    ensures |r| == 8
  {
    BeBytes(w, 8)
  }

  lemma WordFits()
    ensures Pow256(8) == WORD_MAX + 1
  {
  }

  /** `Word::from_be_bytes(w.to_be_bytes()) == w`. */
  lemma WordRoundTrip(w: Word)
    ensures BeValue(WordToBeBytes(w)) == w
  {
    WordFits();
    BeRoundTrip(w, 8);
  }

  // ---------------------------------------------------------------------------
  // Byte-wise ordering
  // ---------------------------------------------------------------------------

  /** The ordering of byte arrays and slices: the first differing byte
      decides, and a proper prefix comes first. */
  predicate LexLess(a: Bytes, b: Bytes)
    decreases |a|
  {
    |b| > 0 && (|a| == 0 || a[0] < b[0] || (a[0] == b[0] && LexLess(a[1..], b[1..])))
  }

  lemma {:induction false} LexIrreflexive(a: Bytes)
    ensures !LexLess(a, a)
    decreases |a|
  {
    if |a| > 0 {
      LexIrreflexive(a[1..]);
    }
  }

  lemma {:induction false} LexAsymmetric(a: Bytes, b: Bytes)
    requires LexLess(a, b)
    ensures !LexLess(b, a)
    decreases |a|
  {
    if |a| > 0 && a[0] == b[0] {
      LexAsymmetric(a[1..], b[1..]);
    }
  }

  lemma {:induction false} LexTransitive(a: Bytes, b: Bytes, c: Bytes)
    requires LexLess(a, b) && LexLess(b, c)
    ensures LexLess(a, c)
    decreases |a|
  {
    if |a| > 0 && a[0] == b[0] && b[0] == c[0] {
      LexTransitive(a[1..], b[1..], c[1..]);
    }
  }

  lemma {:induction false} LexTotal(a: Bytes, b: Bytes)
    requires a != b
    ensures LexLess(a, b) || LexLess(b, a)
    decreases |a|
  {
    if |a| > 0 && |b| > 0 && a[0] == b[0] {
      LexTotal(a[1..], b[1..]);
    }
  }

  /** `k` is the least element of `s`. */
  predicate IsLeast(k: Bytes32, s: set<Bytes32>)
  {
    k in s && forall x :: x in s && x != k ==> LexLess(k, x)
  }

  lemma {:induction false} LeastExists(s: set<Bytes32>)
    requires s != {}
    ensures exists k: Bytes32 :: IsLeast(k, s)
    decreases |s|
  {
    var x :| x in s;
    if s == {x} {
      assert IsLeast(x, s);
    } else {
      LeastExists(s - {x});
      var m: Bytes32 :| IsLeast(m, s - {x});
      if LexLess(m, x) {
        assert IsLeast(m, s);
      } else {
        LexTotal(m, x);
        forall y | y in s && y != x
          ensures LexLess(x, y)
        {
          if y != m {
            LexTransitive(x, m, y);
          }
        }
        assert IsLeast(x, s);
      }
    }
  }

  lemma LeastUnique(a: Bytes32, b: Bytes32, s: set<Bytes32>)
    requires IsLeast(a, s) && IsLeast(b, s)
    ensures a == b
  {
    if a != b {
      LexAsymmetric(a, b);
    }
  }

  lemma LeastUniqueAll(s: set<Bytes32>)
    ensures forall a, b :: IsLeast(a, s) && IsLeast(b, s) ==> a == b
  {
    forall a, b | IsLeast(a, s) && IsLeast(b, s)
      ensures a == b
    {
      LeastUnique(a, b, s);
    }
  }

  function Least(s: set<Bytes32>): (m: Bytes32)
    requires s != {}
    ensures IsLeast(m, s)
  {
    LeastExists(s);
    LeastUniqueAll(s);
    var m: Bytes32 :| IsLeast(m, s);
    m
  }

  /** The elements of `s` in ascending order, as `sorted_by_key` lists them. */
  function SortedKeys(s: set<Bytes32>): (r: seq<Bytes32>)
    ensures |r| == |s|
    ensures forall k :: k in s <==> k in r
    ensures forall i, j :: 0 <= i < j < |r| ==> LexLess(r[i], r[j])
    decreases |s|
  {
    if s == {} then []
    else
      var m := Least(s);
      var rest := SortedKeys(s - {m});
      var r := [m] + rest;
      assert forall i, j :: 0 <= i < j < |r| ==> LexLess(r[i], r[j]) by {
        forall i, j | 0 <= i < j < |r|
          ensures LexLess(r[i], r[j])
        {
          assert r[j] == rest[j - 1];
          if i > 0 {
            assert r[i] == rest[i - 1];
          } else {
            assert rest[j - 1] in s - {m};
          }
        }
      }
      r
  }

  /** A set has exactly one ascending listing. */
  lemma {:induction false} SortedUnique(s: set<Bytes32>, r: seq<Bytes32>)
    requires |r| == |s| && (forall k :: k in s <==> k in r)
    requires forall i, j :: 0 <= i < j < |r| ==> LexLess(r[i], r[j])
    ensures r == SortedKeys(s)
    decreases |s|
  {
    if s != {} {
      var m := r[0];
      var rest := r[1..];
      AscendingHeadLeast(s, r);
      AscendingTail(s, r);
      SortedUnique(s - {m}, rest);
      SortedKeysCons(s, r);
    }
  }

  lemma SortedKeysCons(s: set<Bytes32>, r: seq<Bytes32>)
    requires |r| > 0 && IsLeast(r[0], s) && r[1..] == SortedKeys(s - {r[0]})
    ensures r == SortedKeys(s)
  {
    LeastUnique(r[0], Least(s), s);
    assert r == [r[0]] + r[1..];
  }

  /** The head of an ascending listing of a set is its least element. */
  lemma AscendingHeadLeast(s: set<Bytes32>, r: seq<Bytes32>)
    requires |r| > 0 && (forall k :: k in s <==> k in r)
    requires forall i, j :: 0 <= i < j < |r| ==> LexLess(r[i], r[j])
    ensures IsLeast(r[0], s)
  {
    forall x | x in s && x != r[0]
      ensures LexLess(r[0], x)
    {
      var j :| 0 <= j < |r| && r[j] == x;
    }
  }

  /** Dropping the head of an ascending listing lists the rest of the set. */
  lemma AscendingTail(s: set<Bytes32>, r: seq<Bytes32>)
    requires |r| > 0 && |r| == |s| && (forall k :: k in s <==> k in r)
    requires forall i, j :: 0 <= i < j < |r| ==> LexLess(r[i], r[j])
    ensures |r[1..]| == |s - {r[0]}|
    ensures forall k :: k in s - {r[0]} <==> k in r[1..]
    ensures forall i, j :: 0 <= i < j < |r[1..]| ==> LexLess(r[1..][i], r[1..][j])
  {
    var m, rest := r[0], r[1..];
    forall k
      ensures k in s - {m} <==> k in rest
    {
      if k in rest {
        var j :| 0 <= j < |rest| && rest[j] == k;
        assert r[j + 1] == k;
        LexIrreflexive(m);
      }
    }
    assert m in s;
  }
}
