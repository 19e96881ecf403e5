/** Types and small functions shared by the modules of the project. */
module Common {
  /** One byte, as the source's `u8`. */
  type byte = b: int | 0 <= b < 256

  datatype Option<+T> = None | Some(value: T)

  datatype Result<+T, +E> = Ok(value: T) | Err(error: E)

  /** The first value above the source's `u64` (and 64-bit `usize`) range. */
  const U64_BOUND: nat := 0x1_0000_0000_0000_0000

  type u64 = x: nat | x < U64_BOUND

  /** The sum of the first `k` numbers. */
  function PrefixSum(counts: seq<nat>, k: nat): nat
    requires k <= |counts|
  {
    if k == 0 then 0 else PrefixSum(counts, k - 1) + counts[k - 1]
  }

  lemma {:induction false} PrefixSumMonotone(counts: seq<nat>, j: nat, k: nat)
    requires j <= k <= |counts|
    ensures PrefixSum(counts, j) <= PrefixSum(counts, k)
  {
    if j < k {
      PrefixSumMonotone(counts, j, k - 1);
    }
  }

  /** One byte, `n` times. */
  function Repeat(b: byte, n: nat): (r: seq<byte>)
    ensures |r| == n
  {
    seq(n, _ => b)
  }

  function Zeros(n: nat): (z: seq<nat>)
    ensures |z| == n
  {
    seq(n, _ => 0)
  }

  /** Lists put together in order. */
  function Concat<T>(parts: seq<seq<T>>): seq<T> {
    if parts == [] then [] else Concat(parts[..|parts| - 1]) + parts[|parts| - 1]
  }

  lemma {:induction false} ConcatAppend<T>(a: seq<seq<T>>, b: seq<seq<T>>)
    ensures Concat(a + b) == Concat(a) + Concat(b)
  {
    if b == [] {
      assert a + b == a;
    } else {
      assert (a + b)[..|a + b| - 1] == a + b[..|b| - 1];
      ConcatAppend(a, b[..|b| - 1]);
    }
  }

  lemma ConcatOne<T>(part: seq<T>)
    ensures Concat([part]) == part
  {
    assert Concat<T>([]) == [] && [part][..0] == [];
  }

  /** What the first of several lists adds. */
  lemma ConcatFirst<T>(parts: seq<seq<T>>)
    requires parts != []
    ensures Concat(parts) == parts[0] + Concat(parts[1..])
  {
    assert parts == [parts[0]] + parts[1..];
    ConcatAppend([parts[0]], parts[1..]);
    ConcatOne(parts[0]);
  }

  /** Numbers added up. */
  function SumOf(counts: seq<nat>): nat {
    if counts == [] then 0 else SumOf(counts[..|counts| - 1]) + counts[|counts| - 1]
  }

  lemma {:induction false} SumOfAppend(a: seq<nat>, b: seq<nat>)
    ensures SumOf(a + b) == SumOf(a) + SumOf(b)
  {
    if b == [] {
      assert a + b == a;
    } else {
      assert (a + b)[..|a + b| - 1] == a + b[..|b| - 1];
      SumOfAppend(a, b[..|b| - 1]);
    }
  }

  lemma SumOfFirst(counts: seq<nat>)
    requires counts != []
    ensures SumOf(counts) == counts[0] + SumOf(counts[1..])
  {
    assert counts == [counts[0]] + counts[1..];
    SumOfAppend([counts[0]], counts[1..]);
    assert [counts[0]][..0] == [] && SumOf([counts[0]]) == counts[0];
  }
}
