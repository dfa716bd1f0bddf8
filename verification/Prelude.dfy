/** Datatypes and small functions shared by the other modules. */
module Prelude {

  datatype Option<+T> = None | Some(value: T)

  datatype Result<+T, +E> = Ok(value: T) | Err(error: E) {
    predicate IsFailure() {
      Err?
    }

    function PropagateFailure<U>(): Result<U, E>
      requires Err?
    {
      Err(error)
    }

    function Extract(): T
      requires Ok?
    {
      value
    }
  }

  newtype byte = x: int | 0 <= x < 256

  /** 2^32 and 2^64, the ranges of the source's u32 and u64. */
  const U32_RANGE: nat := 0x1_0000_0000
  const U64_RANGE: nat := 0x1_0000_0000_0000_0000

  type u32 = n: nat | n < U32_RANGE

  /** Multiples of 8, counted down so that proofs about offsets need no division. */
  predicate Aligned(n: nat) {
    n == 0 || (n >= 8 && Aligned(n - 8))
  }

  lemma {:induction false} AlignedIff(n: nat)
    ensures Aligned(n) <==> n % 8 == 0
  {
    if n >= 8 {
      AlignedIff(n - 8);
    }
  }

  lemma {:induction false} AlignedSum(a: nat, b: nat)
    requires Aligned(a) && Aligned(b)
    ensures Aligned(a + b)
  {
    if b > 0 {
      AlignedSum(a, b - 8);
    }
  }

  lemma {:induction false} AlignedGap(a: nat, b: nat)
    requires Aligned(a) && Aligned(b) && a < b
    ensures a + 8 <= b
  {
    if a > 0 {
      AlignedGap(a - 8, b - 8);
    }
  }

  /** The least multiple of 8 that is not below `n`: the alignment of every arena entry. */
  function AlignUp(n: nat): (r: nat)
    ensures Aligned(r) && n <= r < n + 8
  {
    if n == 0 then 0 else if n <= 8 then 8 else 8 + AlignUp(n - 8)
  }

  /** The program's formula, (n + 7) & !7, in unbounded arithmetic. */
  function RoundUp8(n: nat): (r: nat)
    ensures r == AlignUp(n)
  {
    AlignedIff(AlignUp(n));
    (n + 7) / 8 * 8
  }

  /** Rounding up in 32-bit arithmetic: a sum past 2^32 starts again at 0, which leaves less than 8, and so nothing. */
  function AlignSize(size: u32): (r: nat)
    ensures Aligned(r)
  {
    if size + 7 < U32_RANGE then AlignUp(size) else 0
  }

  /** The program's formula, (size + 7) & !7, with the sum cut to 32 bits. */
  function RoundUp8In32(size: u32): (r: nat)
    ensures r == AlignSize(size)
  {
    assert size + 7 < U32_RANGE ==> (size + 7) % U32_RANGE == size + 7;
    assert size + 7 < U32_RANGE ==> RoundUp8(size) == AlignUp(size);
    assert size + 7 >= U32_RANGE ==> (size + 7) % U32_RANGE == size + 7 - U32_RANGE < 8;
    (size + 7) % U32_RANGE / 8 * 8
  }

  /** It rounds up for every size but the seven largest. */
  lemma AlignSizeIff(size: u32)
    ensures AlignSize(size) == AlignUp(size) <==> size + 7 < U32_RANGE
  {
  }

  /** Rounding up stays below any aligned bound, and does nothing to an aligned number. */
  lemma {:induction false} AlignUpLeast(n: nat, bound: nat)
    requires Aligned(bound) && n <= bound
    ensures AlignUp(n) <= bound
    ensures Aligned(n) ==> AlignUp(n) == n
  {
    if bound < AlignUp(n) {
      AlignedGap(bound, AlignUp(n));
    }
    if Aligned(n) && n < AlignUp(n) {
      AlignedGap(n, AlignUp(n));
    }
  }

  ghost predicate StrictlyIncreasing(s: seq<nat>) {
    forall i, j :: 0 <= i < j < |s| ==> s[i] < s[j]
  }

  ghost predicate IsLeast(m: nat, s: set<nat>) {
    m in s && forall x :: x in s ==> m <= x
  }

  lemma MinExists(s: set<nat>)
    requires s != {}
    ensures exists m :: IsLeast(m, s)
  {
    var k :| k in s;
    var rest := s - {k};
    assert forall x :: x in s ==> x == k || x in rest;
    if rest == {} {
      assert IsLeast(k, s);
    } else {
      MinExists(rest);
      var m :| IsLeast(m, rest);
      assert IsLeast(if k < m then k else m, s);
    }
  }

  function Least(s: set<nat>): (m: nat)
    requires s != {}
    ensures IsLeast(m, s)
  {
    MinExists(s);
    var m :| m in s && forall x :: x in s ==> m <= x;
    m
  }

  /** The elements of a set in ascending order. */
  function Ascending(s: set<nat>): (r: seq<nat>)
    ensures |r| == |s|
    ensures forall i :: 0 <= i < |r| ==> r[i] in s
  {
    if s == {} then [] else [Least(s)] + Ascending(s - {Least(s)})
  }

  /** Ascending is sorted and leaves nothing out. */
  lemma {:induction false} AscendingSorted(s: set<nat>)
    ensures StrictlyIncreasing(Ascending(s))
    ensures forall x :: x in s ==> x in Ascending(s)
  {
    if s != {} {
      var m := Least(s);
      var rest := Ascending(s - {m});
      AscendingSorted(s - {m});
      assert forall x :: x in s ==> x == m || x in s - {m};
      forall i | 0 <= i < |rest| ensures m < rest[i] {
        assert rest[i] in s - {m};
      }
    }
  }

  function Reverse<T>(s: seq<T>): (r: seq<T>)
    ensures |r| == |s|
    ensures forall i :: 0 <= i < |s| ==> r[i] == s[|s| - 1 - i]
  {
    if s == [] then [] else [s[|s| - 1]] + Reverse(s[..|s| - 1])
  }

  lemma {:induction false} ReversePermutes<T>(s: seq<T>)
    ensures multiset(Reverse(s)) == multiset(s)
  {
    if s != [] {
      ReversePermutes(s[..|s| - 1]);
      assert s == s[..|s| - 1] + [s[|s| - 1]];
    }
  }
}
