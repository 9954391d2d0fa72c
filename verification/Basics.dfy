/** Bytes, fixed-width integers and the sequence vocabulary shared by the other modules. */
module Basics {

  datatype Option<+T> = None | Some(value: T) {
    function GetOr(default: T): T {
      if Some? then value else default
    }
  }

  /** The source's `anyhow::Result`, with the error message replaced by an error kind. */
  datatype Result<+T, +E> = Ok(value: T) | Err(error: E) {
    predicate IsFailure() {
      Err?
    }

    function PropagateFailure<U>(): Result<U, E>
      requires Err?
    {
      Err(error)
    }

    function Extract(): T
      requires Ok?
    {
      value
    }
  }

  type byte = x: int | 0 <= x < 0x100
  type u16 = x: int | 0 <= x < 0x1_0000
  type u32 = x: int | 0 <= x < 0x1_0000_0000
  type bytes = seq<byte>

  const U32_MAX: u32 := 0xFFFF_FFFF

  function Min(a: int, b: int): int {
    if a <= b then a else b
  }

  function Last<T>(s: seq<T>): T
    requires s != []
  {
    s[|s| - 1]
  }

  // ---------------------------------------------------------------------------
  // Integers on the wire
  // ---------------------------------------------------------------------------

  /** `u16::to_le_bytes` */
  function U16Le(n: u16): bytes {
    [n % 0x100, n / 0x100]
  }

  /** `u16::from_le_bytes` */
  function FromU16Le(lo: byte, hi: byte): u16 {
    lo + 0x100 * hi
  }

  /** `u16::to_be_bytes` */
  function U16Be(n: u16): bytes {
    [n / 0x100, n % 0x100]
  }

  /** `u16::from_be_bytes` */
  function FromU16Be(hi: byte, lo: byte): u16 {
    0x100 * hi + lo
  }

  /** `u32::to_le_bytes` */
  function U32Le(n: u32): bytes {
    U16Le(n % 0x1_0000) + U16Le(n / 0x1_0000)
  }

  /** `u32::from_le_bytes` */
  function FromU32Le(b: bytes): u32
    requires |b| == 4
  {
    FromU16Le(b[0], b[1]) + 0x1_0000 * FromU16Le(b[2], b[3])
  }

  // ---------------------------------------------------------------------------
  // Sequences
  // ---------------------------------------------------------------------------

  function Flatten<T>(ss: seq<seq<T>>): seq<T> {
    if ss == [] then [] else ss[0] + Flatten(ss[1..])
  }

  lemma SliceOfSlice<T>(s: seq<T>, i: nat, j: nat, a: nat, b: nat)
    requires a <= b && i + b <= j <= |s|
    ensures s[i..j][a..b] == s[i + a..i + b]
  {
    var t := s[i..j];
    forall k | 0 <= k < b - a ensures t[a..b][k] == s[i + a..i + b][k] {
      assert t[a..b][k] == t[a + k] == s[i + (a + k)];
    }
  }

  /** The first position at or after `from` that holds `c`. */
  function IndexOf<T(==)>(s: seq<T>, c: T, from: nat): (r: Option<nat>)
    requires from <= |s|
    ensures r.Some? ==> from <= r.value < |s|
    decreases |s| - from
  {
    if from == |s| then None
    else if s[from] == c then Some(from)
    else IndexOf(s, c, from + 1)
  }

  /** It is the first one: nothing before it holds `c`. */
  lemma {:induction false} IndexOfSpec<T>(s: seq<T>, c: T, from: nat)
    requires from <= |s|
    ensures match IndexOf(s, c, from)
            case None => c !in s[from..]
            case Some(k) => s[k] == c && c !in s[from..k]
    decreases |s| - from
  {
    if from < |s| && s[from] != c {
      IndexOfSpec(s, c, from + 1);
      var end := match IndexOf(s, c, from + 1) case None => |s| case Some(k) => k;
      assert s[from..end] == [s[from]] + s[from + 1..end];
      assert s[from..|s|] == s[from..] && s[from + 1..|s|] == s[from + 1..];
    }
  }

  lemma {:induction false} IndexOfFirst<T>(s: seq<T>, c: T, from: nat, k: nat)
    requires from <= k < |s| && s[k] == c && c !in s[from..k]
    ensures IndexOf(s, c, from) == Some(k)
    decreases k - from
  {
    if from < k {
      assert s[from] in s[from..k];
      assert s[from..k] == [s[from]] + s[from + 1..k];
      IndexOfFirst(s, c, from + 1, k);
    }
  }

  lemma IndexOfAbsent<T>(s: seq<T>, c: T)
    requires c !in s
    ensures IndexOf(s, c, 0).None?
  {
    IndexOfSpec(s, c, 0);
    assert s[0..] == s;
  }

  /** The last position that holds `c`. */
  function LastIndexOf<T(==)>(s: seq<T>, c: T): (r: Option<nat>)
    ensures r.None? <==> c !in s
    ensures r.Some? ==> r.value < |s|
  {
    if s == [] then None
    else if Last(s) == c then Some(|s| - 1)
    else LastIndexOf(s[..|s| - 1], c)
  }

  /** `a` is `b` with some elements left out. */
  ghost predicate IsSubsequence<T>(a: seq<T>, b: seq<T>)
    decreases |b|
  {
    if a == [] then true
    else if b == [] then false
    else if Last(a) == Last(b) && IsSubsequence(a[..|a| - 1], b[..|b| - 1]) then true
    else IsSubsequence(a, b[..|b| - 1])
  }

  lemma SubsequenceSkip<T>(a: seq<T>, b: seq<T>, x: T)
    requires IsSubsequence(a, b)
    ensures IsSubsequence(a, b + [x])
  {
    assert (b + [x])[..|b|] == b;
  }

  lemma SubsequenceTake<T>(a: seq<T>, b: seq<T>, x: T)
    requires IsSubsequence(a, b)
    ensures IsSubsequence(a + [x], b + [x])
  {
    assert (a + [x])[..|a|] == a && (b + [x])[..|b|] == b;
  }
}
