/** Machine integers, byte strings and the big-endian integer codec that every
    other module builds on. */
module Bytes {

  type byte = x: int | 0 <= x < 0x100
  type u16 = x: int | 0 <= x < 0x1_0000
  type u32 = x: int | 0 <= x < 0x1_0000_0000
  type u64 = x: int | 0 <= x < 0x1_0000_0000_0000_0000

  const U64_LIMIT: nat := 0x1_0000_0000_0000_0000

  datatype Option<+T> = None | Some(value: T)

  function Min(a: nat, b: nat): nat {
    if a <= b then a else b
  }

  function CeilDiv(a: nat, b: nat): nat
    requires b > 0
  {
    (a + b - 1) / b
  }

  lemma Assoc(a: seq<byte>, b: seq<byte>, c: seq<byte>)
    ensures a + (b + c) == a + b + c
  {
  }

  lemma MoveBoundary(a: seq<byte>, b: seq<byte>, k: nat)
    requires k <= |b|
    ensures a + b == a + b[..k] + b[k..]
  {
  }

  lemma MoveHead(a: seq<byte>, b: seq<byte>, k: nat, c: seq<byte>)
    requires k <= |b|
    ensures a + (b + c) == a + b[..k] + (b[k..] + c)
  {
  }

  lemma Regroup(a: seq<byte>, b: seq<byte>, c: seq<byte>, d: seq<byte>)
    ensures a + (b + c + d) == a + b + (c + d)
  {
  }

  /** The bytes of a queue of byte strings, front first. */
  function Concat(parts: seq<seq<byte>>): seq<byte> {
    if parts == [] then [] else parts[0] + Concat(parts[1..])
  }

  lemma {:induction false} ConcatAppend(a: seq<seq<byte>>, b: seq<seq<byte>>)
    ensures Concat(a + b) == Concat(a) + Concat(b)
  {
    if a == [] {
      assert a + b == b;
    } else {
      assert (a + b)[1..] == a[1..] + b;
      ConcatAppend(a[1..], b);
    }
  }

  lemma ConcatSnoc(a: seq<seq<byte>>, s: seq<byte>)
    ensures Concat(a + [s]) == Concat(a) + s
  {
    ConcatAppend(a, [s]);
    assert Concat([s]) == s;
  }

  lemma {:induction false} NonEmptyConcat(a: seq<seq<byte>>)
    requires forall i :: 0 <= i < |a| ==> a[i] != []
    ensures |Concat(a)| >= |a|
  {
    if a != [] {
      NonEmptyConcat(a[1..]);
    }
  }

  // ---- big-endian integers ----

  function Pow256(n: nat): nat {
    if n == 0 then 1 else 256 * Pow256(n - 1)
  }

  lemma Pow256Values()
    ensures Pow256(2) == 0x1_0000
    ensures Pow256(4) == 0x1_0000_0000
    ensures Pow256(8) == U64_LIMIT
  {
  }

  /** The `n` low-order bytes of `v`, most significant first. */
  function ToBe(v: nat, n: nat): (s: seq<byte>)
    ensures |s| == n
  {
    if n == 0 then [] else ToBe(v / 256, n - 1) + [v % 256]
  }

  function FromBe(s: seq<byte>): nat {
    if s == [] then 0 else 256 * FromBe(s[..|s| - 1]) + s[|s| - 1]
  }

  lemma {:induction false} FromBeToBe(v: nat, n: nat)
    requires v < Pow256(n)
    ensures FromBe(ToBe(v, n)) == v
  {
    if n > 0 {
      FromBeToBe(v / 256, n - 1);
      assert ToBe(v, n)[..n - 1] == ToBe(v / 256, n - 1);
    }
  }

  lemma {:induction false} ToBeFromBe(s: seq<byte>)
    ensures FromBe(s) < Pow256(|s|)
    ensures ToBe(FromBe(s), |s|) == s
  {
    if s != [] {
      ToBeFromBe(s[..|s| - 1]);
      assert s == s[..|s| - 1] + [s[|s| - 1]];
    }
  }
}
