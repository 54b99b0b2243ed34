/** Shared vocabulary: outcomes, bytes and big-endian integers. */
module Basics {

  datatype Option<+T> = None | Some(value: T)

  datatype Result<+T, +E> = Ok(value: T) | Err(error: E) {
    predicate IsFailure() {
      Err?
    }
    function PropagateFailure<U>(): Result<U, E>
      requires Err?
    {
      Err(error)
    }
    function Extract(): T
      requires Ok?
    {
      value
    }
  }

  /** What is left when a step may fail: its result, or what there was before. */
  function OrElse<T, E>(before: T, r: Result<T, E>): (after: T) {
    if r.Ok? then r.value else before
  }

  /** What a dictionary holds under a key, as `get` has it. */
  function Lookup<K, V>(m: map<K, V>, k: K): (r: Option<V>) {
    if k in m then Some(m[k]) else None
  }

  function One(b: bool): (n: nat) {
    if b then 1 else 0
  }

  lemma RemovedSmaller<K, V>(m: map<K, V>, k: K)
    requires k in m
    ensures |m - {k}| == |m| - 1
  {
    assert (m - {k}).Keys == m.Keys - {k};
    assert |m.Keys - {k}| == |m.Keys| - 1;
  }

  newtype Byte = n: int | 0 <= n < 256
  type Bytes = seq<Byte>

  /** A 32-byte digest such as SHA-256; every result holds for any such function. */
  type Hash = h: Bytes -> Bytes | forall b :: |h(b)| == 32 ghost witness ((b: Bytes) => Zeros(32))

  lemma MulKeepsOrder(b: int, p: int, q: int)
    requires b >= 0 && p <= q
    ensures b * p <= b * q
  {
    assert 0 <= b * (q - p) == b * q - b * p;
  }

  lemma QuotientShrinks(a: int, b: int)
    requires a >= 0 && b > 0
    ensures 0 <= a / b <= a
  {
    var q, r := a / b, a % b;
    assert a == b * q + r;
    if q < 0 {
      MulKeepsOrder(b, q, -1);
    } else {
      MulKeepsOrder(q, 1, b);
    }
  }

  function Zeros(n: nat): (z: Bytes)
    ensures |z| == n && forall i :: 0 <= i < n ==> z[i] == 0
  {
    seq(n, i => 0)
  }

  function Pow256(w: nat): (p: nat)
    ensures p >= 1
  {
    if w == 0 then 1 else 256 * Pow256(w - 1)
  }

  const U16 := 0x1_0000
  const U32 := 0x1_0000_0000
  const U64 := 0x1_0000_0000_0000_0000

  lemma {:induction false} WordSizes()
    ensures Pow256(0) == 1 && Pow256(1) == 256 && Pow256(2) == U16
    ensures Pow256(4) == U32 && Pow256(8) == U64
  {
    assert Pow256(2) == 256 * Pow256(1);
    assert Pow256(3) == 256 * Pow256(2);
    assert Pow256(4) == 256 * Pow256(3);
    assert Pow256(5) == 256 * Pow256(4);
    assert Pow256(6) == 256 * Pow256(5);
    assert Pow256(7) == 256 * Pow256(6);
    assert Pow256(8) == 256 * Pow256(7);
  }

  /** `n.to_bytes(w, "big")`, the field layout `struct` uses for ">B", ">H", ">I" and ">Q". */
  function ToBytes(n: nat, w: nat): (s: Bytes)
    ensures |s| == w
  {
    if w == 0 then [] else ToBytes(n / 256, w - 1) + [(n % 256) as Byte]
  }

  /** `int.from_bytes(s, "big")`. */
  function FromBytes(s: Bytes): (n: nat)
  {
    if |s| == 0 then 0 else 256 * FromBytes(s[..|s| - 1]) + s[|s| - 1] as int
  }

  /** Packing then unpacking a word that fits its width is the identity. */
  lemma {:induction false} UnpackPacked(n: nat, w: nat)
    requires n < Pow256(w)
    ensures FromBytes(ToBytes(n, w)) == n
  {
    if w > 0 {
      var s := ToBytes(n, w);
      assert s[..|s| - 1] == ToBytes(n / 256, w - 1);
      UnpackPacked(n / 256, w - 1);
    }
  }

  /** Unpacking then packing at the same width is the identity, and the value fits the width. */
  lemma {:induction false} PackUnpacked(s: Bytes)
    ensures FromBytes(s) < Pow256(|s|)
    ensures ToBytes(FromBytes(s), |s|) == s
  {
    if |s| > 0 {
      PackUnpacked(s[..|s| - 1]);
      assert s == s[..|s| - 1] + [s[|s| - 1]];
    }
  }

  /** The shortest big-endian form, `n.to_bytes((n.bit_length() + 7) // 8, "big")`; empty for zero. */
  function Shortest(n: nat): (s: Bytes)
  {
    if n == 0 then [] else Shortest(n / 256) + [(n % 256) as Byte]
  }

  predicate NoLeadingZero(s: Bytes) {
    |s| == 0 || s[0] != 0
  }

  lemma {:induction false} ShortestReads(n: nat)
    ensures FromBytes(Shortest(n)) == n && NoLeadingZero(Shortest(n))
  {
    if n > 0 {
      ShortestReads(n / 256);
      var s := Shortest(n);
      assert s[..|s| - 1] == Shortest(n / 256);
    }
  }

  /** Among all spellings of a number, `Shortest` is never longer and is the only one
      without a leading zero. */
  lemma {:induction false} ShortestIsLeast(s: Bytes)
    ensures |Shortest(FromBytes(s))| <= |s|
    ensures NoLeadingZero(s) <==> Shortest(FromBytes(s)) == s
  {
    ShortestReads(FromBytes(s));
    if |s| > 0 {
      var init := s[..|s| - 1];
      ShortestIsLeast(init);
      assert s == init + [s[|s| - 1]];
      if |init| > 0 {
        assert init[0] == s[0];
        if s[0] != 0 {
          LeadingDigit(init);
        }
      }
    }
  }

  lemma {:induction false} LeadingDigit(s: Bytes)
    requires |s| > 0 && s[0] != 0
    ensures FromBytes(s) > 0
  {
    if |s| > 1 {
      LeadingDigit(s[..|s| - 1]);
    }
  }

  // ---------------------------------------------------------------- byte buffers

  /** `raw[off : off + len(data)] = data`. */
  function Splice(raw: Bytes, off: nat, data: Bytes): (s: Bytes)
    requires off + |data| <= |raw|
    ensures |s| == |raw|
  {
    raw[..off] + data + raw[off + |data|..]
  }

  /** The big-endian unsigned field of `w` bytes at `off`. */
  function Field(raw: Bytes, off: nat, w: nat): (n: nat)
    requires off + w <= |raw|
  {
    FromBytes(raw[off..off + w])
  }

  lemma SpliceKeeps(raw: Bytes, off: nat, data: Bytes, a: nat, b: nat)
    requires off + |data| <= |raw| && a <= b <= |raw| && (b <= off || off + |data| <= a)
    ensures Splice(raw, off, data)[a..b] == raw[a..b]
  {
    forall i | a <= i < b ensures Splice(raw, off, data)[i] == raw[i] {
    }
  }

  lemma SpliceSets(raw: Bytes, off: nat, data: Bytes)
    requires off + |data| <= |raw|
    ensures Splice(raw, off, data)[off..off + |data|] == data
  {
  }
}
