/** Bytes, Python-style errors and the little helpers every codec module shares:
    little-endian integers, Python slice semantics and a read cursor over a file. */
module Bytes {

  type byte = x: int | 0 <= x < 256

  /** The Python exceptions the modelled code can raise. */
  datatype Error =
    | IndexError        // indexing past the end of a bytes object or a list
    | AssertionError    // a failed `assert`
    | ValueError        // tuple unpacking of a short read, an explicit `raise ValueError`
    | TypeError         // PIL's "too many data entries", indexing a non-container
    | AttributeError    // a method called on None or on a tuple
    | KeyError          // a missing dictionary key
    | OverflowError     // `int.to_bytes(2, ...)` of a value that does not fit
    | NotImplemented    // `raise Exception("Not implemented")`
    | EOFError          // `input()` after the end of the user's answers
    | JsonDecodeError   // `json.loads` of malformed text
    | FileNotFoundError // opening a file that does not exist
    | FileExistsError   // an explicit `raise FileExistsError`
    | BadZipFile        // opening data that is not a ZIP archive

  datatype Option<+T> = None | Some(value: T)

  datatype Result<+T> = Ok(value: T) | Err(error: Error) {
    predicate IsFailure() { Err? }
    function PropagateFailure<U>(): Result<U> requires Err? { Err(error) }
    function Extract(): T requires Ok? { value }
  }

  function Min(a: int, b: int): int { if a < b then a else b }

  /** Euclidean division is determined by quotient and remainder. */
  lemma DivModOf(a: int, d: int, q: int, m: int)
    requires d > 0 && 0 <= m < d && a == q * d + m
    ensures a / d == q && a % d == m
  {
    var k := q - a / d;
    assert k * d == a % d - m by {
      assert a == (a / d) * d + a % d;
      assert k * d == q * d - (a / d) * d;
    }
  }

  /** The two halves of a concatenation. */
  lemma ConcatParts(a: seq<byte>, b: seq<byte>)
    ensures (a + b)[..|a|] == a && (a + b)[|a|..] == b
  {
  }

  lemma SplitJoin(s: seq<byte>, i: nat)
    requires i <= |s|
    ensures s[..i] + s[i..] == s
  {
  }

  lemma SuffixOfSuffix(f: seq<byte>, pos: nat, k: nat)
    requires pos + k <= |f|
    ensures f[pos..][k..] == f[pos + k..]
  {
  }

  /** A slice of a suffix is a slice of the whole. */
  lemma SuffixSlice(f: seq<byte>, pos: nat, k: nat, n: nat)
    requires pos + k + n <= |f|
    ensures f[pos..][k..k + n] == f[pos + k..pos + k + n]
  {
  }

  function Zeros(n: nat): (z: seq<byte>)
    ensures |z| == n && forall k :: 0 <= k < n ==> z[k] == 0
  {
    seq(n, _ => 0)
  }

  function Repeat(v: byte, n: nat): (z: seq<byte>)
    ensures |z| == n && forall k :: 0 <= k < n ==> z[k] == v
  {
    seq(n, _ => v)
  }

  /** `x.to_bytes(2, byteorder="little")` for a value that fits. */
  function Le16(x: nat): (s: seq<byte>)
    requires x < 0x1_0000
    ensures |s| == 2 && s[0] as int + 256 * (s[1] as int) == x
  {
    [x % 256, x / 256]
  }

  /** `int.from_bytes(s, "little")`; the empty sequence is 0. */
  function FromLe(s: seq<byte>): nat
  {
    if s == [] then 0 else s[0] as int + 256 * FromLe(s[1..])
  }

  lemma FromLeOfLe16(x: nat)
    requires x < 0x1_0000
    ensures FromLe(Le16(x)) == x
  {
    var s := Le16(x);
    assert s[1..][1..] == [];
    assert FromLe(s[1..]) == s[1];
  }

  /** Python's `s[lo:hi]` for 0 <= lo <= hi: both ends are clamped to the length. */
  function Slice<T>(s: seq<T>, lo: nat, hi: nat): (r: seq<T>)
    requires lo <= hi
    ensures |r| == Min(hi, |s|) - Min(lo, |s|)
    ensures forall k :: 0 <= k < |r| ==> r[k] == s[lo + k]
  {
    s[Min(lo, |s|)..Min(hi, |s|)]
  }

  /** `f.read(n)` on a binary file positioned at `pos`: at most `n` bytes, fewer at the
      end of the file; the second component is the new position. */
  function Read(f: seq<byte>, pos: nat, n: nat): (r: (seq<byte>, nat))
    requires pos <= |f|
    ensures r.1 == pos + |r.0| <= |f|
    ensures |r.0| == Min(n, |f| - pos)
    ensures r.0 == f[pos..r.1]
  {
    var stop := Min(pos + n, |f|);
    (f[pos..stop], stop)
  }
}
