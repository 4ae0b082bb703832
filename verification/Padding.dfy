/**
 * PKCS#7 padding as in section 6.3 of RFC 5652, and its removal by unpadPKCS7.
 */
module Padding {
  import opened Prelude

  function Repeat(b: byte, n: nat): (r: seq<byte>)
    ensures |r| == n && forall i :: 0 <= i < n ==> r[i] == b
  {
    seq(n, i => b)
  }

  /** The padding that the standard defines, for blocks of 1 to 255 bytes. */
  function Pad(data: seq<byte>, blockSize: nat): seq<byte>
    requires 1 <= blockSize <= 255
  {
    var n := blockSize - |data| % blockSize;
    data + Repeat(n as byte, n)
  }

  /** The guards of unpadPKCS7, one after the other. */
  predicate Accepts(src: seq<byte>, blockSize: nat)
    requires blockSize > 0
  {
    && |src| > 0 && |src| % blockSize == 0
    && var n := src[|src| - 1] as nat;
       0 < n <= blockSize && n <= |src| && forall i :: |src| - n <= i < |src| ==> src[i] as nat == n
  }

  function Unpad(src: seq<byte>, blockSize: nat): Option<seq<byte>>
    requires blockSize > 0
  {
    if Accepts(src, blockSize) then Some(src[..|src| - src[|src| - 1] as nat]) else None
  }

  method UnpadPKCS7(src: seq<byte>, blockSize: nat) returns (data: Option<seq<byte>>)
    requires blockSize > 0
    ensures data == Unpad(src, blockSize)
  {
    if |src| == 0 || |src| % blockSize != 0 {
      return None;
    }
    var paddingLength := src[|src| - 1] as nat;
    if paddingLength == 0 || paddingLength > blockSize || paddingLength > |src| {
      return None;
    }
    for i := |src| - paddingLength to |src|
      invariant forall j :: |src| - paddingLength <= j < i ==> src[j] as nat == paddingLength
    {
      if src[i] as nat != paddingLength {
        return None;
      }
    }
    data := Some(src[..|src| - paddingLength]);
  }

  /** Two multiples of the block size cannot be less than a block apart. */
  lemma WholeBlocks(length: nat, n: nat, blockSize: nat)
    requires 0 < n <= blockSize && (length + n) % blockSize == 0
    ensures n == blockSize - length % blockSize
  {
    var q, r := length / blockSize, length % blockSize;
    assert length == blockSize * q + r;
    var t := (length + n) / blockSize;
    assert length + n == blockSize * t;
    assert r + n == blockSize * (t - q);
    MultipleBelowTwo(t - q, blockSize, r + n);
  }

  lemma MultipleBelowTwo(k: int, blockSize: nat, m: nat)
    requires m == blockSize * k && 0 < m < 2 * blockSize
    ensures m == blockSize
  {
    assert k >= 2 ==> blockSize * k >= blockSize * 2;
    assert k <= 0 ==> blockSize * k <= 0;
  }

  lemma PaddedIsWhole(data: seq<byte>, blockSize: nat)
    requires 1 <= blockSize <= 255
    ensures |Pad(data, blockSize)| % blockSize == 0
  {
    var q, r := |data| / blockSize, |data| % blockSize;
    assert |Pad(data, blockSize)| == blockSize * q + blockSize == blockSize * (q + 1);
    Multiple(q + 1, blockSize);
  }

  lemma Multiple(k: nat, n: nat)
    requires n > 0
    ensures n * k % n == 0
  {
    var q, r := n * k / n, n * k % n;
    assert n * (k - q) == r;
    if r > 0 {
      MultipleBelowTwo(k - q, n, r);
    }
  }

  /** unpadPKCS7 accepts exactly the padded messages, and takes exactly the padding away. */
  lemma UnpadInvertsPad(src: seq<byte>, data: seq<byte>, blockSize: nat)
    requires 1 <= blockSize <= 255
    ensures Unpad(src, blockSize) == Some(data) <==> src == Pad(data, blockSize)
  {
    if src == Pad(data, blockSize) {
      PaddedIsWhole(data, blockSize);
      var n := blockSize - |data| % blockSize;
      assert src[|src| - 1] as nat == n;
      assert src[..|data|] == data;
    }
    if Unpad(src, blockSize) == Some(data) {
      var n := src[|src| - 1] as nat;
      WholeBlocks(|data|, n, blockSize);
      assert src[|data|..] == Repeat(n as byte, n);
      assert src == src[..|data|] + src[|data|..];
    }
  }
}
