/** Big-endian byte strings (`from_be_bytes` / `to_be_bytes`), the encoding
    of integer property values in a flattened device tree. */
module BigEndian {
  import opened Machine

  /** 256 to the power `n`: the number of values `n` bytes can hold. */
  function Pow256(n: nat): (r: nat)
    ensures r > 0
  {
    if n == 0 then 1 else 256 * Pow256(n - 1)
  }

  /** The unsigned integer whose big-endian encoding is `bytes`: the first
      byte is the most significant. */
  function FromBeBytes(bytes: seq<u8>): (r: nat)
    ensures r < Pow256(|bytes|)
  {
    if bytes == [] then 0
    else
      var init := bytes[..|bytes| - 1];
      var high := FromBeBytes(init);
      assert high * 256 <= (Pow256(|init|) - 1) * 256;
      high * 256 + bytes[|bytes| - 1] as nat
  }

  /** The `n`-byte big-endian encoding of `v`. */
  function ToBeBytes(v: nat, n: nat): (r: seq<u8>)
    requires v < Pow256(n)
    ensures |r| == n
  {
    if n == 0 then [] else ToBeBytes(v / 256, n - 1) + [(v % 256) as u8]
  }

  /** Decoding an encoding gives back the encoded value. */
  lemma {:induction false} FromToBeBytes(v: nat, n: nat)
    requires v < Pow256(n)
    ensures FromBeBytes(ToBeBytes(v, n)) == v
  {
    if n > 0 {
      var bytes := ToBeBytes(v, n);
      assert bytes[..n - 1] == ToBeBytes(v / 256, n - 1);
      FromToBeBytes(v / 256, n - 1);
    }
  }

  /** Encoding a decoded value at the same width gives back the bytes, so a
      byte string is determined by the value it encodes. */
  lemma {:induction false} ToFromBeBytes(bytes: seq<u8>)
    ensures ToBeBytes(FromBeBytes(bytes), |bytes|) == bytes
  {
    if bytes != [] {
      var n := |bytes|;
      var init := bytes[..n - 1];
      var v := FromBeBytes(bytes);
      assert v / 256 == FromBeBytes(init) && v % 256 == bytes[n - 1] as nat;
      ToFromBeBytes(init);
      assert bytes == init + [bytes[n - 1]];
    }
  }
}
