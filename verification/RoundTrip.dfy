/** Compressing and uncompressing give every text back. */
module RoundTrip {

  import opened Basics
  import opened BitStream
  import opened Lzw
  import opened Compress
  import opened Decompress

  /** One text through the compressor and the decompressor. */
  method Carry(z: Compressor, u: Decompressor, text: seq<byte>) returns (r: Outcome)
    requires z.Valid() && u.Valid() && z.bits == u.bits && u.offset >= u.size && !u.clearFlag
    requires {z, z.buf, z.htab, z.codetab} !! {u, u.buf, u.tabPrefix, u.tabSuffix, u.stack}
    modifies z, z.buf, z.htab, z.codetab, u, u.buf, u.tabPrefix, u.tabSuffix, u.stack
    ensures z.Valid() && u.Valid() && u.offset >= u.size && !u.clearFlag
    ensures r == Ok(text)
  {
    hide Uncompress;
    var from := |z.out|;
    z.Compress(text);
    r := u.UncompressFile(z.out[from..]);
  }

  /** One file after another through the same compressor and the same decompressor, which keep their tables and
      buffers from the file before. */
  method RoundTrips(bits: nat, maxBits: nat, block: bool, texts: seq<seq<byte>>) returns (back: seq<Outcome>)
    requires 12 <= bits <= 16 && INIT_BITS <= maxBits <= bits
    ensures |back| == |texts| && forall k: nat :: k < |texts| ==> back[k] == Ok(texts[k])
  {
    var z := new Compressor(bits, maxBits, block);
    var u := new Decompressor(bits);
    back := [];
    for k := 0 to |texts|
      invariant z.Valid() && z.bits == bits && fresh(z) && fresh(z.buf) && fresh(z.htab) && fresh(z.codetab)
      invariant u.Valid() && u.bits == bits && u.offset >= u.size && !u.clearFlag
      invariant fresh(u) && fresh(u.buf) && fresh(u.tabPrefix) && fresh(u.tabSuffix) && fresh(u.stack)
      invariant |back| == k && forall i: nat :: i < k ==> back[i] == Ok(texts[i])
    {
      var r := Carry(z, u, texts[k]);
      back := back + [r];
    }
  }
}
