/** What the two models of the block cache of kernel/src/io/bcache.c share. */
module Blocks {
  type Data = seq<bv8>

  datatype BlockState = Reading | Writing | Ok | Error

  /** `data` with `bytes` written over it from `lo`. */
  function Splice(data: Data, lo: nat, bytes: Data): (r: Data)
    requires lo + |bytes| <= |data|
    ensures |r| == |data|
  {
    data[..lo] + bytes + data[lo + |bytes|..]
  }

  /** The bytes are where they were written, and all others as they were. */
  lemma SpliceBytes(data: Data, lo: nat, bytes: Data)
    requires lo + |bytes| <= |data|
    ensures
      var r := Splice(data, lo, bytes);
      r[lo..lo + |bytes|] == bytes && r[..lo] == data[..lo] && r[lo + |bytes|..] == data[lo + |bytes|..]
  {
  }
}
