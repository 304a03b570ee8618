/** A disk image behind C's stdio, as the block devices use it; host I/O itself succeeds. */
module DiskFile {
  import opened Bytes

  /** What `fread` of `n` bytes at `off` delivers. */
  function FileRead(disk: seq<u8>, off: nat, n: nat): (r: seq<u8>)
    ensures |r| <= n
    ensures |r| == n <==> n == 0 || off + n <= |disk|
  {
    if off >= |disk| then [] else if off + n <= |disk| then disk[off..off + n] else disk[off..]
  }

  /** `fwrite` at `off`: a write past the end leaves a gap of zeros. */
  function FileWrite(disk: seq<u8>, off: nat, bs: seq<u8>): (r: seq<u8>)
    ensures off + |bs| <= |disk| ==> r == Blit(disk, off, bs)
    ensures bs != [] ==> At(r, off, bs)
  {
    if bs == [] then disk
    else
      var d := if |disk| < off + |bs| then disk + Zeros(off + |bs| - |disk|) else disk;
      Blit(d, off, bs)
  }

  /** A read delivers the image's bytes from its offset on, as many as there are. */
  lemma ReadsImage(disk: seq<u8>, off: nat, n: nat)
    ensures var r := FileRead(disk, off, n);
            && |r| == (if off + n <= |disk| then n else if off <= |disk| then |disk| - off else 0)
            && forall i :: 0 <= i < |r| ==> r[i] == disk[off + i]
  {
  }

  /** A write past the end grows the image to its own end and leaves zeros in the gap. */
  lemma WriteGrows(disk: seq<u8>, off: nat, bs: seq<u8>)
    requires bs != []
    ensures var r := FileWrite(disk, off, bs);
            && |r| == (if off + |bs| <= |disk| then |disk| else off + |bs|)
            && forall i :: |disk| <= i < off ==> r[i] == 0
  {
  }

  /** What was written is what is read at the same place. */
  lemma ReadBack(disk: seq<u8>, off: nat, bs: seq<u8>)
    ensures FileRead(FileWrite(disk, off, bs), off, |bs|) == bs
  {
  }

  /** A write never shrinks the image and changes no byte of it outside its own range. */
  lemma WriteKeeps(disk: seq<u8>, off: nat, bs: seq<u8>, lo: nat, n: nat)
    requires lo + n <= |disk| && Apart(off, |bs|, lo, n)
    ensures |FileWrite(disk, off, bs)| >= |disk|
    ensures FileWrite(disk, off, bs)[lo..lo + n] == disk[lo..lo + n]
  {
    hide Blit;
    if bs != [] {
      var d := if |disk| < off + |bs| then disk + Zeros(off + |bs| - |disk|) else disk;
      BlitKeeps(d, off, bs, lo, n);
      assert d[lo..lo + n] == disk[lo..lo + n];
    }
  }

  /** `fseek` to an unsigned 64-bit offset fails when that is negative as a `long`. */
  predicate CanSeek(off: u64) {
    (off as int) < TWO63
  }
}
