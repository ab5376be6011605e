/** The part of the file interface that the file batches use. Reads and writes may be short;
    on a faulty disk a write may also fail. Files are named by their batch id. */
module Posix {
  import opened Common
  import opened Records

  function Hole(n: nat): (h: Bytes)
    ensures |h| == n
  {
    seq(n, _ => 0)
  }

  /** The contents after writing `d` at `off`; a gap beyond the end reads as zeros. */
  function Overwrite(c: Bytes, off: nat, d: Bytes): Bytes {
    if |c| <= off then c + Hole(off - |c|) + d
    else c[..off] + d + if off + |d| <= |c| then c[off + |d|..] else []
  }

  class Disk {
    var files: map<nat, Bytes>
    const faulty: bool

    constructor (faulty: bool)
      ensures files == map[] && this.faulty == faulty
    {
      this.faulty := faulty;
      files := map[];
    }

    /** read(2) at an offset: some bytes unless the end is reached. */
    method Read(path: nat, offset: nat, limit: nat) returns (chunk: Bytes)
      requires path in files
      ensures |chunk| <= limit
      ensures chunk == [] <==> offset >= |files[path]| || limit == 0
      ensures chunk != [] ==> offset + |chunk| <= |files[path]|
                              && chunk == files[path][offset..offset + |chunk|]
    {
      if offset >= |files[path]| || limit == 0 {
        return [];
      }
      var n :| 0 < n <= limit && offset + n <= |files[path]|;
      chunk := files[path][offset..offset + n];
    }

    /** write(2) at an offset: some bytes, or -1 on a faulty disk. */
    method Write(path: nat, offset: nat, data: Bytes) returns (n: int)
      requires path in files && data != []
      modifies this
      ensures n == -1 || 0 < n <= |data|
      ensures n == -1 ==> faulty && files == old(files)
      ensures n > 0 ==> files == old(files)[path := Overwrite(old(files)[path], offset, data[..n])]
    {
      var fails: bool := *;
      if faulty && fails {
        return -1;
      }
      n :| 0 < n <= |data|;
      files := files[path := Overwrite(files[path], offset, data[..n])];
    }

    method Truncate(path: nat, size: nat)
      requires path in files && size <= |files[path]|
      modifies this
      ensures files == old(files)[path := old(files)[path][..size]]
    {
      files := files[path := files[path][..size]];
    }

    method Remove(path: nat)
      modifies this
      ensures files == old(files) - {path}
    {
      files := files - {path};
    }
  }
}
