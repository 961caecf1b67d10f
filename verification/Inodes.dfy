/** The inode structure (header/common_config.h) as a disk record and as a loaded, mutable copy. */
module Inodes {
  import opened Geometry

  /** One slot of the inode table. */
  datatype Record = Record(
    isDir: bool,
    canWrite: bool,
    linkCount: int,
    fileSize: int,
    blocks: int,
    direct: seq<int>,
    single: int,
    double: int,
    triple: int,
    isAllocated: bool,
    filesCount: int)

  function NoAddresses(): seq<int> {
    seq(DIRECT, _ => 0)
  }

  /** The inodeStruct a caller holds in memory and edits. */
  class Inode {
    var isDir: bool           // S_ISDIR(i_mode)
    var canWrite: bool        // i_mode & S_IWUSR
    var linkCount: int
    var fileSize: int
    var blocks: int
    var direct: seq<int>
    var single: int
    var double: int
    var triple: int
    var isAllocated: bool
    var filesCount: int

    function Rec(): Record
      reads this
    {
      Record(isDir, canWrite, linkCount, fileSize, blocks, direct, single, double, triple, isAllocated, filesCount)
    }

    constructor (r: Record)
      ensures Rec() == r
    {
      isDir, canWrite, linkCount, fileSize := r.isDir, r.canWrite, r.linkCount, r.fileSize;
      blocks, direct, single, double, triple := r.blocks, r.direct, r.single, r.double, r.triple;
      isAllocated, filesCount := r.isAllocated, r.filesCount;
    }
  }
}
