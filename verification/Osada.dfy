/** On-disk vocabulary of the OSADA file system: sizes, the file-table record and response codes. */
module Osada {
  import opened Words

  const BLOCK_SIZE := 64
  const FILENAME_LENGTH := 17
  const FILE_BLOCKS_MOUNT := 2048
  const ROOT: uint16 := 0xffff
  const END_OF_FILE: uint32 := 0xffff_ffff

  datatype NodeState = Deleted | Regular | Directory

  datatype Node = Node(state: NodeState, fname: seq<byte>, parent: uint16, fileSize: uint32, firstBlock: uint32)

  /** Response codes of osada.h; `NoReply` is a request the server drops without answering. */
  datatype Code = ENoEnt | IsReg | IsDir | ENotDir | ENoSpc | EmptyDir | NotEmptyDir | Sexe | ENameTooLong | NoReply

  /** Blocks a file of `size` bytes occupies. */
  function BlocksFor(size: nat): nat {
    (size + BLOCK_SIZE - 1) / BLOCK_SIZE
  }
}
