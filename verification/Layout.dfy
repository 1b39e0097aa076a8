/** Where the areas of an image lie, computed from its block count alone. */
module Layouts {
  import opened Words
  import opened Osada

  const FILE_TABLE_SIZE := 1024
  const NODE_SIZE := 32
  const CELL_SIZE := 4

  /** The blocks left for data by the header, the bitmap, the node table and the mapping table. */
  function DataBlocks(fsBlocks: nat): int {
    var rest := fsBlocks - 1 - fsBlocks / 512 - FILE_TABLE_SIZE;
    if rest <= 0 then 0 else rest - 1 - (rest * CELL_SIZE - 1) / BLOCK_SIZE
  }

  class Layout {
    var headerSize: int
    var bitmapSize: int
    var mappingTableSize: int
    var dataSize: int
    var header0: int
    var header1: int
    var bitmap0: int
    var bitmap1: int
    var fileTable0: int
    var fileTable1: int
    var mappingTable0: int
    var mappingTable1: int
    var data0: int
    var data1: int
    var bmData0: int
    var bmData1: int

    /** The header, the bitmap, the node table, the mapping table and the data follow each other without
        gap or overlap and end where the image ends. */
    predicate Tiles(fsBlocks: int)
      reads this
    {
      && header0 == 0 && header1 + 1 == bitmap0 && bitmap1 + 1 == fileTable0 && fileTable1 + 1 == mappingTable0
      && mappingTable1 + 1 == data0 && data1 + 1 == fsBlocks
      && header0 <= header1 && bitmap0 <= bitmap1 && fileTable0 < fileTable1 && mappingTable0 <= mappingTable1 && data0 <= data1
      && bitmap1 - bitmap0 + 1 == bitmapSize && mappingTable1 - mappingTable0 + 1 == mappingTableSize && data1 - data0 + 1 == dataSize
    }

    /** Every data block has a mapping cell and a bit, every slot a node; bits are counted from the first
        data block, whose number the bitmap's own count of areas arrives at as well. */
    predicate Covers()
      reads this
    {
      && dataSize * CELL_SIZE <= mappingTableSize * BLOCK_SIZE
      && dataSize <= bitmapSize * BLOCK_SIZE * 8
      && FILE_BLOCKS_MOUNT * NODE_SIZE == (fileTable1 - fileTable0 + 1) * BLOCK_SIZE
      && bmData0 == data0 && bmData1 == data1
    }

    /** The sizes of the areas, in blocks. */
    static method Sizes(fsBlocks: uint32) returns (bitmap: int, mapping: int, data: int)
      requires fsBlocks < 0x4000_0000 && DataBlocks(fsBlocks) >= 1
      ensures bitmap >= 1 && mapping >= 1 && data == DataBlocks(fsBlocks) && 1 + bitmap + FILE_TABLE_SIZE + mapping + data == fsBlocks
      ensures data * CELL_SIZE <= mapping * BLOCK_SIZE && data <= bitmap * BLOCK_SIZE * 8
    {
      hide U32, DataBlocks;
      bitmap := fsBlocks / 8 / BLOCK_SIZE;
      var rest := U32(U32(U32(fsBlocks - 1) - bitmap) - FILE_TABLE_SIZE);
      mapping := U32(1 + U32(U32(rest * 4) - 1) / BLOCK_SIZE);
      data := U32(rest - mapping);
      RoomForData(fsBlocks, bitmap, rest, mapping, data);
    }

    /** `read_and_set` on an image with room for at least one data block. */
    constructor (fsBlocks: uint32)
      requires fsBlocks < 0x4000_0000 && DataBlocks(fsBlocks) >= 1
      ensures Tiles(fsBlocks) && Covers() && dataSize == DataBlocks(fsBlocks)
    {
      hide DataBlocks;
      var bitmap, mapping, data := Sizes(fsBlocks);
      headerSize, bitmapSize, mappingTableSize, dataSize := 1, bitmap, mapping, data;
      header0, header1 := 0, 0;
      var b0 := 1;
      var b1 := b0 + (bitmap - 1);
      bitmap0, bitmap1 := b0, b1;
      var f0 := bitmap + 1;
      var f1 := f0 + (FILE_TABLE_SIZE - 1);
      fileTable0, fileTable1 := f0, f1;
      var m0 := f0 + FILE_TABLE_SIZE;
      var m1 := m0 + (mapping - 1);
      mappingTable0, mappingTable1 := m0, m1;
      var d0 := m0 + mapping;
      var d1 := d0 + (data - 1);
      data0, data1 := d0, d1;
      var bmBitmap1 := 1 + (bitmap - 1);
      var bmFileTable1 := bmBitmap1 + 1 + (FILE_TABLE_SIZE - 1);
      var bmMappingTable1 := bmFileTable1 + 1 + (mapping - 1);
      var bm0 := bmMappingTable1 + 1;
      bmData0, bmData1 := bm0, bm0 + (data - 1);
    }
  }

  /** The mapping table has no more blocks than it takes to hold a cell for each block that the other areas
      leave. */
  lemma MappingIsLeast(fsBlocks: nat)
    requires DataBlocks(fsBlocks) >= 1
    ensures var rest := fsBlocks - 1 - fsBlocks / 8 / BLOCK_SIZE - FILE_TABLE_SIZE;
      var mapping := rest - DataBlocks(fsBlocks);
      mapping * BLOCK_SIZE >= rest * CELL_SIZE > (mapping - 1) * BLOCK_SIZE
  {
    EighthOfBlock(fsBlocks);
  }

  lemma EighthOfBlock(x: nat)
    ensures x / 8 / BLOCK_SIZE == x / 512
  {
  }

  /** No intermediate value wraps around; the mapping table has a cell for every block it was computed
      from, and rounding the bitmap down costs fewer bits than the other areas leave unused. */
  lemma RoomForData(fsBlocks: uint32, bitmap: int, rest: int, mapping: int, data: int)
    requires fsBlocks < 0x4000_0000 && DataBlocks(fsBlocks) >= 1
    requires bitmap == fsBlocks / 8 / BLOCK_SIZE && rest == U32(U32(U32(fsBlocks - 1) - bitmap) - FILE_TABLE_SIZE)
    requires mapping == U32(1 + U32(U32(rest * 4) - 1) / BLOCK_SIZE) && data == U32(rest - mapping)
    ensures rest == fsBlocks - 1 - bitmap - FILE_TABLE_SIZE && data == rest - mapping == DataBlocks(fsBlocks) && bitmap >= 1 && mapping >= 1
    ensures data * CELL_SIZE <= mapping * BLOCK_SIZE && data <= bitmap * BLOCK_SIZE * 8
  {
    hide U32;
    EighthOfBlock(fsBlocks);
    U32Exact(fsBlocks - 1);
    U32Exact(fsBlocks - 1 - bitmap);
    U32Exact(fsBlocks - 1 - bitmap - FILE_TABLE_SIZE);
    U32Exact(rest * 4);
    U32Exact(rest * 4 - 1);
    U32Exact(1 + (rest * 4 - 1) / BLOCK_SIZE);
    U32Exact(rest - mapping);
  }
}
