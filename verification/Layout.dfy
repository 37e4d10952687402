/** fs/fs.c, partition_format: where the regions of a partition lie. */
module Layout {
  import opened Words

  const MAX_FILES_PER_PART: nat := 4096
  const BITS_PER_SECTOR: nat := 4096
  const INODE_SIZE: nat := 76
  const INODE_TABLE_SECTS: nat := 608
  const DIR_ENTRY_SIZE: nat := 24

  datatype SuperBlock = SuperBlock(
    secCnt: u32,
    partLbaBase: u32,
    blockBitmapLba: u32,
    blockBitmapSects: u32,
    inodeBitmapLba: u32,
    inodeBitmapSects: u32,
    inodeTableLba: u32,
    inodeTableSects: u32,
    dataStartLba: u32)

  /** uint32_t arithmetic */
  function Wrap(x: int): u32 {
    x % 0x1_0000_0000
  }

  /** DIV_ROUND_UP, including the wrap-around of its addition */
  function DivRoundUp(x: u32, step: u32): u32
    requires step > 0
  {
    Wrap(x + step - 1) / step
  }

  /** The number of bitmap sectors that partition_format settles on, having rounded twice. */
  function BlockBitmapSects(freeSects: u32): u32 {
    DivRoundUp(Wrap(freeSects - DivRoundUp(freeSects, BITS_PER_SECTOR)), BITS_PER_SECTOR)
  }

  /** The super block of a partition whose bitmaps and inode table have the given sizes. */
  function Regions(startLba: u32, sectorCnt: u32, blockBitmapSects: u32, inodeBitmapSects: u32,
                   inodeTableSects: u32): SuperBlock {
    var blockBitmapLba := Wrap(startLba + 2);
    var inodeBitmapLba := Wrap(blockBitmapLba + blockBitmapSects);
    var inodeTableLba := Wrap(inodeBitmapLba + inodeBitmapSects);
    SuperBlock(sectorCnt, startLba, blockBitmapLba, blockBitmapSects, inodeBitmapLba, inodeBitmapSects,
               inodeTableLba, inodeTableSects, Wrap(inodeTableLba + inodeTableSects))
  }

  function FormatLayout(startLba: u32, sectorCnt: u32): SuperBlock {
    var inodeBitmapSects := DivRoundUp(MAX_FILES_PER_PART, BITS_PER_SECTOR);
    var inodeTableSects := DivRoundUp(INODE_SIZE * MAX_FILES_PER_PART, SECTOR_SIZE);
    var usedSects := Wrap(1 + 1 + inodeBitmapSects + inodeTableSects);
    Regions(startLba, sectorCnt, BlockBitmapSects(Wrap(sectorCnt - usedSects)), inodeBitmapSects, inodeTableSects)
  }

  /** The regions follow each other inside the partition, sectors are left for data and bitmap sectors track them. */
  ghost predicate WellFormed(sb: SuperBlock) {
    && sb.blockBitmapLba == sb.partLbaBase + 2
    && sb.inodeBitmapLba == sb.blockBitmapLba + sb.blockBitmapSects
    && sb.inodeTableLba == sb.inodeBitmapLba + sb.inodeBitmapSects
    && sb.dataStartLba == sb.inodeTableLba + sb.inodeTableSects
    && sb.dataStartLba < sb.partLbaBase + sb.secCnt < 0x1_0000_0000
    && sb.inodeBitmapSects == 1
    && sb.inodeTableSects == INODE_TABLE_SECTS
    && sb.blockBitmapSects >= 1
  }

  ghost function DataSectors(sb: SuperBlock): nat
    requires WellFormed(sb)
  {
    sb.partLbaBase + sb.secCnt - sb.dataStartLba
  }

  /** The number of leading bits of the block bitmap that stand for sectors of the partition. */
  ghost function Usable(sb: SuperBlock): (n: nat)
    requires WellFormed(sb)
  {
    if DataSectors(sb) < BITS_PER_SECTOR * sb.blockBitmapSects then DataSectors(sb)
    else BITS_PER_SECTOR * sb.blockBitmapSects
  }

  /** What rounding twice comes to, when no subtraction wraps. */
  lemma BitmapSizing(free: u32)
    requires free < 0x1_0000_0000 - 0x1000
    ensures var s := BlockBitmapSects(free);
            && (s >= 1 <==> free >= 2)
            && (s < free || free == 0)
            && 4096 * s < free - s + 4096
            && (free <= 0x100_0000 ==> free - s - 1 <= 4096 * s)
  {
    var s1 := DivRoundUp(free, 4096);
    assert free <= 4096 * s1 <= free + 4095;
    assert Wrap(free - s1) == free - s1;
    var s := DivRoundUp(free - s1, 4096);
    assert free - s1 <= 4096 * s < free - s1 + 4096;
    assert s <= s1;
    if free <= 0x100_0000 {
      assert s1 <= s + 1;
    }
  }

  /** On a small partition `sector_cnt - used_sects` wraps, and so does the rounding. */
  lemma SmallPartition(startLba: u32, sectorCnt: u32)
    requires sectorCnt < 611
    ensures !WellFormed(Regions(startLba, sectorCnt, BlockBitmapSects(Wrap(sectorCnt - 611)), 1, INODE_TABLE_SECTS))
  {
    var free: u32 := Wrap(sectorCnt - 611);
    assert free == sectorCnt - 611 + 0x1_0000_0000;
    assert DivRoundUp(free, 4096) == 0;
  }

  lemma UsedSects(startLba: u32, sectorCnt: u32)
    ensures FormatLayout(startLba, sectorCnt) ==
            Regions(startLba, sectorCnt, BlockBitmapSects(Wrap(sectorCnt - 611)), 1, INODE_TABLE_SECTS)
  {
    assert DivRoundUp(MAX_FILES_PER_PART, BITS_PER_SECTOR) == 1;
    assert DivRoundUp(INODE_SIZE * MAX_FILES_PER_PART, SECTOR_SIZE) == INODE_TABLE_SECTS;
    assert Wrap(1 + 1 + 1 + INODE_TABLE_SECTS) == 611;
  }

  lemma RegionsWellFormed(startLba: u32, sectorCnt: u32, s: u32)
    requires startLba + sectorCnt < 0x1_0000_0000 - 0x1000 && sectorCnt >= 611
    requires s < sectorCnt - 611 || sectorCnt == 611
    ensures WellFormed(Regions(startLba, sectorCnt, s, 1, INODE_TABLE_SECTS)) <==> s >= 1 && sectorCnt > 611
    ensures Regions(startLba, sectorCnt, s, 1, INODE_TABLE_SECTS).blockBitmapSects == s
    ensures s >= 1 && sectorCnt > 611 ==>
              DataSectors(Regions(startLba, sectorCnt, s, 1, INODE_TABLE_SECTS)) == sectorCnt - 611 - s
  {
  }

  /** Formatting gives a usable layout exactly on partitions of at least 613 sectors: with fewer, the unsigned
      subtractions wrap or the block bitmap gets no sector. Up to 2^24 sectors (8 GB) the bitmap leaves at most one
      data sector untracked, and always fewer than 4096 of its bits stand for no sector of the partition. */
  lemma FormatLayoutWellFormed(startLba: u32, sectorCnt: u32)
    requires startLba + sectorCnt < 0x1_0000_0000 - 0x1000
    ensures var sb := FormatLayout(startLba, sectorCnt);
            && (WellFormed(sb) <==> sectorCnt >= 613)
            && (WellFormed(sb) && sectorCnt <= 0x100_0000 ==> DataSectors(sb) - 1 <= Usable(sb))
            && (WellFormed(sb) ==> BITS_PER_SECTOR * sb.blockBitmapSects < DataSectors(sb) + BITS_PER_SECTOR)
  {
    hide FormatLayout, Regions, BlockBitmapSects, DivRoundUp;
    UsedSects(startLba, sectorCnt);
    if sectorCnt < 611 {
      SmallPartition(startLba, sectorCnt);
    } else {
      assert Wrap(sectorCnt - 611) == sectorCnt - 611;
      BitmapSizing(sectorCnt - 611);
      RegionsWellFormed(startLba, sectorCnt, BlockBitmapSects(sectorCnt - 611));
    }
  }
}
