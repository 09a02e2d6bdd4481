/**
 * The raw-disk helpers: ATA PIO sector reads in 28-bit LBA mode, the boot-sector
 * check of a FAT volume and the free-cluster count of its first table.
 * The drive is a function from LBA to the 512 bytes stored there.
 */
module Disk {
  import opened Types
  import opened Ports

  const SECTOR_SIZE: nat := 512
  /** The sectors of the allocation table that are scanned. */
  const FAT_SECTORS: nat := 9
  /** The first sector of the allocation table. */
  const FAT_START_SECTOR: nat := 1
  /** Free space is counted in clusters of four sectors, `SECTOR_SIZE * 4` bytes. */
  const CLUSTER_SIZE: nat := 2048
  /** A table sector holds `SECTOR_SIZE / 2` 16-bit entries. */
  const ENTRIES: nat := 256

  type Sector = s: seq<u8> | |s| == 512 witness seq(512, _ => 0)

  /** The contents of the drive, addressed by LBA. */
  type Drive = nat -> Sector

  // ---------------------------------------------------------------------------
  // Little-endian 16-bit words

  /** `u16::from_le_bytes([lo, hi])`. */
  function LE16(lo: u8, hi: u8): u16
  {
    lo + 0x100 * hi
  }

  /** `data as u8`: the low byte of a word. */
  function Low(w: u16): u8 { w % 0x100 }

  /** `(data >> 8) as u8`: the high byte of a word. */
  function High(w: u16): u8 { w / 0x100 }

  /** Splitting a word into bytes and joining them again gives the word back. */
  lemma JoinSplit(w: u16)
    ensures LE16(Low(w), High(w)) == w
  {
  }

  /** Joining two bytes and splitting the word gives the bytes back. */
  lemma SplitJoin(lo: u8, hi: u8)
    ensures Low(LE16(lo, hi)) == lo && High(LE16(lo, hi)) == hi
  {
  }

  /** A word is zero exactly when both of its bytes are. */
  lemma LE16Zero(lo: u8, hi: u8)
    ensures LE16(lo, hi) == 0 <==> lo == 0 && hi == 0
  {
  }

  // ---------------------------------------------------------------------------
  // read_sector

  /** `sector as u32`: the LBA is the sector number cut to 32 bits. */
  function Lba(sector: nat): u32
  {
    sector % 0x1_0000_0000
  }

  /** Dividing by 2^16 or 2^24 is dividing by 2^8 two or three times; LbaDigits uses it to take the LBA apart byte by byte. */
  lemma DivDiv(x: nat)
    ensures x / 0x1_0000 == (x / 0x100) / 0x100
    ensures x / 0x100_0000 == ((x / 0x100) / 0x100) / 0x100
  {
  }

  /** The low 28 bits of `x` are its three low bytes and the low nibble of its top byte. */
  lemma LbaDigits(x: nat)
    requires x < 0x1_0000_0000
    ensures x % 0x1000_0000 == ((x / 0x100_0000) % 0x10) * 0x100_0000 + ((x / 0x1_0000) % 0x100) * 0x1_0000
                             + ((x / 0x100) % 0x100) * 0x100 + x % 0x100
  {
    DivDiv(x);
    var q1 := x / 0x100;
    var q2 := q1 / 0x100;
    var q3 := q2 / 0x100;
    var low := (q2 % 0x100) * 0x1_0000 + (q1 % 0x100) * 0x100 + x % 0x100;
    assert x == q1 * 0x100 + x % 0x100;
    assert q1 == q2 * 0x100 + q1 % 0x100;
    assert q2 == q3 * 0x100 + q2 % 0x100;
    assert x == q3 * 0x100_0000 + low;
    assert q3 == (q3 / 0x10) * 0x10 + q3 % 0x10;
    assert x == (q3 / 0x10) * 0x1000_0000 + ((q3 % 0x10) * 0x100_0000 + low);
  }

  /**
   * The register writes that start READ SECTORS (20h) for one sector: drive/head 0x1F6 with LBA mode and
   * bits 24-27, sector count 0x1F2, LBA low/mid/high 0x1F3-0x1F5, command 0x1F7. `0xE0 | nibble` is written
   * as a sum, the nibble having no bit in common with 0xE0.
   */
  function SectorCommand(lba: u32): (ops: seq<PortOp>)
    ensures |ops| == 6 && forall k | 0 <= k < 6 :: ops[k].Out?
  {
    [Out(0x1F6, 0xE0 + (lba / 0x100_0000) % 0x10),
     Out(0x1F2, 1),
     Out(0x1F3, lba % 0x100),
     Out(0x1F4, (lba / 0x100) % 0x100),
     Out(0x1F5, (lba / 0x1_0000) % 0x100),
     Out(0x1F7, 0x20)]
  }

  /** The LBA a drive takes from the six register writes: 28 bits, the top four from the drive/head register. */
  function LbaOf(ops: seq<PortOp>): nat
    requires |ops| == 6 && forall k | 0 <= k < 6 :: ops[k].Out?
  {
    (ops[0].value % 0x10) * 0x100_0000 + ops[4].value * 0x1_0000 + ops[3].value * 0x100 + ops[2].value
  }

  /**
   * The command selects LBA mode on the master drive, asks for one sector with READ SECTORS, and carries the
   * low 28 bits of the LBA; the top four bits of the 32-bit LBA are dropped.
   */
  lemma SectorCommandEncodes(lba: u32)
    ensures var ops := SectorCommand(lba);
      && [ops[0].port, ops[1].port, ops[2].port, ops[3].port, ops[4].port, ops[5].port]
         == [0x1F6, 0x1F2, 0x1F3, 0x1F4, 0x1F5, 0x1F7]
      && ops[0].value / 0x10 == 0xE && ops[1].value == 1 && ops[5].value == 0x20
      && LbaOf(ops) == lba % 0x1000_0000
  {
    LbaDigits(lba);
  }

  /** Sector numbers 2^32 apart start the same read: `sector as u32` wraps. */
  lemma SectorWraps(sector: nat)
    ensures SectorCommand(Lba(sector + 0x1_0000_0000)) == SectorCommand(Lba(sector))
  {
    assert Lba(sector + 0x1_0000_0000) == Lba(sector);
  }

  /** Word `i` as the drive returns it from the data port 0x1F0: bytes `2i` and `2i + 1` of the sector. */
  function DriveWord(drive: Drive, lba: nat, i: nat): u16
    requires i < ENTRIES
  {
    LE16(drive(lba)[2 * i], drive(lba)[2 * i + 1])
  }

  /** The six `out` instructions that start `read_sector`. */
  method SendReadCommand(bus: PortBus, lba: u32)
    modifies bus
    ensures bus.log == old(bus.log) + SectorCommand(lba)
  {
    bus.Write(0x1F6, 0xE0 + (lba / 0x100_0000) % 0x10);
    bus.Write(0x1F2, 1);
    bus.Write(0x1F3, lba % 0x100);
    bus.Write(0x1F4, (lba / 0x100) % 0x100);
    bus.Write(0x1F5, (lba / 0x1_0000) % 0x100);
    bus.Write(0x1F7, 0x20);
  }

  /**
   * `read_sector`: sends the READ SECTORS command for `sector as u32`, then stores each of the 256 data words
   * low byte first. The buffer ends up holding the sector exactly as stored.
   */
  method ReadSector(bus: PortBus, drive: Drive, sector: nat, buffer: array<u8>)
    requires sector < 0x1_0000_0000_0000_0000 && buffer.Length == SECTOR_SIZE
    modifies bus, buffer
    ensures bus.log == old(bus.log) + SectorCommand(Lba(sector))
    ensures buffer[..] == drive(Lba(sector))
  {
    var lba := sector % 0x1_0000_0000;
    SendReadCommand(bus, lba);
    for i := 0 to ENTRIES
      modifies buffer
      invariant buffer[..2 * i] == drive(lba)[..2 * i]
    {
      var data := DriveWord(drive, lba, i);
      SplitJoin(drive(lba)[2 * i], drive(lba)[2 * i + 1]);
      buffer[i * 2] := Low(data);
      buffer[i * 2 + 1] := High(data);
      assert buffer[..2 * (i + 1)] == buffer[..2 * i] + [buffer[2 * i], buffer[2 * i + 1]];
      assert drive(lba)[..2 * (i + 1)] == drive(lba)[..2 * i] + [drive(lba)[2 * i], drive(lba)[2 * i + 1]];
    }
    assert buffer[..] == buffer[..2 * ENTRIES];
  }

  // ---------------------------------------------------------------------------
  // initialize_filesystem

  /** The BIOS parameter block fields read from the boot sector. */
  datatype Bpb = Bpb(bytesPerSector: u16, sectorsPerCluster: u8, reservedSectors: u16, numFats: u8,
                     fatSizeSectors: u16)

  /** The BPB fields at offsets 11, 13, 14, 16 and 22 of the boot sector, 16-bit ones little-endian. */
  function ParseBpb(boot: Sector): Bpb
  {
    Bpb(LE16(boot[11], boot[12]), boot[13], LE16(boot[14], boot[15]), boot[16], LE16(boot[22], boot[23]))
  }

  /** The parse looks only at bytes 11 to 16, 22 and 23: boot sectors that agree there parse alike. */
  lemma ParseBpbBytes(a: Sector, b: Sector)
    requires forall i | 11 <= i <= 16 || i == 22 || i == 23 :: a[i] == b[i]
    ensures ParseBpb(a) == ParseBpb(b)
  {
    assert a[11] == b[11] && a[12] == b[12];
    assert a[14] == b[14] && a[15] == b[15];
    assert a[22] == b[22] && a[23] == b[23];
  }

  /** The check `initialize_filesystem` makes: only 512-byte sectors are supported. */
  function CheckBootSector(boot: Sector): (r: Result<(), string>)
  {
    if ParseBpb(boot).bytesPerSector != SECTOR_SIZE then Err("Unsupported sector size") else Ok(())
  }

  /** The boot sector is accepted exactly when bytes 11 and 12 read 0x00 0x02; any other value is the one error. */
  lemma CheckBootSectorCases(boot: Sector)
    ensures CheckBootSector(boot).Ok? <==> boot[11] == 0 && boot[12] == 2
    ensures CheckBootSector(boot).Err? ==> CheckBootSector(boot).error == "Unsupported sector size"
  {
    SplitJoin(boot[11], boot[12]);
  }

  /** `initialize_filesystem`: reads sector 0 and checks the sector size. */
  method InitializeFilesystem(bus: PortBus, drive: Drive) returns (r: Result<(), string>)
    modifies bus
    ensures bus.log == old(bus.log) + SectorCommand(0)
    ensures r == CheckBootSector(drive(0))
  {
    var bootSector := new u8[SECTOR_SIZE](_ => 0);
    ReadSector(bus, drive, 0, bootSector);
    var bytesPerSector := LE16(bootSector[11], bootSector[12]);
    if bytesPerSector != SECTOR_SIZE {
      return Err("Unsupported sector size");
    }
    return Ok(());
  }

  // ---------------------------------------------------------------------------
  // calculate_free_space

  /** The number of zero entries among the first `n` 16-bit little-endian entries of `s`. */
  function ZeroEntries(s: seq<u8>, n: nat): (count: nat)
    requires 2 * n <= |s|
    ensures count <= n
  {
    if n == 0 then 0
    else ZeroEntries(s, n - 1) + (if LE16(s[2 * (n - 1)], s[2 * (n - 1) + 1]) == 0 then 1 else 0)
  }

  /** Entry `i` of a table sector is free: both of its bytes are zero. */
  predicate FreeAt(s: seq<u8>, i: nat)
    requires 2 * i + 1 < |s|
  {
    s[2 * i] == 0 && s[2 * i + 1] == 0
  }

  /** The indices of the free entries among the first `n`. */
  function FreeSet(s: seq<u8>, n: nat): set<nat>
    requires 2 * n <= |s|
  {
    set i: nat | i < n && FreeAt(s, i)
  }

  /** Entry counting is the size of the set of free indices. */
  lemma {:induction false} ZeroEntriesSet(s: seq<u8>, n: nat)
    requires 2 * n <= |s|
    ensures ZeroEntries(s, n) == |FreeSet(s, n)|
  {
    if n == 0 {
      assert FreeSet(s, n) == {};
    } else {
      ZeroEntriesSet(s, n - 1);
      LE16Zero(s[2 * (n - 1)], s[2 * (n - 1) + 1]);
      if FreeAt(s, n - 1) {
        assert FreeSet(s, n) == FreeSet(s, n - 1) + {n - 1};
      } else {
        assert FreeSet(s, n) == FreeSet(s, n - 1);
      }
    }
  }

  /** The free entries of the `count` sectors from `first` on, each read at `sector as u32`. */
  function FreeEntries(drive: Drive, first: nat, count: nat): (free: nat)
    ensures free <= count * ENTRIES
  {
    if count == 0 then 0
    else FreeEntries(drive, first, count - 1) + ZeroEntries(drive(Lba(first + count - 1)), ENTRIES)
  }

  /** The register writes of reading the `count` sectors from `first` on, in order. */
  function ScanCommands(first: nat, count: nat): (ops: seq<PortOp>)
    ensures |ops| == 6 * count
  {
    if count == 0 then [] else ScanCommands(first, count - 1) + SectorCommand(Lba(first + count - 1))
  }

  /** The inner loop of `calculate_free_space`: adds one to the running count for each zero entry of the buffer. */
  method CountFree(buffer: array<u8>, counted: nat) returns (freeClusters: nat)
    requires buffer.Length == SECTOR_SIZE
    ensures freeClusters == counted + ZeroEntries(buffer[..], ENTRIES)
  {
    freeClusters := counted;
    for i := 0 to ENTRIES
      invariant freeClusters == counted + ZeroEntries(buffer[..], i)
    {
      var clusterEntry := LE16(buffer[i * 2], buffer[i * 2 + 1]);
      if clusterEntry == 0 {
        freeClusters := freeClusters + 1;
      }
    }
  }

  /** The outer loop of `calculate_free_space`: reads `count` sectors from `first` on and counts their free entries. */
  method ScanTable(bus: PortBus, drive: Drive, buffer: array<u8>, first: nat, count: nat) returns (freeClusters: nat)
    requires buffer.Length == SECTOR_SIZE && first + count <= 0x1_0000_0000_0000_0000
    modifies bus, buffer
    ensures bus.log == old(bus.log) + ScanCommands(first, count)
    ensures freeClusters == FreeEntries(drive, first, count)
  {
    freeClusters := 0;
    for k := 0 to count
      invariant freeClusters == FreeEntries(drive, first, k)
      invariant bus.log == old(bus.log) + ScanCommands(first, k)
    {
      assert ScanCommands(first, k + 1) == ScanCommands(first, k) + SectorCommand(Lba(first + k));
      ReadSector(bus, drive, first + k, buffer);
      freeClusters := CountFree(buffer, freeClusters);
    }
  }

  /**
   * `calculate_free_space`: reads the nine table sectors from sector 1, counts the zero entries, and reports
   * them as clusters of 2048 bytes.
   */
  method CalculateFreeSpace(bus: PortBus, drive: Drive) returns (space: nat)
    modifies bus
    ensures bus.log == old(bus.log) + ScanCommands(FAT_START_SECTOR, FAT_SECTORS)
    ensures space == CLUSTER_SIZE * FreeEntries(drive, FAT_START_SECTOR, FAT_SECTORS)
  {
    var buffer := new u8[SECTOR_SIZE](_ => 0);
    var freeClusters := ScanTable(bus, drive, buffer, FAT_START_SECTOR, FAT_SECTORS);
    space := freeClusters * CLUSTER_SIZE;
  }

  /** The reported space is at most all 2304 entries of the nine sectors, as clusters. */
  lemma FreeSpaceBound(drive: Drive)
    ensures CLUSTER_SIZE * FreeEntries(drive, FAT_START_SECTOR, FAT_SECTORS)
            <= FAT_SECTORS * ENTRIES * CLUSTER_SIZE
  {
  }

  /** An all-zero table is all free. */
  lemma {:induction false} ZeroEntriesAllFree(s: seq<u8>, n: nat)
    requires 2 * n <= |s| && forall i | 0 <= i < 2 * n :: s[i] == 0
    ensures ZeroEntries(s, n) == n
  {
    if n > 0 {
      ZeroEntriesAllFree(s, n - 1);
    }
  }

  /** A table with no zero byte has no free entry. */
  lemma {:induction false} ZeroEntriesNoneFree(s: seq<u8>, n: nat)
    requires 2 * n <= |s| && forall i | 0 <= i < 2 * n :: s[i] != 0
    ensures ZeroEntries(s, n) == 0
  {
    if n > 0 {
      ZeroEntriesNoneFree(s, n - 1);
      LE16Zero(s[2 * (n - 1)], s[2 * (n - 1) + 1]);
    }
  }
}
