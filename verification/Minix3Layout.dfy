/** The on-disk format written out: what a pointer block, an inode record, a superblock and a whole file-system image
    look like as bytes, and that the reader decodes each of them. */
module Minix3Layout {
  import opened Minix3
  import opened Minix3Fs

  // ---------------------------------------------------------------- numbers

  /** The `width` low bytes of a number, least significant first. */
  function Little(v: nat, width: nat): (r: seq<byte>)
    ensures |r| == width
    decreases width
  {
    if width == 0 then [] else [v % 256] + Little(v / 256, width - 1)
  }

  lemma LittleTwo(v: nat)
    requires v < 65536
    ensures Little(v, 2) == [v % 256, v / 256]
  {
    assert Little(v, 2) == [v % 256] + Little(v / 256, 1);
    assert Little(v / 256, 1) == [v / 256 % 256] + Little(v / 256 / 256, 0);
  }

  lemma LittleFour(v: nat)
    ensures Little(v, 4) == [v % 256, v / 256 % 256, v / 65536 % 256, v / 16777216 % 256]
  {
    assert v / 256 / 256 == v / 65536 && v / 65536 / 256 == v / 16777216;
    assert Little(v, 4) == [v % 256] + Little(v / 256, 3);
    assert Little(v / 256, 3) == [v / 256 % 256] + Little(v / 65536, 2);
    assert Little(v / 65536, 2) == [v / 65536 % 256] + Little(v / 16777216, 1);
    assert Little(v / 16777216, 1) == [v / 16777216 % 256] + Little(v / 16777216 / 256, 0);
  }

  lemma FourDigits(v: nat)
    requires v < 4294967296
    ensures v == v % 256 + 256 * (v / 256 % 256) + 65536 * (v / 65536 % 256) + 16777216 * (v / 16777216 % 256)
  {
    var a, b, c := v / 256, v / 65536, v / 16777216;
    assert a / 256 == b && b / 256 == c;
    assert v == 256 * a + v % 256 && a == 256 * b + a % 256 && b == 256 * c + b % 256 && c % 256 == c;
  }

  /** The two-byte and four-byte numbers the reader decodes are the ones written. */
  lemma DecodesTwo(s: seq<byte>, at: nat, v: nat)
    requires at + 2 <= |s| && s[at..at + 2] == Little(v, 2) && v < 65536
    ensures Le16(s, at) == v
  {
    LittleTwo(v);
    assert s[at] == s[at..at + 2][0] && s[at + 1] == s[at..at + 2][1];
  }

  lemma DecodesFour(s: seq<byte>, at: nat, v: nat)
    requires at + 4 <= |s| && s[at..at + 4] == Little(v, 4) && v < 4294967296
    ensures Le32(s, at) == v
  {
    LittleFour(v);
    FourDigits(v);
    var t := s[at..at + 4];
    assert s[at] == t[0] && s[at + 1] == t[1] && s[at + 2] == t[2] && s[at + 3] == t[3];
  }

  // ---------------------------------------------------------------- pointer blocks

  /** Numbers one after the other, four bytes each. */
  function Words(ps: seq<nat>): (r: seq<byte>)
    ensures |r| == 4 * |ps|
    decreases ps
  {
    if ps == [] then [] else Little(ps[0], 4) + Words(ps[1..])
  }

  lemma FourBehind(head: seq<byte>, tail: seq<byte>, at: nat)
    requires |head| == 4 && at + 4 <= |tail|
    ensures (head + tail)[4 + at..4 + at + 4] == tail[at..at + 4]
  {
  }

  lemma {:induction false} WordsAt(ps: seq<nat>, i: nat)
    requires i < |ps|
    ensures Words(ps)[4 * i..4 * i + 4] == Little(ps[i], 4)
    decreases ps
  {
    var head, tail := Little(ps[0], 4), Words(ps[1..]);
    assert Words(ps) == head + tail;
    hide Words, Little;
    if i == 0 {
      assert (head + tail)[..4] == head;
    } else {
      WordsAt(ps[1..], i - 1);
      assert ps[1..][i - 1] == ps[i] && 4 * i == 4 + 4 * (i - 1);
      FourBehind(head, tail, 4 * (i - 1));
    }
  }

  lemma PtrIsWord(b: Block, i: nat)
    requires i < PTRS
    ensures 4 * i + 4 <= |b| && Ptr(b, i) == Le32(b, 4 * i)
  {
  }

  /** Entry `i` of a pointer block is the `i`-th number written there. */
  lemma PointerDecodes(b: Block, ps: seq<nat>, i: nat)
    requires |ps| == 256 && (forall k :: 0 <= k < 256 ==> ps[k] < 4294967296) && b == Words(ps) && i < 256
    ensures Ptr(b, i) == ps[i]
  {
    hide Words, Little, Ptr;
    WordsAt(ps, i);
    PtrIsWord(b, i);
    DecodesFour(b, 4 * i, ps[i]);
  }

  lemma LittleOf(s: seq<byte>, at: nat)
    requires at + 4 <= |s|
    ensures Little(Le32(s, at), 4) == s[at..at + 4]
  {
    var b0: int, b1: int, b2: int, b3: int := s[at], s[at + 1], s[at + 2], s[at + 3];
    var v := Le32(s, at);
    assert v == b0 + 256 * (b1 + 256 * (b2 + 256 * b3));
    LittleFour(v);
    assert v / 256 == b1 + 256 * (b2 + 256 * b3) && v / 65536 == b2 + 256 * b3 && v / 16777216 == b3;
  }

  lemma ByteWritten(b: Block, ps: seq<nat>, i: nat, j: nat)
    requires |ps| == 256 && i < 256 && j < 4 && ps[i] == Ptr(b, i)
    ensures Words(ps)[4 * i + j] == b[4 * i + j]
  {
    hide Words, Little, Ptr, Le32;
    WordsAt(ps, i);
    PtrIsWord(b, i);
    LittleOf(b, 4 * i);
    assert Words(ps)[4 * i + j] == Words(ps)[4 * i..4 * i + 4][j] && b[4 * i + j] == b[4 * i..4 * i + 4][j];
  }

  /** Every block is the writing of the 256 pointers read from it. */
  lemma PointersWritten(b: Block, ps: seq<nat>)
    requires |ps| == 256 && forall i: nat :: i < 256 ==> ps[i] == Ptr(b, i)
    ensures Words(ps) == b
  {
    hide Words, Ptr;
    forall k: nat | k < 1024 ensures Words(ps)[k] == b[k] {
      assert k == 4 * (k / 4) + k % 4;
      ByteWritten(b, ps, k / 4, k % 4);
    }
  }

  // ---------------------------------------------------------------- the block map

  /** Word `i` of block `z`. */
  function Word(disk: Disk, z: nat, i: nat): nat
    requires i < 256
  {
    Le32(disk(z), 4 * i)
  }

  lemma WordIs(disk: Disk, z: nat, i: nat)
    requires i < 256
    ensures Ptr(disk(z), i) == Word(disk, z, i)
  {
    PtrIsWord(disk(z), i);
  }

  lemma BelowOne(disk: Disk, z: nat, k: nat)
    requires k < 256
    ensures k < Cap(1) && LeafZone(disk, z, 1, k) == Word(disk, z, k) && (Reach(disk, z, 1, k) <==> z != 0)
  {
    hide Ptr, Word;
    WordIs(disk, z, k);
    assert LeafZone(disk, z, 1, k) == LeafZone(disk, Ptr(disk(z), k), 0, 0);
  }

  lemma BelowTwo(disk: Disk, z: nat, k: nat)
    requires k < 65536
    ensures var w := Word(disk, z, k / 256);
      && k < Cap(2) && LeafZone(disk, z, 2, k) == Word(disk, w, k % 256)
      && (Reach(disk, z, 2, k) <==> z != 0 && w != 0)
  {
    hide Ptr, Word;
    WordIs(disk, z, k / 256);
    BelowOne(disk, Word(disk, z, k / 256), k % 256);
    assert Quot(2, k) == k / 256 && k - Off(2, k / 256) == k % 256;
  }

  lemma BelowThree(disk: Disk, z: nat, k: nat)
    requires k < 16777216
    ensures var v := Word(disk, z, k / 65536); var w := Word(disk, v, k / 256 % 256);
      && k < Cap(3) && LeafZone(disk, z, 3, k) == Word(disk, w, k % 256)
      && (Reach(disk, z, 3, k) <==> z != 0 && v != 0 && w != 0)
  {
    hide Ptr, Word;
    var r := k % 65536;
    assert r / 256 == k / 256 % 256 && r % 256 == k % 256 by { Digits(k); }
    WordIs(disk, z, k / 65536);
    BelowTwo(disk, Word(disk, z, k / 65536), r);
    assert Quot(3, k) == k / 65536 && k - Off(3, k / 65536) == r;
  }

  lemma Digits(k: nat)
    ensures k % 65536 / 256 == k / 256 % 256 && k % 65536 % 256 == k % 256
  {
    var q, r := k / 65536, k % 65536;
    assert k == 65536 * q + r && k / 256 == 256 * q + r / 256;
  }

  /** Where the blocks of a file are, in the numbers of the format: seven direct zones, 256 behind the eighth, 65536
      behind the ninth, 16777216 behind the tenth; and which pointers lead there. */
  lemma BlockMap(disk: Disk, n: Inode, b: nat)
    requires InodeOk(n)
    ensures b < MAX_BLOCKS <==> b < 16843015
    ensures b < 7 ==> BlockZone(disk, n, b) == n.zones[b] && BlockReached(disk, n, b)
    ensures 7 <= b < 263 ==>
      && BlockZone(disk, n, b) == Word(disk, n.zones[7], b - 7) && (BlockReached(disk, n, b) <==> n.zones[7] != 0)
    ensures 263 <= b < 65799 ==>
      var k := b - 263; var w := Word(disk, n.zones[8], k / 256);
      && BlockZone(disk, n, b) == Word(disk, w, k % 256) && (BlockReached(disk, n, b) <==> n.zones[8] != 0 && w != 0)
    ensures 65799 <= b < 16843015 ==>
      var k := b - 65799; var v := Word(disk, n.zones[9], k / 65536); var w := Word(disk, v, k / 256 % 256);
      && BlockZone(disk, n, b) == Word(disk, w, k % 256)
      && (BlockReached(disk, n, b) <==> n.zones[9] != 0 && v != 0 && w != 0)
  {
    hide Word, LeafZone, Reach;
    if b < 7 {
      DirectBlock(disk, n, b);
    } else if b < 263 {
      BelowOne(disk, n.zones[7], b - 7);
    } else if b < 65799 {
      BelowTwo(disk, n.zones[8], b - 263);
    } else if b < 16843015 {
      BelowThree(disk, n.zones[9], b - 65799);
    }
  }

  lemma DirectBlock(disk: Disk, n: Inode, b: nat)
    requires InodeOk(n) && b < 7
    ensures BlockZone(disk, n, b) == n.zones[b] && BlockReached(disk, n, b)
  {
  }

  // ---------------------------------------------------------------- records

  /** A field of a record: its value and its width in bytes. */
  datatype Field = Field(value: nat, width: nat)

  /** The bytes of a record whose fields follow each other without gaps. */
  function Packed(fs: seq<Field>): (r: seq<byte>)
    ensures |r| == Offset(fs, |fs|)
    decreases fs
  {
    if fs == [] then []
    else
      var k := |fs| - 1;
      OffsetPrefix(fs, k, k);
      Packed(fs[..k]) + Little(fs[k].value, fs[k].width)
  }

  /** Where the `i`-th field begins. */
  function Offset(fs: seq<Field>, i: nat): nat
    requires i <= |fs|
  {
    if i == 0 then 0 else Offset(fs, i - 1) + fs[i - 1].width
  }

  lemma {:induction false} OffsetPrefix(fs: seq<Field>, k: nat, i: nat)
    requires i <= k <= |fs|
    ensures Offset(fs[..k], i) == Offset(fs, i)
    decreases i
  {
    if i > 0 {
      OffsetPrefix(fs, k, i - 1);
    }
  }

  lemma {:induction false} OffsetOrder(fs: seq<Field>, i: nat, j: nat)
    requires i <= j <= |fs|
    ensures Offset(fs, i) <= Offset(fs, j)
    decreases j
  {
    if i < j {
      OffsetOrder(fs, i, j - 1);
    }
  }

  lemma {:induction false} PackedAt(fs: seq<Field>, i: nat)
    requires i < |fs|
    ensures Offset(fs, i) + fs[i].width <= |Packed(fs)|
    ensures Packed(fs)[Offset(fs, i)..Offset(fs, i) + fs[i].width] == Little(fs[i].value, fs[i].width)
    decreases fs
  {
    var k := |fs| - 1;
    OffsetPrefix(fs, k, k);
    OffsetOrder(fs, i + 1, |fs|);
    if i < k {
      PackedAt(fs[..k], i);
      OffsetPrefix(fs, k, i);
    }
  }

  /** The inode record as the source declares it: four 16-bit words, four 32-bit words, ten zones. */
  datatype DiskInode = DiskInode(mode: nat, nlinks: nat, uid: nat, gid: nat, size: nat, atime: nat, mtime: nat,
                                 ctime: nat, zones: seq<nat>)

  predicate DiskInodeOk(d: DiskInode) {
    d.size < 4294967296 && |d.zones| == 10 && forall i :: 0 <= i < 10 ==> d.zones[i] < 4294967296
  }

  function InodeLayout(d: DiskInode): (fs: seq<Field>) {
    [Field(d.mode, 2), Field(d.nlinks, 2), Field(d.uid, 2), Field(d.gid, 2), Field(d.size, 4), Field(d.atime, 4),
     Field(d.mtime, 4), Field(d.ctime, 4)]
  }

  lemma InodeOffsets(d: DiskInode)
    ensures var fs := InodeLayout(d); Offset(fs, 4) == 8 && Offset(fs, 8) == 24
  {
    var fs := InodeLayout(d);
    assert Offset(fs, 1) == 2 && Offset(fs, 2) == 4 && Offset(fs, 3) == 6 && Offset(fs, 4) == 8;
    assert Offset(fs, 5) == 12 && Offset(fs, 6) == 16 && Offset(fs, 7) == 20 && Offset(fs, 8) == 24;
  }

  function InodeBytes(d: DiskInode): (r: seq<byte>)
    requires DiskInodeOk(d)
    ensures |r| == 64
  {
    InodeOffsets(d);
    Packed(InodeLayout(d)) + Words(d.zones)
  }

  lemma InodeParts(d: DiskInode)
    requires DiskInodeOk(d)
    ensures var head := Packed(InodeLayout(d)); |head| == 24 && InodeBytes(d) == head + Words(d.zones)
    ensures InodeBytes(d)[8..12] == Little(d.size, 4)
  {
    InodeOffsets(d);
    hide Packed, Words, Little;
    PackedAt(InodeLayout(d), 4);
  }

  lemma ZoneDecodes(d: DiskInode, i: nat)
    requires DiskInodeOk(d) && i < 10
    ensures Le32(InodeBytes(d), 24 + 4 * i) == d.zones[i]
  {
    hide InodeBytes, Words, Packed, InodeLayout, Little, Le32;
    InodeParts(d);
    WordsAt(d.zones, i);
    var r := InodeBytes(d);
    assert r[24 + 4 * i..24 + 4 * i + 4] == Words(d.zones)[4 * i..4 * i + 4];
    DecodesFour(r, 24 + 4 * i, d.zones[i]);
  }

  lemma ParseZones(b: seq<byte>, i: nat)
    requires |b| == 64 && i < 10
    ensures ParseInode(b).zones[i] == Le32(b, 24 + 4 * i) && ParseInode(b).size == Le32(b, 8)
  {
    hide Le32;
  }

  /** The reader gets back the size and the zones. */
  lemma InodeDecodes(d: DiskInode)
    requires DiskInodeOk(d)
    ensures ParseInode(InodeBytes(d)) == Inode(d.size, d.zones)
  {
    hide InodeBytes, Packed, InodeLayout, Little, Le32, ParseInode;
    InodeParts(d);
    var r := InodeBytes(d);
    DecodesFour(r, 8, d.size);
    forall i: nat | i < 10 ensures ParseInode(r).zones[i] == d.zones[i] {
      ZoneDecodes(d, i);
      ParseZones(r, i);
    }
    ParseZones(r, 0);
    assert ParseInode(r).zones == d.zones;
  }

  /** The superblock as the source declares it. */
  datatype DiskSuper = DiskSuper(ninodes: nat, pad0: nat, imapBlocks: nat, zmapBlocks: nat, firstDataZone: nat,
                                 logZoneSize: nat, pad1: nat, maxSize: nat, zones: nat, magic: nat, pad2: nat,
                                 blockSize: nat, version: nat)

  predicate DiskSuperOk(d: DiskSuper) {
    d.ninodes < 4294967296 && d.imapBlocks < 65536 && d.zmapBlocks < 65536 && d.magic < 65536
  }

  function SuperLayout(d: DiskSuper): seq<Field> {
    [Field(d.ninodes, 4), Field(d.pad0, 2), Field(d.imapBlocks, 2), Field(d.zmapBlocks, 2), Field(d.firstDataZone, 2),
     Field(d.logZoneSize, 2), Field(d.pad1, 2), Field(d.maxSize, 4), Field(d.zones, 4), Field(d.magic, 2),
     Field(d.pad2, 2), Field(d.blockSize, 2), Field(d.version, 1)]
  }

  lemma SuperOffsets(d: DiskSuper)
    ensures var fs := SuperLayout(d);
      Offset(fs, 0) == 0 && Offset(fs, 2) == 6 && Offset(fs, 3) == 8 && Offset(fs, 9) == 24 && Offset(fs, 13) == 31
  {
    var fs := SuperLayout(d);
    assert Offset(fs, 1) == 4 && Offset(fs, 2) == 6 && Offset(fs, 3) == 8 && Offset(fs, 4) == 10;
    assert Offset(fs, 5) == 12 && Offset(fs, 6) == 14 && Offset(fs, 7) == 16 && Offset(fs, 8) == 20;
    assert Offset(fs, 9) == 24 && Offset(fs, 10) == 26 && Offset(fs, 11) == 28 && Offset(fs, 12) == 30;
  }

  lemma SuperPart(d: DiskSuper, b: seq<byte>, i: nat, at: nat, width: nat)
    requires i < 13 && |b| >= 31 && b[..31] == Packed(SuperLayout(d)) && at == Offset(SuperLayout(d), i)
    requires width == SuperLayout(d)[i].width && at + width <= 31
    ensures b[at..at + width] == Little(SuperLayout(d)[i].value, width)
  {
    hide Packed, Offset;
    assert |SuperLayout(d)| == 13;
    hide SuperLayout;
    PackedAt(SuperLayout(d), i);
    InPrefix(b, 31, at, width);
  }

  lemma InPrefix(b: seq<byte>, n: nat, at: nat, width: nat)
    requires at + width <= n <= |b|
    ensures b[..n][at..at + width] == b[at..at + width]
  {
  }

  /** The reader gets back the counts and the magic. */
  lemma SuperDecodes(d: DiskSuper, b: seq<byte>)
    requires DiskSuperOk(d) && |b| >= 32 && b[..31] == Packed(SuperLayout(d))
    ensures ParseSuper(b) == SuperBlock(d.ninodes, d.imapBlocks, d.zmapBlocks, d.magic)
  {
    SuperOffsets(d);
    hide Packed, Offset, Little, Le16, Le32;
    SuperPart(d, b, 0, 0, 4);
    SuperPart(d, b, 2, 6, 2);
    SuperPart(d, b, 3, 8, 2);
    SuperPart(d, b, 9, 24, 2);
    DecodesFour(b, 0, d.ninodes);
    DecodesTwo(b, 6, d.imapBlocks);
    DecodesTwo(b, 8, d.zmapBlocks);
    DecodesTwo(b, 24, d.magic);
  }

  // ---------------------------------------------------------------- whole images

  /** A file system as a tool would write it: the boot block, the superblock, the inode map, the zone map, the inode
      records, and the data. */
  datatype Image = Image(boot: seq<byte>, super: DiskSuper, pad: seq<byte>, inodeMap: seq<byte>, zoneMap: seq<byte>,
                         inodes: seq<DiskInode>, data: seq<byte>)

  ghost predicate ImageOk(im: Image) {
    && DiskSuperOk(im.super) && |im.boot| == 1024 && |im.pad| == 1024 - 31
    && |im.inodeMap| == 1024 * im.super.imapBlocks && |im.zoneMap| == 1024 * im.super.zmapBlocks
    && |im.inodes| == im.super.ninodes && forall i :: 0 <= i < |im.inodes| ==> DiskInodeOk(im.inodes[i])
  }

  /** The inode records one after the other. */
  ghost function Records(ds: seq<DiskInode>): (r: seq<byte>)
    requires forall i :: 0 <= i < |ds| ==> DiskInodeOk(ds[i])
    ensures |r| == 64 * |ds|
    decreases ds
  {
    if ds == [] then [] else InodeBytes(ds[0]) + Records(ds[1..])
  }

  lemma {:induction false} RecordsAt(ds: seq<DiskInode>, i: nat)
    requires (forall k :: 0 <= k < |ds| ==> DiskInodeOk(ds[k])) && i < |ds|
    ensures Records(ds)[64 * i..64 * i + 64] == InodeBytes(ds[i])
    decreases ds
  {
    hide InodeBytes;
    var s, t := Records(ds), Records(ds[1..]);
    assert s == InodeBytes(ds[0]) + t;
    if i > 0 {
      RecordsAt(ds[1..], i - 1);
      assert s[64 * i..64 * i + 64] == t[64 * (i - 1)..64 * (i - 1) + 64];
    }
  }

  ghost function SuperBytes(im: Image): (r: seq<byte>)
    requires ImageOk(im)
    ensures |r| == 1024
  {
    SuperOffsets(im.super);
    Packed(SuperLayout(im.super)) + im.pad
  }

  ghost function Flat(im: Image): seq<byte>
    requires ImageOk(im)
  {
    im.boot + (SuperBytes(im) + (im.inodeMap + (im.zoneMap + (Records(im.inodes) + im.data))))
  }

  /** The disk begins with these bytes. */
  ghost predicate Begins(disk: Disk, bytes: seq<byte>) {
    forall a: nat :: a < |bytes| ==> bytes[a] == disk(a / 1024)[a % 1024]
  }

  lemma FlatSuper(im: Image)
    requires ImageOk(im)
    ensures |Flat(im)| >= 2048 && Flat(im)[1024..2048] == SuperBytes(im)
  {
    hide SuperBytes, Records;
    var rest := im.inodeMap + (im.zoneMap + (Records(im.inodes) + im.data));
    assert Flat(im) == im.boot + (SuperBytes(im) + rest);
  }

  lemma FlatInode(im: Image, i: nat)
    requires ImageOk(im) && i < |im.inodes|
    ensures var at := 2048 + 1024 * im.super.imapBlocks + 1024 * im.super.zmapBlocks + 64 * i;
      |Flat(im)| >= at + 64 && Flat(im)[at..at + 64] == InodeBytes(im.inodes[i])
  {
    hide SuperBytes, Records, InodeBytes;
    RecordsAt(im.inodes, i);
    var recs := Records(im.inodes);
    var before := im.boot + SuperBytes(im) + im.inodeMap + im.zoneMap;
    assert Flat(im) == before + (recs + im.data);
    var n := |before|;
    assert Flat(im)[n + 64 * i..n + 64 * i + 64] == recs[64 * i..64 * i + 64];
  }

  lemma SuperOnDisk(disk: Disk, im: Image)
    requires ImageOk(im) && Begins(disk, Flat(im))
    ensures disk(1) == SuperBytes(im)
  {
    hide SuperBytes, Flat;
    FlatSuper(im);
    forall k: nat | k < 1024 ensures disk(1)[k] == SuperBytes(im)[k] {
      assert Flat(im)[1024 + k] == Flat(im)[1024..2048][k];
      assert (1024 + k) / 1024 == 1 && (1024 + k) % 1024 == k;
    }
  }

  lemma SliceOnDisk(disk: Disk, bytes: seq<byte>, at: nat, n: nat)
    requires Begins(disk, bytes) && at + n <= |bytes|
    ensures DiskSlice(disk, at, n) == bytes[at..at + n]
  {
    forall i: nat | i < n ensures DiskSlice(disk, at, n)[i] == bytes[at..at + n][i] {
      assert bytes[at + i] == disk((at + i) / 1024)[(at + i) % 1024];
    }
  }

  /** On every image the reader finds exactly the inodes that were written, each under its number, provided the magic is
      the one of the format. */
  lemma ImageFound(disk: Disk, im: Image, num: nat)
    requires ImageOk(im) && Begins(disk, Flat(im))
    ensures Named(disk, num) <==> im.super.magic == 0x4d5a && 1 <= num <= |im.inodes|
    ensures Named(disk, num) ==> InodeAt(disk, num) == Inode(im.inodes[num - 1].size, im.inodes[num - 1].zones)
  {
    hide ParseSuper, ParseInode, DiskSlice, Flat, InodeBytes, SuperBytes, InodeOffset, Begins;
    SuperFound(disk, im);
    if Named(disk, num) {
      RecordPlace(ParseSuper(disk(1)), num);
      RecordOnDisk(disk, im, num - 1);
      InodeDecodes(im.inodes[num - 1]);
    }
  }

  lemma RecordPlace(sb: SuperBlock, num: nat)
    requires num > 0
    ensures InodeOffset(sb, num) == 2048 + 1024 * sb.imapBlocks + 1024 * sb.zmapBlocks + 64 * (num - 1)
  {
  }

  lemma RecordOnDisk(disk: Disk, im: Image, i: nat)
    requires ImageOk(im) && Begins(disk, Flat(im)) && i < |im.inodes|
    ensures DiskSlice(disk, 2048 + 1024 * im.super.imapBlocks + 1024 * im.super.zmapBlocks + 64 * i, 64)
         == InodeBytes(im.inodes[i])
  {
    hide DiskSlice, Flat, InodeBytes;
    FlatInode(im, i);
    SliceOnDisk(disk, Flat(im), 2048 + 1024 * im.super.imapBlocks + 1024 * im.super.zmapBlocks + 64 * i, 64);
  }

  lemma SuperFound(disk: Disk, im: Image)
    requires ImageOk(im) && Begins(disk, Flat(im))
    ensures var d := im.super;
      ParseSuper(disk(1)) == SuperBlock(d.ninodes, d.imapBlocks, d.zmapBlocks, d.magic)
  {
    hide Flat, ParseSuper, Packed, SuperLayout;
    SuperOnDisk(disk, im);
    SuperOffsets(im.super);
    assert SuperBytes(im)[..31] == Packed(SuperLayout(im.super));
    SuperDecodes(im.super, SuperBytes(im));
  }
}
