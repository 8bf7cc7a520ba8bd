/**
 * The boot file system image across three programs: the packer (tools/xtask/src/pack.rs), the boot
 * loader's size computation (bootloader/src/main.rs) and the kernel's reader (kernel/src/rootfs.rs).
 */
module Hnxf {
  import opened Common
  import opened Arith
  import Crc32
  import opened OhlinkFormat
  import Fdt

  const MAX_PATH_LEN: nat := 128
  const RECORD: nat := 144
  const TABLE: nat := 16

  const MAGIC8: Bytes := [72, 78, 88, 70, 95, 86, 70, 83]

  datatype File = File(path: Bytes, data: Bytes)

  // ----- packing -----

  /** Backslashes become slashes. */
  function Normalize(p: Bytes): (r: Bytes)
    ensures |r| == |p| && (0 !in p ==> 0 !in r)
  {
    seq(|p|, i requires 0 <= i < |p| => if p[i] == 92 then 47 else p[i])
  }

  /** The part of the path the table keeps. */
  function Kept(p: Bytes): (r: Bytes)
    ensures |r| < MAX_PATH_LEN && (0 !in p ==> 0 !in r)
  {
    Normalize(p)[..Min(|p|, MAX_PATH_LEN - 1)]
  }

  /** Zero bytes that bring `x` to the next multiple of sixteen. */
  function Pad(x: nat): (n: nat)
    ensures n < 16 && (x + n) % 16 == 0
  {
    (16 - x % 16) % 16
  }

  function Base(n: nat): nat {
    TABLE + n * RECORD
  }

  /** The data area, every file followed by its padding. */
  function Body(base: nat, files: seq<File>): Bytes
    decreases |files|
  {
    if files == [] then []
    else
      var front, last := files[..|files| - 1], files[|files| - 1];
      Body(base, front) + last.data + Zeros(Pad(base + |Body(base, front)| + |last.data|))
  }

  function Offset(files: seq<File>, i: nat): nat
    requires i <= |files|
  {
    Base(|files|) + |Body(Base(|files|), files[..i])|
  }

  function RecordParts(path: Bytes, offset: nat, size: nat): seq<Bytes> {
    [Kept(path) + Zeros(MAX_PATH_LEN - |Kept(path)|), Le(offset, 8), Le(size, 8)]
  }

  function Record(files: seq<File>, i: nat): Bytes
    requires i < |files|
  {
    Flat(RecordParts(files[i].path, Offset(files, i), |files[i].data|))
  }

  function Records(files: seq<File>): (r: seq<Bytes>)
    ensures |r| == |files|
  {
    seq(|files|, i requires 0 <= i < |files| => Record(files, i))
  }

  function Image(files: seq<File>): Bytes {
    MAGIC8 + Le(|files|, 8) + Flat(Records(files)) + Body(Base(|files|), files)
  }

  /** What the packer's number widths and path strings demand. */
  predicate Packable(files: seq<File>) {
    && |files| < Pow256(8) && Base(|files|) + |Body(Base(|files|), files)| < Pow256(8)
    && (forall i :: 0 <= i < |files| ==> 0 !in files[i].path)
  }

  /** The three output loops of the packer. */
  method Pack(files: seq<File>) returns (out: Bytes)
    ensures out == Image(files)
  {
    hide Body, Flat, Le;
    out := MAGIC8 + Le(|files|, 8);
    var cur: nat := Base(|files|);
    var blocks: Bytes := [];
    ghost var base := cur;
    EmptyBody(base);
    assert files[..0] == [];
    ghost var table := Records(files);
    EmptyFlat(table);
    ghost var head := out;
    for i := 0 to |files|
      invariant out == head + Flat(table[..i])
      invariant blocks == Body(base, files[..i]) && cur == base + |blocks|
    {
      var size := |files[i].data|;
      FlatStep(table, i);
      BodyStep(base, files, i);
      out := out + Flat(RecordParts(files[i].path, cur, size));
      cur := cur + size;
      var padding := Pad(cur);
      blocks := blocks + files[i].data + Zeros(padding);
      cur := cur + padding;
    }
    assert table[..|files|] == table && files[..|files|] == files;
    out := out + blocks;
  }

  lemma EmptyBody(base: nat)
    ensures Body(base, []) == []
  {
  }

  lemma EmptyFlat(t: seq<Bytes>)
    ensures Flat(t[..0]) == []
  {
  }

  lemma FlatStep(t: seq<Bytes>, i: nat)
    requires i < |t|
    ensures Flat(t[..i + 1]) == Flat(t[..i]) + t[i]
  {
    assert t[..i + 1][..i] == t[..i];
  }

  lemma BodyStep(base: nat, files: seq<File>, i: nat)
    requires i < |files|
    ensures Body(base, files[..i + 1])
      == Body(base, files[..i]) + files[i].data + Zeros(Pad(base + |Body(base, files[..i])| + |files[i].data|))
  {
    assert files[..i + 1][..i] == files[..i];
  }

  lemma {:induction false} BodyPrefix(base: nat, files: seq<File>, k: nat, n: nat)
    requires k <= n <= |files|
    ensures Body(base, files[..k]) <= Body(base, files[..n])
    decreases n - k
  {
    hide Body;
    if k < n {
      BodyPrefix(base, files, k, n - 1);
      BodyStep(base, files, n - 1);
    }
  }

  /** File `i` lies in the data area at its offset; its end is where its padding starts. */
  lemma FileAt(files: seq<File>, i: nat)
    requires i < |files|
    ensures var base, at := Base(|files|), Offset(files, i) - Base(|files|);
      && at + |files[i].data| <= |Body(base, files)| && Body(base, files)[at..at + |files[i].data|] == files[i].data
      && Offset(files, i) + |files[i].data| <= Offset(files, i + 1)
  {
    hide Body;
    var base := Base(|files|);
    BodyStep(base, files, i);
    BodyPrefix(base, files, i + 1, |files|);
    assert files[..|files|] == files;
    var part, all, at := Body(base, files[..i + 1]), Body(base, files), |Body(base, files[..i])|;
    assert all[at..at + |files[i].data|] == part[at..at + |files[i].data|];
  }

  /** Data starts at multiples of sixteen. */
  lemma OffsetAligned(files: seq<File>, i: nat)
    requires i <= |files|
    ensures Offset(files, i) % 16 == 0
  {
    hide Body, Pad;
    var base := Base(|files|);
    if i == 0 {
      EmptyBody(base);
      assert files[..0] == [];
      DivUnique(base, 16, 1 + 9 * |files|, 0);
    } else {
      BodyStep(base, files, i - 1);
      var x := base + |Body(base, files[..i - 1])| + |files[i - 1].data|;
      assert Offset(files, i) == x + Pad(x);
    }
  }

  // ----- reading -----

  /** The fields of record `k` of an image. */
  function OffsetField(img: Bytes, k: nat): nat
    requires Base(k) + RECORD <= |img|
  {
    Num(img[Base(k) + MAX_PATH_LEN..Base(k) + MAX_PATH_LEN + 8])
  }

  function SizeField(img: Bytes, k: nat): nat
    requires Base(k) + RECORD <= |img|
  {
    Num(img[Base(k) + MAX_PATH_LEN + 8..Base(k) + RECORD])
  }

  /** The path bytes up to the first zero, none if there is no zero; not UTF-8 reads as the empty path. */
  function NameOf(field: Bytes): Bytes {
    var e := Fdt.ZeroFrom(field, 0);
    var name := if e == |field| then [] else field[..e];
    if Fdt.Utf8(name) then name else []
  }

  function NameField(img: Bytes, k: nat): Bytes
    requires Base(k) + RECORD <= |img|
  {
    NameOf(img[Base(k)..Base(k) + MAX_PATH_LEN])
  }

  /** The kernel's lookup from record `k` on. */
  function Find(img: Bytes, k: nat, count: nat, path: Bytes): Option<Bytes>
    decreases count - k
  {
    if k >= count || Base(k) + RECORD > |img| then None
    else if NameField(img, k) == path && OffsetField(img, k) + SizeField(img, k) <= |img| then
      Some(img[OffsetField(img, k)..OffsetField(img, k) + SizeField(img, k)])
    else Find(img, k + 1, count, path)
  }

  function HasMagic(img: Bytes): bool {
    |img| >= TABLE && img[0..8] == MAGIC8
  }

  function GetFile(img: Bytes, path: Bytes): Option<Bytes> {
    if !HasMagic(img) then None else Find(img, 0, Num(img[8..16]), path)
  }

  /** The lookup loop. */
  method GetFileLoop(img: Bytes, path: Bytes) returns (r: Option<Bytes>)
    ensures r == GetFile(img, path)
  {
    hide NameField, OffsetField, SizeField;
    if |img| < TABLE {
      return None;
    }
    if img[0..8] != MAGIC8 {
      return None;
    }
    var count := Num(img[8..16]);
    var current := TABLE;
    for k := 0 to count
      invariant current == Base(k) && Find(img, k, count, path) == GetFile(img, path)
    {
      if current + RECORD > |img| {
        break;
      }
      if NameField(img, k) == path {
        if OffsetField(img, k) + SizeField(img, k) <= |img| {
          return Some(img[OffsetField(img, k)..OffsetField(img, k) + SizeField(img, k)]);
        }
      }
      current := current + RECORD;
    }
    return None;
  }

  /** The furthest end among the first `k` files, as the boot loader reads the records. */
  function MaxEnd(mem: Bytes, k: nat): nat
    requires k > 0 ==> Base(k) <= |mem|
  {
    if k == 0 then TABLE
    else
      var end := OffsetField(mem, k - 1) + SizeField(mem, k - 1);
      if end > MaxEnd(mem, k - 1) then end else MaxEnd(mem, k - 1)
  }

  /** The boot loader's loop over memory that holds at least the whole table. */
  method BootSize(mem: Bytes) returns (size: nat)
    requires HasMagic(mem) ==> Base(Num(mem[8..16])) <= |mem|
    ensures size == if HasMagic(mem) then MaxEnd(mem, Num(mem[8..16])) else 0
  {
    hide OffsetField, SizeField;
    size := 0;
    if HasMagic(mem) {
      var count := Num(mem[8..16]);
      var end := TABLE;
      for i := 0 to count
        invariant end == MaxEnd(mem, i)
      {
        var e := OffsetField(mem, i) + SizeField(mem, i);
        if e > end {
          end := e;
        }
      }
      size := end;
    }
  }

  // ----- from the packer through the boot loader to the kernel -----

  /** The name under which a packed file is found. */
  function Name(path: Bytes): Bytes {
    if Fdt.Utf8(Kept(path)) then Kept(path) else []
  }

  /** The first file of that name. */
  function FirstFile(files: seq<File>, k: nat, path: Bytes): Option<Bytes>
    decreases |files| - k
  {
    if k >= |files| then None else if Name(files[k].path) == path then Some(files[k].data)
      else FirstFile(files, k + 1, path)
  }

  lemma NameReadBack(path: Bytes)
    requires 0 !in path
    ensures NameOf(Kept(path) + Zeros(MAX_PATH_LEN - |Kept(path)|)) == Name(path)
  {
    hide Fdt.Utf8, Kept;
    var kept := Kept(path);
    var field := kept + Zeros(MAX_PATH_LEN - |kept|);
    forall i | 0 <= i < |kept| ensures field[i] != 0 {
      assert kept[i] in kept;
    }
    assert field[|kept|] == 0;
    var e := Fdt.ZeroFrom(field, 0);
    assert e == |kept|;
    assert field[..|kept|] == kept;
  }

  lemma RecordSlices(path: Bytes, offset: nat, size: nat)
    ensures var r := Flat(RecordParts(path, offset, size));
      && |r| == RECORD && r[0..128] == Kept(path) + Zeros(MAX_PATH_LEN - |Kept(path)|)
      && r[128..136] == Le(offset, 8) && r[136..144] == Le(size, 8)
  {
    hide Le, Flat, Start, Kept, Zeros;
    var p := RecordParts(path, offset, size);
    StartZero(p);
    PartAt(p, 0, [], 0);
    PartAt(p, 1, [], 128);
    PartAt(p, 2, [], 136);
    StartIsLength(p);
    assert Flat(p) + [] == Flat(p);
  }

  lemma {:induction false} RecordStart(t: seq<Bytes>, k: nat)
    requires k <= |t| && forall i :: 0 <= i < |t| ==> |t[i]| == RECORD
    ensures Start(t, k) == k * RECORD
    decreases k
  {
    if k > 0 {
      RecordStart(t, k - 1);
    }
  }

  lemma TableSize(files: seq<File>)
    ensures forall i :: 0 <= i < |files| ==> |Records(files)[i]| == RECORD
    ensures |Flat(Records(files))| == |files| * RECORD
    ensures |Image(files)| == Base(|files|) + |Body(Base(|files|), files)|
  {
    hide Flat, Body, Le, Offset;
    forall i | 0 <= i < |files| ensures |Records(files)[i]| == RECORD {
      RecordSlices(files[i].path, Offset(files, i), |files[i].data|);
    }
    RecordStart(Records(files), |files|);
    StartIsLength(Records(files));
  }

  /** Record `k` stands at its place in any memory that starts with the image's table. */
  lemma RecordInImage(files: seq<File>, mem: Bytes, k: nat)
    requires k < |files|
    requires Base(|files|) <= |mem| && |Image(files)| >= Base(|files|)
      && mem[..Base(|files|)] == Image(files)[..Base(|files|)]
    ensures Base(k) + RECORD <= |mem| && mem[Base(k)..Base(k) + RECORD] == Record(files, k)
  {
    hide Flat, Body, Le, Record, Start;
    TableSize(files);
    var t, head := Records(files), MAGIC8 + Le(|files|, 8);
    RecordStart(t, k);
    PartAt(t, k, Body(Base(|files|), files), k * RECORD);
    var image := Image(files);
    assert image == head + (Flat(t) + Body(Base(|files|), files));
    assert image[Base(k)..Base(k) + RECORD] == Record(files, k);
    assert mem[Base(k)..Base(k) + RECORD] == mem[..Base(|files|)][Base(k)..Base(k) + RECORD];
    assert image[Base(k)..Base(k) + RECORD] == image[..Base(|files|)][Base(k)..Base(k) + RECORD];
  }

  /** ... so its fields read back. */
  lemma FieldsReadBack(files: seq<File>, mem: Bytes, k: nat)
    requires Packable(files) && k < |files|
    requires Base(|files|) <= |mem| && |Image(files)| >= Base(|files|)
      && mem[..Base(|files|)] == Image(files)[..Base(|files|)]
    ensures Base(k) + RECORD <= |mem| && NameField(mem, k) == Name(files[k].path)
    ensures OffsetField(mem, k) == Offset(files, k) && SizeField(mem, k) == |files[k].data|
  {
    hide Flat, Body, Le, Num, NameOf, Name, Kept, Image, Pow256;
    RecordInImage(files, mem, k);
    RecordSlices(files[k].path, Offset(files, k), |files[k].data|);
    var r := mem[Base(k)..Base(k) + RECORD];
    assert mem[Base(k)..Base(k) + 128] == r[0..128];
    assert mem[Base(k) + 128..Base(k) + 136] == r[128..136];
    assert mem[Base(k) + 136..Base(k) + 144] == r[136..144];
    NameReadBack(files[k].path);
    FileAt(files, k);
    NumOfLe(Offset(files, k), 8);
    NumOfLe(|files[k].data|, 8);
  }

  lemma HeadReadsBack(files: seq<File>, mem: Bytes)
    requires Packable(files) && TABLE <= |mem| && |Image(files)| >= TABLE && mem[..TABLE] == Image(files)[..TABLE]
    ensures HasMagic(mem) && Num(mem[8..16]) == |files|
  {
    hide Flat, Body, Le, Num, Pow256;
    var image := Image(files);
    assert mem[0..8] == mem[..16][0..8] && mem[8..16] == mem[..16][8..16];
    assert image[..16] == MAGIC8 + Le(|files|, 8);
    assert (MAGIC8 + Le(|files|, 8))[8..16] == Le(|files|, 8);
    NumOfLe(|files|, 8);
  }

  /** The boot loader's size reaches the end of every file and no further than the image. */
  lemma {:induction false} MaxEndCovers(files: seq<File>, mem: Bytes, k: nat)
    requires Packable(files) && k <= |files|
    requires Base(|files|) <= |mem| && |Image(files)| >= Base(|files|)
      && mem[..Base(|files|)] == Image(files)[..Base(|files|)]
    ensures Base(k) <= |mem| && TABLE <= MaxEnd(mem, k) <= |Image(files)|
    ensures forall i :: 0 <= i < k ==> Offset(files, i) + |files[i].data| <= MaxEnd(mem, k)
    ensures k > 0 ==> Base(|files|) <= MaxEnd(mem, k)
    decreases k
  {
    hide Body, Image, OffsetField, SizeField, Packable;
    TableSize(files);
    if k > 0 {
      MaxEndCovers(files, mem, k - 1);
      FieldsReadBack(files, mem, k - 1);
      FileAt(files, k - 1);
    }
  }

  /** Looking through the records finds the first file of the name. */
  lemma {:induction false} FindIsFirst(files: seq<File>, img: Bytes, k: nat, path: Bytes)
    requires Packable(files) && k <= |files| && img <= Image(files)
    requires k < |files| ==> Base(|files|) <= |img|
    requires forall i :: 0 <= i < |files| ==> Offset(files, i) + |files[i].data| <= |img|
    ensures Find(img, k, |files|, path) == FirstFile(files, k, path)
    decreases |files| - k
  {
    hide Body, Image, Name, NameField, OffsetField, SizeField, Packable, Offset;
    if k < |files| {
      TableSize(files);
      FieldsReadBack(files, img, k);
      DataInImage(files, img, k);
      FindIsFirst(files, img, k + 1, path);
    }
  }

  lemma DataInImage(files: seq<File>, img: Bytes, k: nat)
    requires k < |files| && img <= Image(files) && Offset(files, k) + |files[k].data| <= |img|
    ensures img[Offset(files, k)..Offset(files, k) + |files[k].data|] == files[k].data
  {
    hide Body, Flat, Le;
    TableSize(files);
    FileAt(files, k);
    var image, base := Image(files), Base(|files|);
    var at, n := Offset(files, k), |files[k].data|;
    assert image[base..] == Body(base, files);
    assert image[at..at + n] == image[base..][at - base..at - base + n];
    assert img[at..at + n] == image[at..at + n];
  }

  /**
   * Whatever is packed and loaded, the kernel looking through as much of it as the boot loader
   * measured finds for every path exactly the first packed file of that name.
   */
  lemma PackedFilesAreFound(files: seq<File>, tail: Bytes, path: Bytes)
    requires Packable(files)
    ensures var mem := Image(files) + tail;
      && HasMagic(mem) && Num(mem[8..16]) == |files| && Base(|files|) <= |mem|
      && var size := MaxEnd(mem, |files|);
         size <= |Image(files)| && GetFile(mem[..size], path) == FirstFile(files, 0, path)
  {
    hide Body, Image, Find, FirstFile, OffsetField, SizeField, Packable;
    TableSize(files);
    var image, mem := Image(files), Image(files) + tail;
    assert mem[..Base(|files|)] == image[..Base(|files|)] && mem[..TABLE] == image[..TABLE];
    HeadReadsBack(files, mem);
    MaxEndCovers(files, mem, |files|);
    var img := mem[..MaxEnd(mem, |files|)];
    assert img <= image && img[..TABLE] == image[..TABLE];
    HeadReadsBack(files, img);
    FindIsFirst(files, img, 0, path);
  }

  // ----- which names those are -----

  /** `q` is the path with slashes for backslashes. */
  predicate Slashed(path: Bytes, q: Bytes) {
    |q| == |path| && forall i :: 0 <= i < |path| ==> q[i] == (if path[i] == 0x5C then 0x2F else path[i])
  }

  /** A path is found with slashes for its backslashes; of a long one the first 127 bytes count. */
  lemma FoundUnder(path: Bytes, q: Bytes)
    requires Slashed(path, q)
    ensures |path| < 128 ==> Name(path) == if Fdt.Utf8(q) then q else []
    ensures |path| >= 128 ==> Name(path) == if Fdt.Utf8(q[..127]) then q[..127] else []
  {
    hide Fdt.Utf8;
    assert Normalize(path) == q;
    assert q[..|path|] == q;
  }

  /** An ordinary path: UTF-8, shorter than 128 bytes, no backslash. */
  predicate Plain(path: Bytes) {
    Fdt.Utf8(path) && |path| < 128 && 0x5C !in path
  }

  /** Packed under different ordinary paths, every file is found under its own path, with its own data. */
  lemma EveryFileIsFound(files: seq<File>, tail: Bytes, i: nat)
    requires Packable(files) && i < |files|
    requires forall j :: 0 <= j <= i ==> Plain(files[j].path)
    requires forall j :: 0 <= j < i ==> files[j].path != files[i].path
    ensures HasMagic(Image(files) + tail) && Base(|files|) <= |Image(files) + tail|
    ensures MaxEnd(Image(files) + tail, |files|) <= |Image(files)|
    ensures GetFile((Image(files) + tail)[..MaxEnd(Image(files) + tail, |files|)], files[i].path) == Some(files[i].data)
  {
    hide Image, GetFile, MaxEnd, HasMagic, FirstFile, Packable;
    PackedFilesAreFound(files, tail, files[i].path);
    FirstIs(files, 0, i);
  }

  lemma {:induction false} FirstIs(files: seq<File>, k: nat, i: nat)
    requires k <= i < |files|
    requires forall j :: 0 <= j <= i ==> Plain(files[j].path)
    requires forall j :: 0 <= j < i ==> files[j].path != files[i].path
    ensures FirstFile(files, k, files[i].path) == Some(files[i].data)
    decreases i - k
  {
    hide Name, Fdt.Utf8;
    assert Plain(files[k].path);
    FoundUnder(files[k].path, files[k].path);
    if k < i {
      FirstIs(files, k + 1, i);
    }
  }
}
