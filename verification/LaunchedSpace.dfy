/**
 * An address space as the launcher leaves it (kernel/src/task/process.rs:232-250): the device page of
 * the serial port, the block that maps all of memory at its own addresses, its mirror in the high half,
 * and one page of the program.  Copies to and from that page work beside a memory object although the
 * block also maps the object, free frames and the page tables themselves.
 */
module LaunchedSpace {
  import opened Common
  import opened Phys
  import opened VmoLayout
  import opened VmoSpec
  import opened UserCopy
  import D = Descriptors
  import PW = PageWalk

  const ROOT: nat := 0x4010_0000
  const LOW: nat := 0x4010_1000
  const DEVICES: nat := 0x4010_2000
  const SERIAL: nat := 0x4010_3000
  const PROGRAM: nat := 0x4010_4000
  const PAGES: nat := 0x4010_5000
  const HIGH: nat := 0x4010_6000

  const UART: nat := 0x0900_0000
  const BLOCK: nat := 0x4000_0000
  const KERNEL: nat := 0xFFFF_8000_0000_0000

  /** Where the program's page is mapped, the frame behind it, and the object beside it. */
  const USER: nat := 0x8000_0000
  const FRAME: nat := 0x4030_0000
  const OBJECT: nat := 0x4020_0000

  /** A table with up to three entries. */
  function Row(a: nat, x: D.Pte, b: nat, y: D.Pte, c: nat, z: D.Pte): (t: D.Table)
    ensures forall k :: 0 <= k < D.ENTRIES ==>
      t[k] == if k == a then x else if k == b then y else if k == c then z else D.Pte(false, false, 0, 0, 0)
  {
    seq(D.ENTRIES, k => if k == a then x else if k == b then y else if k == c then z else D.Pte(false, false, 0, 0, 0))
  }

  function BlockDesc(): D.Pte {
    D.Pte(true, false, 0x1C0, BLOCK, 0)
  }

  function UserFlags(attr: D.MemAttr): D.MapFlags {
    D.MapFlags(attr, true, true, false, true)
  }

  function Tables(): D.Mem {
    var none := D.Pte(false, false, 0, 0, 0);
    map[ROOT := Row(0, D.TableDesc(LOW), 256, D.TableDesc(HIGH), 256, none),
        LOW := Row(0, D.TableDesc(DEVICES), 1, BlockDesc(), 2, D.TableDesc(PROGRAM)),
        HIGH := Row(1, BlockDesc(), 1, none, 1, none),
        DEVICES := Row(72, D.TableDesc(SERIAL), 72, none, 72, none),
        SERIAL := Row(0, D.PageDesc(UART, UserFlags(D.Device)), 0, none, 0, none),
        PROGRAM := Row(0, D.TableDesc(PAGES), 0, none, 0, none),
        PAGES := Row(0, D.PageDesc(FRAME, UserFlags(D.NormalCacheable)), 0, none, 0, none)]
  }

  function Launched(): Space {
    Space(Tables(), ROOT)
  }

  /** The memory: the object's two frames, a free frame after them, and the program's frame. */
  function Memory(): Ram {
    var r := SharedPage(OBJECT);
    r.(pages := r.pages[FRAME := Zeroed][OBJECT + 2 * PAGE_SIZE := Zeroed])
  }

  // ----- translations -----

  lemma Words()
    ensures D.TableDesc(LOW).addr == LOW && D.TableDesc(HIGH).addr == HIGH && D.TableDesc(DEVICES).addr == DEVICES
    ensures D.TableDesc(SERIAL).addr == SERIAL && D.TableDesc(PROGRAM).addr == PROGRAM
      && D.TableDesc(PAGES).addr == PAGES
    ensures D.PageDesc(UART, UserFlags(D.Device)).addr == UART
    ensures D.PageDesc(FRAME, UserFlags(D.NormalCacheable)).addr == FRAME
  {
  }

  /** The block maps all of memory at its own addresses. */
  lemma Identity(va: nat)
    requires BLOCK <= va < 2 * BLOCK
    ensures Translate(Launched(), va) == Some(va)
  {
    Words();
    assert D.Index(0, va) == 0 && D.Index(1, va) == 1;
    assert PW.Walk(Tables(), 1, LOW, va) == Some(va);
  }

  /** The mirror maps it once more. */
  lemma Mirror(va: nat)
    requires BLOCK <= va < 2 * BLOCK
    ensures Translate(Launched(), KERNEL + va) == Some(va)
  {
    Words();
    assert D.Index(0, KERNEL + va) == 256 && D.Index(1, KERNEL + va) == 1;
    assert PW.Walk(Tables(), 1, HIGH, KERNEL + va) == Some(va);
  }

  /** The serial port is mapped, and is no memory. */
  lemma Serial()
    ensures Translate(Launched(), UART) == Some(UART) && UART !in Memory().pages
  {
    hide Memory;
    Words();
    NoMemoryThere();
    assert D.Index(0, UART) == 0 && D.Index(1, UART) == 0 && D.Index(2, UART) == 72 && D.Index(3, UART) == 0;
    assert PW.Walk(Tables(), 3, SERIAL, UART) == Some(UART);
    assert PW.Walk(Tables(), 2, DEVICES, UART) == Some(UART);
    assert PW.Walk(Tables(), 1, LOW, UART) == Some(UART);
  }

  lemma NoMemoryThere()
    ensures UART !in Memory().pages
  {
  }

  /** The program's page. */
  lemma Program(va: nat)
    requires USER <= va < USER + PAGE_SIZE
    ensures Translate(Launched(), va) == Some(FRAME + va % PAGE_SIZE)
  {
    Words();
    assert D.Index(0, va) == 0 && D.Index(1, va) == 2 && D.Index(2, va) == 0 && D.Index(3, va) == 0;
    assert PW.Walk(Tables(), 3, PAGES, va) == Some(FRAME + va % PAGE_SIZE);
    assert PW.Walk(Tables(), 2, PROGRAM, va) == Some(FRAME + va % PAGE_SIZE);
    assert PW.Walk(Tables(), 1, LOW, va) == Some(FRAME + va % PAGE_SIZE);
  }

  // ----- copies -----

  /**
   * The program's page meets what the copies ask, beside the object, although the same space leads to
   * the serial port, to both frames of the object, to a free frame and to a page table.
   */
  lemma LaunchedIsBeside()
    ensures var r, v, sp := Memory(), SliceAt(OBJECT), Launched();
      && Beside(r, v, sp, USER, USER + PAGE_SIZE) && UserOk(r, sp, USER, USER + PAGE_SIZE)
      && UserCopy.Distinct(sp, USER, USER + PAGE_SIZE) && AllMapped(sp, USER, USER + PAGE_SIZE)
      && Mapped(sp, UART) && FrameOf(sp, UART) !in r.pages
      && Mapped(sp, OBJECT) && Uses(r, v, FrameOf(sp, OBJECT))
      && Mapped(sp, r.cursor) && !Settled(r, FrameOf(sp, r.cursor)) && r.cursor < r.end
      && Mapped(sp, ROOT) && FrameOf(sp, ROOT) in sp.tables
  {
    hide Good, Uses, MetaOk, Translate, Tables;
    var r, v, sp := Memory(), SliceAt(OBJECT), Launched();
    ObjectGood();
    Serial();
    Identity(OBJECT);
    Identity(r.cursor);
    Identity(ROOT);
    TablesAt();
    forall va: nat | USER <= va < USER + PAGE_SIZE ensures Mapped(sp, va) && FrameOf(sp, va) == FRAME {
      Program(va);
    }
    forall va: nat, vb: nat | USER <= va < USER + PAGE_SIZE && USER <= vb < USER + PAGE_SIZE && SameSpot(sp, va, vb)
      ensures va == vb
    {
    }
  }

  lemma TablesAt()
    ensures ROOT in Tables() && FRAME !in Tables()
  {
  }

  lemma ObjectGood()
    ensures Good(Memory(), SliceAt(OBJECT)) && MetaOk(Memory().pages, OBJECT, 1)
    ensures forall q: nat :: Uses(Memory(), SliceAt(OBJECT), q) <==> q == OBJECT || q == OBJECT + PAGE_SIZE
  {
    SharedPageGood(OBJECT);
    KeptGood(SharedPage(OBJECT), SliceAt(OBJECT), Memory());
  }

  /** A byte of that page is also reached at its own address and through the mirror. */
  lemma AlsoReached(va: nat)
    requires USER <= va < USER + PAGE_SIZE
    ensures Hit(Launched(), USER, USER + PAGE_SIZE, FRAME + va % PAGE_SIZE)
    ensures Hit(Launched(), USER, USER + PAGE_SIZE, KERNEL + (FRAME + va % PAGE_SIZE))
  {
    hide Translate, Launched;
    var pa := FRAME + va % PAGE_SIZE;
    Offsets(va % PAGE_SIZE);
    Program(va);
    Identity(pa);
    Mirror(pa);
    assert SameSpot(Launched(), va, pa);
    assert SameSpot(Launched(), va, KERNEL + pa);
  }

  lemma Offsets(o: nat)
    requires o < PAGE_SIZE
    ensures (FRAME + o) % PAGE_SIZE == o && (KERNEL + (FRAME + o)) % PAGE_SIZE == o
  {
  }
}
