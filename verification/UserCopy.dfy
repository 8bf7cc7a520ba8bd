/**
 * Copies between user memory and the kernel (kernel/src/syscall/validation.rs,
 * kernel/src/syscall/handlers/ipc.rs and memory.rs).  A user address is translated by the walk through
 * the process's page tables; the frames it leads to hold the user's bytes.
 */
module UserCopy {
  import opened Arith
  import opened Common
  import opened Phys
  import opened VmoLayout
  import opened VmoSpec
  import opened VmoObject
  import D = Descriptors
  import PW = PageWalk

  const TOP: nat := 0x1_0000_0000_0000_0000

  /** The page tables of a process: the memory they live in and the address of the root. */
  datatype Space = Space(tables: D.Mem, root: nat)

  // ----- translation -----

  /** `translate_user_va`. */
  function Translate(sp: Space, va: nat): Option<nat> {
    PW.Walk(sp.tables, 0, sp.root, va)
  }

  predicate Mapped(sp: Space, va: nat) {
    Translate(sp, va).Some?
  }

  /** The frame that backs the page of `va`. */
  function FrameOf(sp: Space, va: nat): nat
    requires Mapped(sp, va)
  {
    PW.PageUniform(sp.tables, 0, sp.root, va, va / PAGE_SIZE * PAGE_SIZE);
    Translate(sp, va).value - va % PAGE_SIZE
  }

  /** Addresses of one page are mapped together and share their frame. */
  lemma SamePage(sp: Space, va: nat, vb: nat)
    requires va / PAGE_SIZE == vb / PAGE_SIZE
    ensures Mapped(sp, va) <==> Mapped(sp, vb)
    ensures Mapped(sp, va) ==> FrameOf(sp, va) == FrameOf(sp, vb)
  {
    PW.PageUniform(sp.tables, 0, sp.root, va, vb);
  }

  ghost predicate AllMapped(sp: Space, low: nat, high: nat) {
    forall va: nat :: low <= va < high ==> Mapped(sp, va)
  }

  /** All the bytes of a page from `va` on share its translation. */
  lemma PageMapped(sp: Space, va: nat, high: nat)
    requires Mapped(sp, va) && high <= va / PAGE_SIZE * PAGE_SIZE + PAGE_SIZE
    ensures AllMapped(sp, va, high)
  {
    hide Mapped;
    forall a: nat | va <= a < high ensures Mapped(sp, a) {
      assert a / PAGE_SIZE == va / PAGE_SIZE;
      SamePage(sp, va, a);
    }
  }

  // ----- validation -----

  /** One probe per page decides for every byte, provided the range does not run over the top. */
  method ValidateRange(sp: Space, ptr: nat, len: nat) returns (ok: bool)
    requires ptr < TOP
    ensures ok <==> sp.root != 0 && if len == 0 then Mapped(sp, ptr)
      else ptr + len < TOP && AllMapped(sp, ptr, ptr + len)
  {
    hide Mapped;
    if sp.root == 0 {
      return false;
    }
    if len == 0 {
      return Mapped(sp, ptr);
    }
    var end := ptr + len;
    if end >= TOP {
      return false;
    }
    var addr := ptr;
    while true
      invariant ptr <= addr < end && AllMapped(sp, ptr, addr)
      decreases end - addr
    {
      if !Mapped(sp, addr) {
        return false;
      }
      if addr >= end - 1 {
        return true;
      }
      var next := addr / PAGE_SIZE * PAGE_SIZE + PAGE_SIZE;
      PageMapped(sp, addr, if next < end then next else end - 1);
      addr := if next < end then next else end - 1;
    }
  }

  // ----- user bytes -----

  function UserByte(r: Ram, sp: Space, va: nat): nat {
    if Mapped(sp, va) && FrameOf(sp, va) in r.pages then BytesOf(r.pages[FrameOf(sp, va)])[va % PAGE_SIZE] else 0
  }

  function UserBytes(r: Ram, sp: Space, va: nat, n: nat): (s: seq<nat>)
    ensures |s| == n
  {
    seq<nat>(n, k requires 0 <= k < n => UserByte(r, sp, va + k))
  }

  /** Where the range translates, it leads to memory that holds no page table. */
  ghost predicate UserOk(r: Ram, sp: Space, low: nat, high: nat) {
    forall va: nat :: low <= va < high && Mapped(sp, va) ==> FrameOf(sp, va) in r.pages && FrameOf(sp, va) !in sp.tables
  }

  /** Two addresses lead to the same byte of physical memory. */
  predicate SameSpot(sp: Space, va: nat, vb: nat) {
    Mapped(sp, va) && Mapped(sp, vb) && FrameOf(sp, va) == FrameOf(sp, vb) && va % PAGE_SIZE == vb % PAGE_SIZE
  }

  /** No two pages of the range share a frame. */
  ghost predicate Distinct(sp: Space, low: nat, high: nat) {
    forall va: nat, vb: nat :: low <= va < high && low <= vb < high && SameSpot(sp, va, vb) ==> va == vb
  }

  /** Byte `va` of user memory is also reached through `low..high`. */
  ghost predicate Hit(sp: Space, low: nat, high: nat, va: nat) {
    exists x: nat :: low <= x < high && SameSpot(sp, x, va)
  }

  /** Whatever is not reached through `low..high` is the same. */
  ghost predicate SameOutside(r: Ram, s: Ram, sp: Space, low: nat, high: nat) {
    forall va: nat :: !Hit(sp, low, high, va) ==> UserByte(s, sp, va) == UserByte(r, sp, va)
  }

  lemma SplitBytes(r: Ram, sp: Space, va: nat, n: nat, m: nat)
    ensures UserBytes(r, sp, va, n + m) == UserBytes(r, sp, va, n) + UserBytes(r, sp, va + n, m)
  {
    var a, b := UserBytes(r, sp, va, n + m), UserBytes(r, sp, va, n) + UserBytes(r, sp, va + n, m);
    forall k | 0 <= k < n + m ensures a[k] == b[k] {
      if k >= n {
        assert va + k == (va + n) + (k - n);
      }
    }
  }

  /** A piece of one user page. */
  lemma PieceOfPage(r: Ram, sp: Space, va: nat, n: nat)
    requires Mapped(sp, va) && FrameOf(sp, va) in r.pages && va % PAGE_SIZE + n <= PAGE_SIZE
    ensures UserBytes(r, sp, va, n) == BytesOf(r.pages[FrameOf(sp, va)])[va % PAGE_SIZE..va % PAGE_SIZE + n]
  {
    hide Mapped, FrameOf, BytesOf;
    var page := BytesOf(r.pages[FrameOf(sp, va)]);
    forall k | 0 <= k < n ensures UserBytes(r, sp, va, n)[k] == page[va % PAGE_SIZE..va % PAGE_SIZE + n][k] {
      assert (va + k) / PAGE_SIZE == va / PAGE_SIZE && (va + k) % PAGE_SIZE == va % PAGE_SIZE + k;
      SamePage(sp, va, va + k);
      assert UserBytes(r, sp, va, n)[k] == UserByte(r, sp, va + k) == page[va % PAGE_SIZE + k];
    }
  }

  /** Storing into one user page changes exactly the bytes reached through that piece. */
  lemma StoreInUser(r: Ram, sp: Space, va: nat, d: seq<nat>)
    requires Mapped(sp, va) && FrameOf(sp, va) in r.pages && va % PAGE_SIZE + |d| <= PAGE_SIZE
    ensures var s := VmoSpec.Stored(r, FrameOf(sp, va), va % PAGE_SIZE, d);
      && s.pages.Keys == r.pages.Keys
      && SameOutside(r, s, sp, va, va + |d|) && UserBytes(s, sp, va, |d|) == d
  {
    hide Mapped, FrameOf, BytesOf, Splice, UserBytes;
    var f, at := FrameOf(sp, va), va % PAGE_SIZE;
    var s := VmoSpec.Stored(r, f, at, d);
    var page := BytesOf(r.pages[f]);
    StoredBytes(r, f, at, d);
    forall a: nat | !Hit(sp, va, va + |d|, a) ensures UserByte(s, sp, a) == UserByte(r, sp, a) {
      if Mapped(sp, a) && FrameOf(sp, a) == f {
        assert !(at <= a % PAGE_SIZE < at + |d|) by {
          if at <= a % PAGE_SIZE < at + |d| {
            HitsPiece(sp, va, |d|, a);
          }
        }
        SpliceAt(page, at, d, a % PAGE_SIZE);
      }
    }
    PieceOfPage(s, sp, va, |d|);
  }

  lemma StoredBytes(r: Ram, f: nat, at: nat, d: seq<nat>)
    requires f in r.pages && at + |d| <= PAGE_SIZE
    ensures var after := BytesOf(VmoSpec.Stored(r, f, at, d).pages[f]);
      after == Splice(BytesOf(r.pages[f]), at, d) && after[at..at + |d|] == d
  {
  }

  /** A byte of the same frame whose offset lies in the piece is reached through it. */
  lemma HitsPiece(sp: Space, va: nat, n: nat, a: nat)
    requires Mapped(sp, va) && Mapped(sp, a) && FrameOf(sp, a) == FrameOf(sp, va) && va % PAGE_SIZE + n <= PAGE_SIZE
    requires va % PAGE_SIZE <= a % PAGE_SIZE < va % PAGE_SIZE + n
    ensures Hit(sp, va, va + n, a)
  {
    hide Mapped, FrameOf;
    var x := va + (a % PAGE_SIZE - va % PAGE_SIZE);
    assert x / PAGE_SIZE == va / PAGE_SIZE && x % PAGE_SIZE == a % PAGE_SIZE;
    SamePage(sp, va, x);
    assert SameSpot(sp, x, a);
  }

  /** Bytes of a range that shares no byte of memory with the one written are as they were. */
  lemma ApartRangesKept(r: Ram, s: Ram, sp: Space, low: nat, high: nat, a: nat, n: nat)
    requires SameOutside(r, s, sp, low, high)
    requires forall x: nat, y: nat :: low <= x < high && a <= y < a + n ==> !SameSpot(sp, x, y)
    ensures UserBytes(s, sp, a, n) == UserBytes(r, sp, a, n)
  {
    hide SameSpot, UserByte;
    forall k | 0 <= k < n ensures UserBytes(s, sp, a, n)[k] == UserBytes(r, sp, a, n)[k] {
      assert !Hit(sp, low, high, a + k);
    }
  }

  // ----- the 48-bit space -----

  /** Bits 48 to 63 of an address take no part in its translation. */
  lemma {:induction false} HighBitsIgnored(m: D.Mem, level: nat, t: nat, va: nat)
    requires level <= 3
    ensures PW.Walk(m, level, t, va) == PW.Walk(m, level, t, va % D.VA_SPAN)
    decreases 3 - level
  {
    LowBits(level, va);
    var e := PW.Entry(m, t, D.Index(level, va));
    if e.present && level < 3 && !(level > 0 && !e.table) {
      HighBitsIgnored(m, level + 1, e.addr, va);
    }
  }

  /** Dropping whole multiples of `n * 512` spans changes neither the index nor the offset. */
  lemma Dropped(q: nat, w: nat, span: nat, n: nat)
    requires span > 0
    ensures var va := q * n * 512 * span + w;
      va / span % 512 == w / span % 512 && va % span == w % span
  {
    var x, o := w / span, w % span;
    var va := q * n * 512 * span + w;
    assert va == (q * n * 512 + x) * span + o;
    DivUnique(va, span, q * n * 512 + x, o);
    DivUnique(q * n * 512 + x, 512, q * n + x / 512, x % 512);
  }

  lemma LowBits(level: nat, va: nat)
    requires level <= 3
    ensures D.Index(level, va % D.VA_SPAN) == D.Index(level, va)
    ensures va % D.VA_SPAN % D.EntrySpan(level) == va % D.EntrySpan(level)
  {
    var q, w := va / D.VA_SPAN, va % D.VA_SPAN;
    var n := if level == 0 then 1 else if level == 1 then 512 else if level == 2 then 0x4_0000 else 0x800_0000;
    assert va == q * n * 512 * D.EntrySpan(level) + w;
    Dropped(q, w, D.EntrySpan(level), n);
  }

  /** So an address is reached through a range exactly when its lower 48 bits are. */
  lemma HitFolds(sp: Space, low: nat, high: nat, va: nat)
    ensures Hit(sp, low, high, va) <==> Hit(sp, low, high, va % D.VA_SPAN)
  {
    hide Mapped, FrameOf;
    FoldedSpot(sp, va);
    if Hit(sp, low, high, va) {
      var x: nat :| low <= x < high && SameSpot(sp, x, va);
      assert SameSpot(sp, x, va % D.VA_SPAN);
    }
    if Hit(sp, low, high, va % D.VA_SPAN) {
      var x: nat :| low <= x < high && SameSpot(sp, x, va % D.VA_SPAN);
      assert SameSpot(sp, x, va);
    }
  }

  lemma FoldedSpot(sp: Space, va: nat)
    ensures Mapped(sp, va) <==> Mapped(sp, va % D.VA_SPAN)
    ensures Mapped(sp, va) ==> FrameOf(sp, va) == FrameOf(sp, va % D.VA_SPAN)
    ensures va % D.VA_SPAN % PAGE_SIZE == va % PAGE_SIZE
  {
    HighBitsIgnored(sp.tables, 0, sp.root, va);
    LowBits(3, va);
  }

  /** Length of the next piece: to the end of the user page at most. */
  method Piece(va: nat, left: nat) returns (n: nat)
    requires left > 0
    ensures 0 < n <= left && va % PAGE_SIZE + n <= PAGE_SIZE
    ensures n == Min(left, PAGE_SIZE - va % PAGE_SIZE)
  {
    n := Min(left, PAGE_SIZE - va % PAGE_SIZE);
  }

  // ----- plain copies -----

  /** Fetches user bytes into a buffer, page by page; fails at the first unmapped byte. */
  method SafeCopyFromUser(mem: PhysMemory<Frame>, sp: Space, src: nat, len: nat, dest: array<nat>) returns (ok: bool)
    requires MemoryOk(mem) && UserOk(RamOf(mem), sp, src, src + len) && len <= dest.Length
    modifies dest
    ensures ok <==> sp.root != 0 && AllMapped(sp, src, src + len)
    ensures ok ==> dest[..len] == UserBytes(RamOf(mem), sp, src, len)
    ensures dest[len..] == old(dest[..])[len..]
  {
    hide UserBytes, Phys.PhysMemory.Valid;
    ghost var r := RamOf(mem);
    if sp.root == 0 {
      return false;
    }
    var copied: nat := 0;
    NoBytes(r, sp, src);
    while copied < len
      invariant copied <= len && AllMapped(sp, src, src + copied)
      invariant dest[..copied] == UserBytes(r, sp, src, copied)
      invariant forall k :: copied <= k < dest.Length ==> dest[k] == old(dest[k])
    {
      var va := src + copied;
      if !Mapped(sp, va) {
        return false;
      }
      var n := Piece(va, len - copied);
      var page := BytesOf(mem.pages[FrameOf(sp, va)]);
      PieceOfPage(r, sp, va, n);
      PageMapped(sp, va, va + n);
      SplitBytes(r, sp, src, copied, n);
      var d := page[va % PAGE_SIZE..va % PAGE_SIZE + n];
      ghost var before := dest[..copied];
      CopyOut(d, dest, copied);
      assert dest[..copied + n] == before + d;
      copied := copied + n;
    }
    return true;
  }

  lemma NoBytes(r: Ram, sp: Space, va: nat)
    ensures UserBytes(r, sp, va, 0) == []
  {
  }

  /** Delivers bytes to user memory, page by page; fails at the first unmapped byte. */
  method SafeCopyToUser(mem: PhysMemory<Frame>, sp: Space, src: seq<nat>, dst: nat) returns (ok: bool)
    requires MemoryOk(mem) && UserOk(RamOf(mem), sp, dst, dst + |src|)
    modifies mem`pages
    ensures MemoryOk(mem) && UserOk(RamOf(mem), sp, dst, dst + |src|)
    ensures ok <==> sp.root != 0 && AllMapped(sp, dst, dst + |src|)
    ensures ok && Distinct(sp, dst, dst + |src|) ==> UserBytes(RamOf(mem), sp, dst, |src|) == src
    ensures SameOutside(old(RamOf(mem)), RamOf(mem), sp, dst, dst + |src|)
  {
    hide UserBytes, Phys.PhysMemory.Valid, VmoSpec.Stored, SameOutside, Distinct, FrameOf;
    ghost var r := RamOf(mem);
    OutsideRefl(r, sp, dst, dst + |src|);
    if sp.root == 0 {
      return false;
    }
    var copied: nat := 0;
    NoBytes(r, sp, dst);
    OutsideRefl(r, sp, dst, dst);
    while copied < |src|
      invariant copied <= |src| && MemoryOk(mem) && mem.pages.Keys == r.pages.Keys && AllMapped(sp, dst, dst + copied)
      invariant Distinct(sp, dst, dst + |src|) ==> UserBytes(RamOf(mem), sp, dst, copied) == src[..copied]
      invariant SameOutside(r, RamOf(mem), sp, dst, dst + copied)
    {
      var va := dst + copied;
      OutsideWider(r, RamOf(mem), sp, dst, va, dst + |src|);
      if !Mapped(sp, va) {
        return false;
      }
      var n := Piece(va, |src| - copied);
      var d := src[copied..copied + n];
      ghost var s := RamOf(mem);
      StoreInUser(s, sp, va, d);
      StoreUser(mem, sp, va, d);
      if Distinct(sp, dst, dst + |src|) {
        StillThere(s, RamOf(mem), sp, dst, copied, n, |src|);
      }
      WiderOutside(r, s, RamOf(mem), sp, dst, copied, n);
      PageMapped(sp, va, va + n);
      SplitBytes(RamOf(mem), sp, dst, copied, n);
      assert src[..copied] + d == src[..copied + n];
      copied := copied + n;
    }
    return true;
  }

  /** Copies `d` into the user page at `va`. */
  method StoreUser(mem: PhysMemory<Frame>, sp: Space, va: nat, d: seq<nat>)
    requires MemoryOk(mem) && Mapped(sp, va) && FrameOf(sp, va) in mem.pages && va % PAGE_SIZE + |d| <= PAGE_SIZE
    modifies mem`pages
    ensures MemoryOk(mem) && RamOf(mem) == VmoSpec.Stored(old(RamOf(mem)), FrameOf(sp, va), va % PAGE_SIZE, d)
  {
    hide Phys.PhysMemory.Valid;
    var f := FrameOf(sp, va);
    mem.Store(f, Data(Splice(BytesOf(mem.pages[f]), va % PAGE_SIZE, d)));
  }

  /** Bytes before the piece just written are still there. */
  lemma StillThere(r: Ram, s: Ram, sp: Space, base: nat, k: nat, n: nat, len: nat)
    requires SameOutside(r, s, sp, base + k, base + k + n) && k + n <= len && Distinct(sp, base, base + len)
    ensures UserBytes(s, sp, base, k) == UserBytes(r, sp, base, k)
  {
    hide SameSpot, UserByte;
    forall j | 0 <= j < k ensures UserBytes(s, sp, base, k)[j] == UserBytes(r, sp, base, k)[j] {
      assert !Hit(sp, base + k, base + k + n, base + j);
    }
  }

  /** Two stretches written one after the other are one stretch written. */
  lemma WiderOutside(r: Ram, s: Ram, t: Ram, sp: Space, base: nat, k: nat, n: nat)
    requires SameOutside(r, s, sp, base, base + k) && SameOutside(s, t, sp, base + k, base + k + n)
    ensures SameOutside(r, t, sp, base, base + k + n)
  {
    hide SameSpot, UserByte;
    forall va: nat | !Hit(sp, base, base + k + n, va) ensures UserByte(t, sp, va) == UserByte(r, sp, va) {
      assert !Hit(sp, base, base + k, va) && !Hit(sp, base + k, base + k + n, va);
    }
  }

  lemma OutsideRefl(r: Ram, sp: Space, low: nat, high: nat)
    ensures SameOutside(r, r, sp, low, high)
  {
  }

  lemma OutsideWider(r: Ram, s: Ram, sp: Space, low: nat, high: nat, wider: nat)
    requires SameOutside(r, s, sp, low, high) && high <= wider
    ensures SameOutside(r, s, sp, low, wider)
  {
    hide UserByte, SameSpot;
    forall va: nat | !Hit(sp, low, wider, va) ensures UserByte(s, sp, va) == UserByte(r, sp, va) {
      assert !Hit(sp, low, high, va);
    }
  }

  // ----- memory objects and user memory -----

  /** `va` leads to memory the allocator will not hand out and the object does not use. */
  ghost predicate Steady(r: Ram, v: Vmo, sp: Space, va: nat)
    requires MetaOk(r.pages, v.meta, v.n)
  {
    Mapped(sp, va) && Settled(r, FrameOf(sp, va)) && !Uses(r, v, FrameOf(sp, va))
  }

  /** The object is sound, and the range of user memory, where it translates, is apart from it. */
  ghost predicate Beside(r: Ram, v: Vmo, sp: Space, low: nat, high: nat) {
    && Good(r, v)
    && (forall va: nat :: low <= va < high && Mapped(sp, va) ==> Steady(r, v, sp, va) && FrameOf(sp, va) !in sp.tables)
  }

  /** Frames apart from the object stay apart from it. */
  ghost predicate StaysApart(r: Ram, v: Vmo, s: Ram, w: Vmo) {
    && Good(r, v) && Good(s, w)
    && (forall q: nat :: Settled(r, q) && !Uses(r, v, q) ==> Settled(s, q) && !Uses(s, w, q))
  }

  /** Every byte apart from the object is as it was. */
  ghost predicate SameApart(r: Ram, v: Vmo, s: Ram, sp: Space)
    requires MetaOk(r.pages, v.meta, v.n)
  {
    forall va: nat :: Steady(r, v, sp, va) ==> UserByte(s, sp, va) == UserByte(r, sp, va)
  }

  /** Every byte apart from the object and not reached through `low..high` is as it was. */
  ghost predicate SameApartOutside(r: Ram, v: Vmo, s: Ram, sp: Space, low: nat, high: nat)
    requires MetaOk(r.pages, v.meta, v.n)
  {
    forall va: nat :: Steady(r, v, sp, va) && !Hit(sp, low, high, va) ==> UserByte(s, sp, va) == UserByte(r, sp, va)
  }

  /** Work on the object leaves everything apart from it alone, whatever else the space maps. */
  lemma ObjectStepKeepsUser(r: Ram, v: Vmo, s: Ram, w: Vmo, sp: Space)
    requires Good(r, v) && Reaches(r, v, s, w) && Good(s, w)
    ensures StaysApart(r, v, s, w) && SameApart(r, v, s, sp)
  {
    hide MetaOk, Uses, Mapped, FrameOf, BytesOf;
    GoodFacts(r, v);
    GoodFacts(s, w);
    assert forall q: nat :: Settled(r, q) && !Uses(r, v, q) ==> Settled(s, q);
    forall va: nat | Steady(r, v, sp, va) ensures UserByte(s, sp, va) == UserByte(r, sp, va) {
      var q := FrameOf(sp, va);
      assert q in s.pages && s.pages[q] == r.pages[q];
    }
  }

  /** Work on user memory apart from the object leaves the object alone. */
  lemma UserStepKeepsObject(r: Ram, v: Vmo, sp: Space, va: nat, d: seq<nat>)
    requires Good(r, v) && Steady(r, v, sp, va) && va % PAGE_SIZE + |d| <= PAGE_SIZE
    ensures var s := VmoSpec.Stored(r, FrameOf(sp, va), va % PAGE_SIZE, d);
      StaysApart(r, v, s, v) && Content(s, v) == Content(r, v)
  {
    hide Mapped, FrameOf, BytesOf, Splice;
    var s := VmoSpec.Stored(r, FrameOf(sp, va), va % PAGE_SIZE, d);
    forall q: nat | Uses(r, v, q) ensures q in r.pages && s.pages[q] == r.pages[q] {
      UsedSettled(r, v, q);
    }
    KeptGood(r, v, s);
  }

  lemma ApartRefl(r: Ram, v: Vmo, sp: Space, low: nat)
    requires Good(r, v)
    ensures StaysApart(r, v, r, v) && SameApart(r, v, r, sp) && SameApartOutside(r, v, r, sp, low, low)
  {
  }

  lemma ApartTrans(r: Ram, v: Vmo, s: Ram, w: Vmo, t: Ram, x: Vmo)
    requires StaysApart(r, v, s, w) && StaysApart(s, w, t, x)
    ensures StaysApart(r, v, t, x)
  {
    hide MetaOk, Uses;
    GoodFacts(r, v);
    GoodFacts(s, w);
    GoodFacts(t, x);
  }

  lemma BesideKept(r: Ram, v: Vmo, s: Ram, w: Vmo, sp: Space, low: nat, high: nat)
    requires Beside(r, v, sp, low, high) && StaysApart(r, v, s, w)
    ensures Beside(s, w, sp, low, high)
  {
    hide MetaOk, Uses, Mapped, FrameOf;
    GoodFacts(r, v);
    GoodFacts(s, w);
  }

  /** What a range beside the object reads as does not change with the object. */
  lemma BesideSame(r: Ram, v: Vmo, s: Ram, sp: Space, low: nat, high: nat, va: nat, n: nat)
    requires Beside(r, v, sp, low, high) && SameApart(r, v, s, sp) && low <= va && va + n <= high
    ensures UserBytes(s, sp, va, n) == UserBytes(r, sp, va, n)
  {
    hide MetaOk, Uses, FrameOf;
    GoodFacts(r, v);
    forall k | 0 <= k < n ensures UserBytes(s, sp, va, n)[k] == UserBytes(r, sp, va, n)[k] {
      assert Mapped(sp, va + k) ==> Steady(r, v, sp, va + k);
      assert UserByte(s, sp, va + k) == UserByte(r, sp, va + k);
    }
  }

  lemma BesideAt(r: Ram, v: Vmo, sp: Space, low: nat, high: nat, va: nat)
    requires Beside(r, v, sp, low, high) && low <= va < high && Mapped(sp, va)
    ensures MetaOk(r.pages, v.meta, v.n) && Steady(r, v, sp, va) && FrameOf(sp, va) in r.pages
  {
  }

  /** The next piece: within one page of the object and within one user page. */
  method BothPieces(off: nat, va: nat, left: nat) returns (n: nat)
    requires left > 0
    ensures 0 < n <= left && va % PAGE_SIZE + n <= PAGE_SIZE && off % PAGE_SIZE + n <= PAGE_SIZE
  {
    n := Min(Min(PAGE_SIZE - off % PAGE_SIZE, PAGE_SIZE - va % PAGE_SIZE), left);
  }

  /** Commits page `i` if it has no frame; the contents do not show it. */
  method EnsurePage(v: MemoryObject, i: nat) returns (ok: bool)
    requires v.Valid() && i < v.size / PAGE_SIZE
    modifies v, v.mem
    ensures v.Valid() && v.Contents() == old(v.Contents())
    ensures Reaches(old(RamOf(v.mem)), old(v.View()), RamOf(v.mem), v.View())
    ensures !ok ==> Exhausted(v.mem)
  {
    hide Good, Content, Reaches, Owned, PageBytes, MetaOk, Phys.PhysMemory.Valid, Entered;
    ghost var r0, v0 := RamOf(v.mem), v.View();
    GoodFacts(r0, v0);
    PositionInPage(i * PAGE_SIZE, v.size);
    ReachesRefl(r0, v0);
    var pa := v.PageSlot(i);
    if pa.Some? {
      return true;
    }
    SliceNeverBorrows(r0, v0, i);
    var c := v.CommitPage(i * PAGE_SIZE);
    if c.Err? {
      SamePagesSameBytes(r0, v0, RamOf(v.mem));
      return false;
    }
    CommitsEffect(r0, v0, i, c.value.value, RamOf(v.mem), v.View());
    return true;
  }

  /** Copies a piece of object page `i` to the user page at `va`. */
  method DeliverPiece(v: MemoryObject, sp: Space, i: nat, at: nat, va: nat, n: nat)
    requires v.Valid() && MetaOk(v.mem.pages, v.meta, v.size / PAGE_SIZE) && Steady(RamOf(v.mem), v.View(), sp, va)
    requires i < v.size / PAGE_SIZE && i * PAGE_SIZE + at + n <= |v.Contents()|
    requires at + n <= PAGE_SIZE && va % PAGE_SIZE + n <= PAGE_SIZE
    modifies v.mem`pages
    ensures v.Valid() && v.Contents() == old(v.Contents())
    ensures StaysApart(old(RamOf(v.mem)), old(v.View()), RamOf(v.mem), v.View())
    ensures UserBytes(RamOf(v.mem), sp, va, n) == v.Contents()[i * PAGE_SIZE + at..i * PAGE_SIZE + at + n]
    ensures SameOutside(old(RamOf(v.mem)), RamOf(v.mem), sp, va, va + n)
  {
    hide Good, Content, PageBytes, MetaOk, Uses, Phys.PhysMemory.Valid, UserBytes, VmoSpec.Stored, BytesOf;
    hide SameOutside, UserByte, Mapped, FrameOf, StaysApart;
    ghost var r := RamOf(v.mem);
    var page := v.PageOut(i);
    PageInContents(r, v.View(), i, at, n);
    var d := page[at..at + n];
    UserStepKeepsObject(r, v.View(), sp, va, d);
    StoreInUser(r, sp, va, d);
    StoreUser(v.mem, sp, va, d);
    ApartGood(r, v.View(), RamOf(v.mem), v.View());
  }

  lemma ApartGood(r: Ram, v: Vmo, s: Ram, w: Vmo)
    requires StaysApart(r, v, s, w)
    ensures Good(r, v) && Good(s, w)
  {
  }

  /** How many bytes a transfer of at most `len` bytes at `offset` moves. */
  function Span(size: nat, offset: nat, len: nat): nat {
    if offset >= size then 0 else Min(len, size - offset)
  }

  /**
   * Reading an object into user memory, in pieces that fit a page on both sides: the same as one
   * plain read and one plain copy.  Pages committed on the way do not show.  Only the range written
   * has to be apart from the object; everything else apart from it stays as it was.
   */
  method SysVmoRead(v: MemoryObject, sp: Space, offset: nat, dst: nat, len: nat) returns (r: Result<nat>)
    requires v.Valid() && Beside(RamOf(v.mem), v.View(), sp, dst, dst + Span(v.size, offset, len))
    modifies v, v.mem
    ensures v.Valid() && v.Contents() == old(v.Contents())
    ensures StaysApart(old(RamOf(v.mem)), old(v.View()), RamOf(v.mem), v.View())
    ensures MetaOk(old(v.mem.pages), v.meta, v.size / PAGE_SIZE)
    ensures SameApartOutside(old(RamOf(v.mem)), old(v.View()), RamOf(v.mem), sp, dst, dst + Span(v.size, offset, len))
    ensures r.Ok? ==> r.value == Span(v.size, offset, len) && AllMapped(sp, dst, dst + r.value)
    ensures r.Ok? ==> r.value == if offset >= v.size then 0 else Min(len, v.size - offset)
    ensures r.Ok? && offset < v.size && Distinct(sp, dst, dst + r.value) ==>
      UserBytes(RamOf(v.mem), sp, dst, r.value) == old(v.Contents())[offset..offset + r.value]
    ensures r == Err(InvalidArgs) ==> !AllMapped(sp, dst, dst + Span(v.size, offset, len))
    ensures r.Err? && r.error != InvalidArgs ==> r.error == NoMemory && Exhausted(v.mem)
  {
    hide Good, Content, Reaches, PageBytes, MetaOk, Uses, Phys.PhysMemory.Valid, Beside, UserBytes, VmoSpec.Stored;
    hide BytesOf;
    hide SameOutside, SameApart, SameApartOutside, StaysApart, Steady, Distinct, UserByte, Hit, Mapped, FrameOf;
    ghost var ram, v0 := RamOf(v.mem), v.View();
    ghost var bytes := v.Contents();
    GoodFacts(ram, v0);
    ApartRefl(ram, v0, sp, dst);
    if offset >= v.size {
      return Ok(0);
    }
    var total := Min(len, v.size - offset);
    var copied: nat := 0;
    NoBytes(ram, sp, dst);
    while copied < total
      invariant copied <= total && v.Valid() && v.Contents() == bytes && AllMapped(sp, dst, dst + copied)
      invariant StaysApart(ram, v0, RamOf(v.mem), v.View())
        && SameApartOutside(ram, v0, RamOf(v.mem), sp, dst, dst + copied)
      invariant Distinct(sp, dst, dst + total) ==>
        UserBytes(RamOf(v.mem), sp, dst, copied) == bytes[offset..offset + copied]
    {
      var off, va := offset + copied, dst + copied;
      ApartWider(ram, v0, RamOf(v.mem), sp, dst, va, dst + total);
      if !Mapped(sp, va) {
        return Err(InvalidArgs);
      }
      ghost var r1, v1 := RamOf(v.mem), v.View();
      BesideKept(ram, v0, r1, v1, sp, dst, dst + total);
      GoodFacts(r1, v1);
      var n := ReadPiece(v, sp, off, dst, copied, total);
      PieceMoved(ram, v0, r1, v1, RamOf(v.mem), v.View(), sp, dst, copied, n);
      if n == 0 {
        ApartWider(ram, v0, RamOf(v.mem), sp, dst, va, dst + total);
        return Err(NoMemory);
      }
      copied := copied + n;
      assert bytes[offset..offset + copied] == bytes[offset..off] + bytes[off..off + n];
    }
    return Ok(total);
  }

  lemma ApartWider(r: Ram, v: Vmo, s: Ram, sp: Space, low: nat, high: nat, wider: nat)
    requires MetaOk(r.pages, v.meta, v.n) && SameApartOutside(r, v, s, sp, low, high) && high <= wider
    ensures SameApartOutside(r, v, s, sp, low, wider)
  {
    hide UserByte, SameSpot, Steady, MetaOk;
    forall va: nat | Steady(r, v, sp, va) && !Hit(sp, low, wider, va)
      ensures UserByte(s, sp, va) == UserByte(r, sp, va)
    {
      assert !Hit(sp, low, high, va);
    }
  }

  /** Another piece written through `low + k..low + k + n`. */
  lemma PieceMoved(r: Ram, v: Vmo, s: Ram, w: Vmo, t: Ram, x: Vmo, sp: Space, low: nat, k: nat, n: nat)
    requires StaysApart(r, v, s, w) && StaysApart(s, w, t, x)
    requires MetaOk(r.pages, v.meta, v.n) && SameApartOutside(r, v, s, sp, low, low + k)
    requires MetaOk(s.pages, w.meta, w.n) && SameApartOutside(s, w, t, sp, low + k, low + k + n)
    ensures StaysApart(r, v, t, x) && SameApartOutside(r, v, t, sp, low, low + k + n)
  {
    hide UserByte, SameSpot, MetaOk, Uses, Mapped, FrameOf, Good;
    ApartTrans(r, v, s, w, t, x);
    forall va: nat | Steady(r, v, sp, va) && !Hit(sp, low, low + k + n, va)
      ensures UserByte(t, sp, va) == UserByte(r, sp, va)
    {
      assert Steady(s, w, sp, va) && !Hit(sp, low, low + k, va) && !Hit(sp, low + k, low + k + n, va);
    }
  }

  /** A commit, and bytes written through `low..high` after it. */
  lemma CommittedThenWritten(r: Ram, v: Vmo, s: Ram, w: Vmo, t: Ram, sp: Space, low: nat, high: nat)
    requires MetaOk(r.pages, v.meta, v.n) && SameApart(r, v, s, sp) && SameOutside(s, t, sp, low, high)
    ensures SameApartOutside(r, v, t, sp, low, high)
  {
    hide UserByte, Hit, MetaOk, Steady;
  }

  /**
   * One round of the loop: commits the page if need be and copies as much as fits a page on both
   * sides, or nothing if no frame is left for it.
   */
  method ReadPiece(v: MemoryObject, sp: Space, off: nat, dst: nat, k: nat, total: nat) returns (n: nat)
    requires v.Valid() && off < v.size && k < total && off + (total - k) <= v.size && Mapped(sp, dst + k)
    requires Beside(RamOf(v.mem), v.View(), sp, dst, dst + total) && MetaOk(v.mem.pages, v.meta, v.size / PAGE_SIZE)
    modifies v, v.mem
    ensures v.Valid() && v.Contents() == old(v.Contents()) && n <= total - k && (n == 0 ==> Exhausted(v.mem))
    ensures StaysApart(old(RamOf(v.mem)), old(v.View()), RamOf(v.mem), v.View())
    ensures SameApartOutside(old(RamOf(v.mem)), old(v.View()), RamOf(v.mem), sp, dst + k, dst + k + n)
    ensures AllMapped(sp, dst + k, dst + k + n)
    ensures Distinct(sp, dst, dst + total) ==>
      UserBytes(RamOf(v.mem), sp, dst, k + n) == old(UserBytes(RamOf(v.mem), sp, dst, k)) + v.Contents()[off..off + n]
  {
    hide Good, Content, Reaches, PageBytes, MetaOk, Uses, Phys.PhysMemory.Valid, Beside, UserBytes, BytesOf;
    hide SameOutside, SameApart, SameApartOutside, StaysApart, Steady, Distinct, UserByte, Hit, Mapped, FrameOf;
    PositionInPage(off, v.size);
    var va := dst + k;
    var i, at := off / PAGE_SIZE, off % PAGE_SIZE;
    ghost var r1, v1 := RamOf(v.mem), v.View();
    var ok := EnsurePage(v, i);
    ghost var r2, v2 := RamOf(v.mem), v.View();
    ObjectStepKeepsUser(r1, v1, r2, v2, sp);
    BesideSame(r1, v1, r2, sp, dst, dst + total, dst, k);
    BesideKept(r1, v1, r2, v2, sp, dst, dst + total);
    BesideAt(r2, v2, sp, dst, dst + total, va);
    if !ok {
      OutsideRefl(r2, sp, va, va);
      CommittedThenWritten(r1, v1, r2, v2, r2, sp, va, va);
      assert v.Contents()[off..off] == [];
      return 0;
    }
    n := BothPieces(off, va, total - k);
    DeliverPiece(v, sp, i, at, va, n);
    PageMapped(sp, va, va + n);
    ApartTrans(r1, v1, r2, v2, RamOf(v.mem), v.View());
    CommittedThenWritten(r1, v1, r2, v2, RamOf(v.mem), sp, va, va + n);
    if Distinct(sp, dst, dst + total) {
      NextPiece(r2, RamOf(v.mem), sp, dst, k, n, total);
    }
  }

  lemma NextPiece(r: Ram, s: Ram, sp: Space, dst: nat, k: nat, n: nat, len: nat)
    requires SameOutside(r, s, sp, dst + k, dst + k + n) && k + n <= len && Distinct(sp, dst, dst + len)
    ensures UserBytes(s, sp, dst, k + n) == UserBytes(r, sp, dst, k) + UserBytes(s, sp, dst + k, n)
  {
    hide UserByte, Hit, Distinct, SameOutside;
    SplitBytes(s, sp, dst, k, n);
    StillThere(r, s, sp, dst, k, n, len);
  }

  /**
   * Writing an object from user memory: the same as fetching the bytes and one plain write.
   * A failure leaves the bytes before the failing piece written.  Only the range read has to be apart
   * from the object.
   */
  method SysVmoWrite(v: MemoryObject, sp: Space, offset: nat, src: nat, len: nat) returns (r: Result<nat>)
    requires v.Valid() && Beside(RamOf(v.mem), v.View(), sp, src, src + Span(v.size, offset, len))
    modifies v, v.mem
    ensures v.Valid() && StaysApart(old(RamOf(v.mem)), old(v.View()), RamOf(v.mem), v.View())
    ensures MetaOk(old(v.mem.pages), v.meta, v.size / PAGE_SIZE)
    ensures SameApart(old(RamOf(v.mem)), old(v.View()), RamOf(v.mem), sp)
    ensures r.Ok? ==> r.value == Span(v.size, offset, len) && AllMapped(sp, src, src + r.value)
    ensures r.Ok? ==> r.value == if offset >= v.size then 0 else Min(len, v.size - offset)
    ensures r.Ok? && offset < v.size ==>
      v.Contents() == Splice(old(v.Contents()), offset, UserBytes(old(RamOf(v.mem)), sp, src, r.value))
    ensures offset >= v.size ==> v.Contents() == old(v.Contents())
    ensures r.Err? && offset < v.size ==>
      PrefixWritten(old(v.Contents()), v.Contents(), offset,
        UserBytes(old(RamOf(v.mem)), sp, src, Span(v.size, offset, len)))
    ensures r == Err(InvalidArgs) ==> !AllMapped(sp, src, src + Span(v.size, offset, len))
    ensures r.Err? && r.error != InvalidArgs ==> r.error == NoMemory && Exhausted(v.mem)
  {
    hide Good, Content, Reaches, PageBytes, MetaOk, Uses, Phys.PhysMemory.Valid, Beside, UserBytes, UserByte, Splice;
    hide BytesOf, OwnedStays;
    hide SameApart, StaysApart, Steady, Mapped, FrameOf;
    ghost var ram, v0 := RamOf(v.mem), v.View();
    GoodFacts(ram, v0);
    ApartRefl(ram, v0, sp, src);
    ghost var bytes := v.Contents();
    if offset >= v.size {
      return Ok(0);
    }
    var total := Min(len, v.size - offset);
    ghost var from := UserBytes(ram, sp, src, total);
    var copied: nat := 0;
    SpliceNothing(bytes, offset);
    assert from[..copied] == [];
    while copied < total
      invariant copied <= total && v.Valid() && AllMapped(sp, src, src + copied)
      invariant StaysApart(ram, v0, RamOf(v.mem), v.View()) && SameApart(ram, v0, RamOf(v.mem), sp)
      invariant v.Contents() == Splice(bytes, offset, from[..copied])
    {
      var off, va := offset + copied, src + copied;
      if !Mapped(sp, va) {
        return Err(InvalidArgs);
      }
      PositionInPage(off, v.size);
      var i, at := off / PAGE_SIZE, off % PAGE_SIZE;
      var n := BothPieces(off, va, total - copied);
      ghost var r1, v1 := RamOf(v.mem), v.View();
      BesideKept(ram, v0, r1, v1, sp, src, src + total);
      BesideAt(r1, v1, sp, src, src + total, va);
      var d := FetchPiece(v.mem, sp, va, n);
      BesideSame(ram, v0, r1, sp, src, src + total, va, n);
      FetchedIs(ram, sp, src, total, copied, n);
      PageMapped(sp, va, va + n);
      var ok := v.StoreInPage(i, at, d);
      ObjectStepKeepsUser(r1, v1, RamOf(v.mem), v.View(), sp);
      ObjectMovedAgain(ram, v0, r1, v1, RamOf(v.mem), v.View(), sp);
      if !ok {
        return Err(NoMemory);
      }
      NextPart(bytes, offset, from, copied, n);
      copied := copied + n;
    }
    assert from[..total] == from;
    return Ok(total);
  }

  lemma ObjectMovedAgain(r: Ram, v: Vmo, s: Ram, w: Vmo, t: Ram, x: Vmo, sp: Space)
    requires StaysApart(r, v, s, w) && StaysApart(s, w, t, x)
    requires MetaOk(r.pages, v.meta, v.n) && SameApart(r, v, s, sp)
    requires MetaOk(s.pages, w.meta, w.n) && SameApart(s, w, t, sp)
    ensures StaysApart(r, v, t, x) && SameApart(r, v, t, sp)
  {
    hide UserByte, MetaOk, Uses, Mapped, FrameOf, Good;
    ApartTrans(r, v, s, w, t, x);
    forall va: nat | Steady(r, v, sp, va) ensures UserByte(t, sp, va) == UserByte(r, sp, va) {
      assert Steady(s, w, sp, va);
    }
  }

  /** Reads a piece of one user page. */
  method FetchPiece(mem: PhysMemory<Frame>, sp: Space, va: nat, n: nat) returns (d: seq<nat>)
    requires MemoryOk(mem) && Mapped(sp, va) && FrameOf(sp, va) in mem.pages && va % PAGE_SIZE + n <= PAGE_SIZE
    ensures d == UserBytes(RamOf(mem), sp, va, n)
  {
    PieceOfPage(RamOf(mem), sp, va, n);
    d := BytesOf(mem.pages[FrameOf(sp, va)])[va % PAGE_SIZE..va % PAGE_SIZE + n];
  }

  /** A piece of the bytes is a piece of memory. */
  lemma FetchedIs(r: Ram, sp: Space, src: nat, len: nat, k: nat, n: nat)
    requires k + n <= len
    ensures UserBytes(r, sp, src + k, n) == UserBytes(r, sp, src, len)[k..k + n]
  {
    hide UserByte;
    var a, b := UserBytes(r, sp, src + k, n), UserBytes(r, sp, src, len)[k..k + n];
    forall j | 0 <= j < n ensures a[j] == b[j] {
      assert src + k + j == src + (k + j);
    }
  }
}
