/** Building a memory object's metadata: the blank object, and filling its slots. */
module VmoCreate {
  import opened Common
  import opened Arith
  import opened VmoLayout
  import opened VmoSpec

  /** No slot word of the page is set. */
  predicate NoSlots(f: Frame) {
    forall k :: 6 <= k < 504 ==> WordsOf(f)[k] == 0
  }

  /** The first `count` metadata pages are in place, settled, different, and blank. */
  ghost predicate Blank(r: Ram, meta: nat, count: nat) {
    && meta in r.pages && count <= 9
    && (forall m: nat :: m < count ==> BlankPage(r, meta, m))
    && (forall l: nat, m: nat :: l < m < count ==> MetaFrame(r.pages, meta, l) != MetaFrame(r.pages, meta, m))
  }

  predicate BlankPage(r: Ram, meta: nat, m: nat)
    requires meta in r.pages && m <= 8
  {
    Settled(r, MetaFrame(r.pages, meta, m)) && NoSlots(r.pages[MetaFrame(r.pages, meta, m)])
  }

  function Uncommitted(n: nat): (c: seq<Option<nat>>)
    ensures |c| == n && forall i :: 0 <= i < n ==> c[i] == None
  {
    seq(n, _ => None)
  }

  /** The first page with its header written. */
  function Headed(r: Ram, meta: nat, header: seq<nat>): Ram
    requires meta in r.pages && |header| == 6
  {
    r.(pages := r.pages[meta := Words(header + WordsOf(r.pages[meta])[6..])])
  }

  /** A further metadata page handed out and entered in the table. */
  function Tabled(r: Ram, meta: nat, m: nat, pa: nat): Ram
    requires meta in r.pages && 1 <= m <= 8
  {
    var h := Handed(r, pa);
    h.(pages := h.pages[meta := Words(WordsOf(h.pages[meta])[TableOffset(m) / 8 := pa])])
  }

  lemma HeadedBlank(r: Ram, meta: nat, header: seq<nat>)
    requires Settled(r, meta) && r.pages[meta] == Zeroed && |header| == 6
    ensures Blank(Headed(r, meta, header), meta, 1)
  {
    var s := Headed(r, meta, header);
    assert MetaFrame(s.pages, meta, 0) == meta;
    assert BlankPage(s, meta, 0);
  }

  lemma TabledBlank(r: Ram, meta: nat, m: nat, pa: nat)
    requires Blank(r, meta, m) && 1 <= m <= 8 && r.cursor <= pa < r.end
    ensures Blank(Tabled(r, meta, m, pa), meta, m + 1)
    ensures forall l: nat :: l <= m ==> MetaFrame(Tabled(r, meta, m, pa).pages, meta, l) == if l == m then pa
      else MetaFrame(r.pages, meta, l)
    ensures forall q: nat :: q in r.pages && q != pa && q != meta ==>
      q in Tabled(r, meta, m, pa).pages && Tabled(r, meta, m, pa).pages[q] == r.pages[q]
  {
    var s := Tabled(r, meta, m, pa);
    assert BlankPage(r, meta, 0);
    assert meta != pa;
    var w, x := WordsOf(r.pages[meta]), WordsOf(s.pages[meta]);
    assert x == w[TableOffset(m) / 8 := pa];
    forall l: nat | l < m + 1 ensures BlankPage(s, meta, l) && MetaFrame(s.pages, meta, l) == if l == m then pa
      else MetaFrame(r.pages, meta, l) {
      if l < m {
        assert BlankPage(r, meta, l);
      }
    }
    forall l: nat, k: nat | l < k < m + 1 ensures MetaFrame(s.pages, meta, l) != MetaFrame(s.pages, meta, k) {
      assert BlankPage(r, meta, l);
      if k < m {
        assert MetaFrame(r.pages, meta, l) != MetaFrame(r.pages, meta, k);
      }
    }
  }

  /** A blank object is well-formed, owns nothing and reads as zeros throughout. */
  lemma BlankGood(r: Ram, meta: nat, n: nat)
    requires 0 < n <= MAX_PAGES && Blank(r, meta, MetaPagesNeeded(n))
    ensures var v := Vmo(meta, n, Uncommitted(n));
      && Good(r, v) && Owned(r, v) && Content(r, v) == seq(n * PAGE_SIZE, _ => 0)
      && (forall i: nat :: i < n ==> SlotOf(r, v, i).None?)
      && (forall q: nat :: Uses(r, v, q) ==> IsMeta(r, v, q))
  {
    var v := Vmo(meta, n, Uncommitted(n));
    BlankMetaOk(r, meta, n);
    forall i: nat | i < n ensures SlotOf(r, v, i).None? && GoodSlot(r, v, i) {
      SlotInBounds(n, i);
      assert BlankPage(r, meta, MetaIndex(i));
    }
    forall m: nat | m < MetaPagesNeeded(n) ensures Settled(r, MetaFrame(r.pages, meta, m)) {
      assert BlankPage(r, meta, m);
    }
    forall k | 0 <= k < n * PAGE_SIZE ensures Content(r, v)[k] == 0 {
      assert Content(r, v)[k] == ByteAt(r, v, k);
    }
  }

  lemma BlankMetaOk(r: Ram, meta: nat, n: nat)
    requires 0 < n <= MAX_PAGES && Blank(r, meta, MetaPagesNeeded(n))
    ensures MetaOk(r.pages, meta, n)
  {
    forall m: nat | m < MetaPagesNeeded(n) ensures MetaFrame(r.pages, meta, m) in r.pages {
      assert BlankPage(r, meta, m);
    }
  }

  // ----- filling the slots of a blank object -----

  /** The object whose first `k` slots hold the given frames and whose others are blank. */
  ghost predicate Filled(r: Ram, meta: nat, n: nat, frames: seq<Option<nat>>, k: nat) {
    && MetaOk(r.pages, meta, n) && k <= n == |frames|
    && (forall m: nat :: m < MetaPagesNeeded(n) ==> Settled(r, MetaFrame(r.pages, meta, m)))
    && (forall i: nat :: i < n ==> Slot(r.pages, meta, n, i) == if i < k then frames[i] else None)
  }

  function PutMaybe(r: Ram, meta: nat, n: nat, i: nat, f: Option<nat>): Ram
    requires MetaOk(r.pages, meta, n) && i < n
  {
    if f.None? then r else r.(pages := PutSlot(r.pages, meta, n, i, f.value))
  }

  lemma FillStep(r: Ram, meta: nat, n: nat, frames: seq<Option<nat>>, k: nat)
    requires Filled(r, meta, n, frames, k) && k < n
    ensures Filled(PutMaybe(r, meta, n, k, frames[k]), meta, n, frames, k + 1)
    ensures var s := PutMaybe(r, meta, n, k, frames[k]);
      && (forall m: nat :: m < MetaPagesNeeded(n) ==> MetaFrame(s.pages, meta, m) == MetaFrame(r.pages, meta, m))
      && (forall q: nat :: q in r.pages ==>
        q in s.pages && (s.pages[q] == r.pages[q] || IsMeta(r, Vmo(meta, n, []), q)))
  {
    hide MetaFrame, Slot, SlotFrame, MetaPagesNeeded;
    if frames[k].Some? {
      PutSlotSlots(r.pages, meta, n, k, frames[k].value);
      SlotFrameUsed(r, Vmo(meta, n, []), k);
    }
  }

  /** Distinct settled frames, none of them metadata, in all the slots. */
  ghost predicate Fillable(r: Ram, meta: nat, n: nat, frames: seq<Option<nat>>)
    requires MetaOk(r.pages, meta, n)
  {
    && (forall i: nat :: i < |frames| && frames[i].Some? ==>
      Settled(r, frames[i].value) && !IsMeta(r, Vmo(meta, n, []), frames[i].value))
    && (forall i: nat, j: nat :: i < j < |frames| && frames[i].Some? ==> frames[i] != frames[j])
  }

  lemma FilledGood(r: Ram, meta: nat, n: nat, frames: seq<Option<nat>>, c: seq<Option<nat>>)
    requires Filled(r, meta, n, frames, n) && n > 0 && Fillable(r, meta, n, frames)
    requires c == Uncommitted(n) || (c == [] && forall i: nat :: i < n ==> frames[i].Some?)
    ensures Good(r, Vmo(meta, n, c)) && forall i: nat :: i < n ==> SlotOf(r, Vmo(meta, n, c), i) == frames[i]
  {
    hide MetaFrame, Slot, MetaPagesNeeded;
    var v := Vmo(meta, n, c);
    forall i: nat | i < n ensures GoodSlot(r, v, i) {
      assert Slot(r.pages, meta, n, i) == frames[i];
      assert frames[i].Some? ==> Settled(r, frames[i].value) && !IsMeta(r, Vmo(meta, n, []), frames[i].value);
    }
    forall i: nat, j: nat | i < j < n ensures SlotOf(r, v, i).None? || SlotOf(r, v, i) != SlotOf(r, v, j) {
      assert SlotOf(r, v, i) == frames[i] && SlotOf(r, v, j) == frames[j];
    }
  }
}
