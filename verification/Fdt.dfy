/**
 * The flattened device tree reader (kernel/src/fdt.rs) and the structure block format of
 * section 5.4 of the Devicetree Specification.
 */
module Fdt {
  import opened Common

  type Bytes = seq<nat>

  const BEGIN_NODE: nat := 1
  const END_NODE: nat := 2
  const PROP: nat := 3
  const NOP: nat := 4
  const END: nat := 9
  const AT: nat := 64

  predicate Aligned(n: int) {
    n % 4 == 0
  }

  function Align4(n: nat): (r: nat)
    ensures n <= r < n + 4 && Aligned(r)
  {
    (n + 3) / 4 * 4
  }

  /** The big-endian 32-bit word at `pos`. */
  function ReadWord(b: Bytes, pos: nat): nat
    requires pos + 4 <= |b|
  {
    b[pos] * 0x100_0000 + b[pos + 1] * 0x1_0000 + b[pos + 2] * 0x100 + b[pos + 3]
  }

  /** First zero byte at or after `p`, or the length. */
  function ZeroFrom(b: Bytes, p: nat): (e: nat)
    requires p <= |b|
    ensures p <= e <= |b| && (e < |b| ==> b[e] == 0) && forall k :: p <= k < e ==> b[k] != 0
    decreases |b| - p
  {
    if p == |b| || b[p] == 0 then p else ZeroFrom(b, p + 1)
  }

  // ----- UTF-8, section 4 of RFC 3629 -----

  predicate Within(x: nat, low: nat, high: nat) {
    low <= x <= high
  }

  /** Length of the well-formed sequence at the head, 0 if there is none. */
  function Utf8Head(s: Bytes): (n: nat)
    requires s != []
    ensures n <= |s|
  {
    var a := s[0];
    if a < 0x80 then 1
    else if |s| >= 2 && Within(a, 0xC2, 0xDF) && Within(s[1], 0x80, 0xBF) then 2
    else if |s| >= 3 && Within(s[2], 0x80, 0xBF)
      && ((a == 0xE0 && Within(s[1], 0xA0, 0xBF)) || (Within(a, 0xE1, 0xEC) && Within(s[1], 0x80, 0xBF))
          || (a == 0xED && Within(s[1], 0x80, 0x9F)) || (Within(a, 0xEE, 0xEF) && Within(s[1], 0x80, 0xBF))) then 3
    else if |s| >= 4 && Within(s[2], 0x80, 0xBF) && Within(s[3], 0x80, 0xBF)
      && ((a == 0xF0 && Within(s[1], 0x90, 0xBF)) || (Within(a, 0xF1, 0xF3) && Within(s[1], 0x80, 0xBF))
          || (a == 0xF4 && Within(s[1], 0x80, 0x8F))) then 4
    else 0
  }

  predicate Utf8(s: Bytes)
    decreases |s|
  {
    s == [] || (Utf8Head(s) > 0 && Utf8(s[Utf8Head(s)..]))
  }

  // ----- the reader -----

  /** What to look for, and where. */
  datatype Query = Query(block: Bytes, strings: Bytes, node: Bytes, prop: Bytes)

  /** A node name without its unit address. */
  function SimpleName(name: Bytes): (r: Bytes)
    ensures r <= name && AT !in r && (|r| < |name| ==> name[|r|] == AT)
  {
    if name == [] || name[0] == AT then []
    else
      var r := SimpleName(name[1..]);
      [name[0]] + r
  }

  predicate NodeMatches(q: Query, name: Bytes) {
    Utf8(name) && SimpleName(name) == q.node
  }

  /** The string at `offset` of the strings block. */
  function StringAt(strings: Bytes, offset: nat): Option<Bytes> {
    if offset >= |strings| then None
    else
      var s := strings[offset..ZeroFrom(strings, offset)];
      if Utf8(s) then Some(s) else None
  }

  predicate PropMatches(q: Query, offset: nat) {
    StringAt(q.strings, offset) == Some(q.prop)
  }

  function Remaining(q: Query, pos: nat): nat {
    if pos < |q.block| then |q.block| - pos else 0
  }

  /** The reader from one token on. */
  function Scan(q: Query, pos: nat, depth: int, target: Option<int>): Option<Bytes>
    decreases Remaining(q, pos)
  {
    if pos + 4 > |q.block| then None
    else
      var token, p := ReadWord(q.block, pos), pos + 4;
      if token == BEGIN_NODE then
        var e := ZeroFrom(q.block, p);
        if e == |q.block| then None
        else
          var hit := target.None? && NodeMatches(q, q.block[p..e]);
          Scan(q, Align4(e + 1), depth + 1, if hit then Some(depth) else target)
      else if token == END_NODE then
        if target.Some? && depth - 1 <= target.value then None else Scan(q, p, depth - 1, target)
      else if token == PROP then
        if p + 8 > |q.block| then None
        else
          var size, offset := ReadWord(q.block, p), ReadWord(q.block, p + 4);
          if target.Some? && depth == target.value + 1 && PropMatches(q, offset) then
            if p + 8 + size > |q.block| then None else Some(q.block[p + 8..p + 8 + size])
          else Scan(q, Align4(p + 8 + size), depth, target)
      else if token == NOP then Scan(q, p, depth, target)
      else None
  }

  // One lemma per token.

  predicate TokenAt(q: Query, pos: nat, token: nat) {
    pos + 4 <= |q.block| && ReadWord(q.block, pos) == token
  }

  lemma ScanNop(q: Query, pos: nat, depth: int, target: Option<int>)
    requires TokenAt(q, pos, NOP)
    ensures Scan(q, pos, depth, target) == Scan(q, pos + 4, depth, target)
  {
    hide NodeMatches, PropMatches, ZeroFrom, Aligned;
  }

  lemma ScanEndNode(q: Query, pos: nat, depth: int, target: Option<int>)
    requires TokenAt(q, pos, END_NODE)
    ensures Scan(q, pos, depth, target)
      == if target.Some? && depth - 1 <= target.value then None else Scan(q, pos + 4, depth - 1, target)
  {
    hide NodeMatches, PropMatches, ZeroFrom, Aligned;
  }

  lemma ScanBegin(q: Query, pos: nat, depth: int, target: Option<int>, e: nat)
    requires TokenAt(q, pos, BEGIN_NODE) && e == ZeroFrom(q.block, pos + 4)
    ensures e == |q.block| ==> Scan(q, pos, depth, target).None?
    ensures e < |q.block| ==> (
      var hit := target.None? && NodeMatches(q, q.block[pos + 4..e]);
      Scan(q, pos, depth, target) == Scan(q, Align4(e + 1), depth + 1, if hit then Some(depth) else target))
  {
    hide NodeMatches, PropMatches, ZeroFrom, Aligned;
  }

  lemma ScanProp(q: Query, pos: nat, depth: int, target: Option<int>)
    requires TokenAt(q, pos, PROP)
    ensures pos + 12 > |q.block| ==> Scan(q, pos, depth, target).None?
    ensures pos + 12 <= |q.block| ==> (
      var size, offset := ReadWord(q.block, pos + 4), ReadWord(q.block, pos + 8);
      var hit := target.Some? && depth == target.value + 1 && PropMatches(q, offset);
      Scan(q, pos, depth, target)
      == if !hit then Scan(q, Align4(pos + 12 + size), depth, target)
         else if pos + 12 + size > |q.block| then None
         else Some(q.block[pos + 12..pos + 12 + size]))
  {
    hide NodeMatches, PropMatches, ZeroFrom, Aligned;
  }

  lemma ScanStops(q: Query, pos: nat, depth: int, target: Option<int>)
    requires pos + 4 > |q.block| || ReadWord(q.block, pos) !in {BEGIN_NODE, END_NODE, PROP, NOP}
    ensures Scan(q, pos, depth, target).None?
  {
    hide NodeMatches, PropMatches, ZeroFrom, Aligned;
  }

  /** Whatever the bytes, a result is a slice of the structure block. */
  lemma {:induction false} ScanInBounds(q: Query, pos: nat, depth: int, target: Option<int>)
    ensures Scan(q, pos, depth, target).Some? ==> exists k: nat :: InBlock(q, k, Scan(q, pos, depth, target).value)
    decreases Remaining(q, pos)
  {
    hide NodeMatches, PropMatches, ZeroFrom, Aligned, ReadWord;
    if pos + 4 <= |q.block| {
      var token, p := ReadWord(q.block, pos), pos + 4;
      if token == BEGIN_NODE {
        var e := ZeroFrom(q.block, p);
        if e < |q.block| {
          var hit := target.None? && NodeMatches(q, q.block[p..e]);
          ScanInBounds(q, Align4(e + 1), depth + 1, if hit then Some(depth) else target);
        }
      } else if token == END_NODE {
        ScanInBounds(q, p, depth - 1, target);
      } else if token == PROP && p + 8 <= |q.block| {
        var size, offset := ReadWord(q.block, p), ReadWord(q.block, p + 4);
        if p + 8 + size <= |q.block| {
          assert InBlock(q, p + 8, q.block[p + 8..p + 8 + size]);
        }
        ScanInBounds(q, Align4(p + 8 + size), depth, target);
      } else if token == NOP {
        ScanInBounds(q, p, depth, target);
      }
    }
  }

  predicate InBlock(q: Query, k: nat, s: Bytes) {
    k + |s| <= |q.block| && s == q.block[k..k + |s|]
  }

  /** The string lookup as the loop it is. */
  method GetString(strings: Bytes, offset: nat) returns (r: Option<Bytes>)
    ensures r == StringAt(strings, offset)
  {
    if offset >= |strings| {
      return None;
    }
    var end := offset;
    while end < |strings| && strings[end] != 0
      invariant offset <= end <= |strings| && ZeroFrom(strings, end) == ZeroFrom(strings, offset)
    {
      end := end + 1;
    }
    var s := strings[offset..end];
    return if Utf8(s) then Some(s) else None;
  }

  /** The reader as the loop it is: it ends, and it reads inside the block only. */
  method FindNodeProperty(q: Query) returns (r: Option<Bytes>)
    ensures r == Scan(q, 0, 0, None)
  {
    hide Scan, ReadWord, NodeMatches, PropMatches;
    var pos: nat, depth, target: Option<int> := 0, 0, None;
    while pos < |q.block|
      invariant Scan(q, pos, depth, target) == Scan(q, 0, 0, None)
      decreases Remaining(q, pos)
    {
      if pos + 4 > |q.block| {
        ScanStops(q, pos, depth, target);
        return None;
      }
      var token := ReadWord(q.block, pos);
      ghost var start := pos;
      assert TokenAt(q, start, token);
      pos := pos + 4;
      if token == BEGIN_NODE {
        var end := NameEnd(q.block, pos);
        ScanBegin(q, start, depth, target, end);
        if end >= |q.block| {
          return None;
        }
        if NodeMatches(q, q.block[pos..end]) && target.None? {
          target := Some(depth);
        }
        depth := depth + 1;
        pos := Align4(end + 1);
      } else if token == END_NODE {
        ScanEndNode(q, start, depth, target);
        depth := depth - 1;
        if target.Some? && depth <= target.value {
          return None;
        }
      } else if token == PROP {
        ScanProp(q, start, depth, target);
        if pos + 8 > |q.block| {
          return None;
        }
        var size := ReadWord(q.block, pos);
        pos := pos + 4;
        var offset := ReadWord(q.block, pos);
        pos := pos + 4;
        if target.Some? && depth == target.value + 1 {
          var hit := NameIs(q, offset);
          if hit {
            if pos + size > |q.block| {
              return None;
            }
            return Some(q.block[pos..pos + size]);
          }
        }
        pos := Align4(pos + size);
      } else if token == NOP {
        ScanNop(q, start, depth, target);
      } else {
        ScanStops(q, start, depth, target);
        return None;
      }
    }
    ScanStops(q, pos, depth, target);
    return None;
  }

  method NameEnd(b: Bytes, start: nat) returns (end: nat)
    requires start <= |b|
    ensures end == ZeroFrom(b, start)
  {
    end := start;
    while end < |b| && b[end] != 0
      invariant start <= end <= |b| && ZeroFrom(b, end) == ZeroFrom(b, start)
    {
      end := end + 1;
    }
  }

  method NameIs(q: Query, offset: nat) returns (b: bool)
    ensures b == PropMatches(q, offset)
  {
    var name := GetString(q.strings, offset);
    b := name == Some(q.prop);
  }

  // ----- device trees -----

  /** The contents of a node: properties, child nodes and no-ops, in order. */
  datatype Items =
    | Nil
    | Nop(rest: Items)
    | Prop(offset: nat, data: Bytes, rest: Items)
    | Node(name: Bytes, items: Items, rest: Items)

  /** What the format can express: words of 32 bits, names without a zero byte. */
  predicate WellFormed(t: Items) {
    match t
    case Nil => true
    case Nop(rest) => WellFormed(rest)
    case Prop(offset, data, rest) => offset < 0x1_0000_0000 && |data| < 0x1_0000_0000 && WellFormed(rest)
    case Node(name, items, rest) => 0 !in name && WellFormed(items) && WellFormed(rest)
  }

  function Word(v: nat): (b: Bytes)
    ensures |b| == 4
  {
    var a := v / 0x100;
    var b := a / 0x100;
    [b / 0x100, b % 0x100, a % 0x100, v % 0x100]
  }

  lemma ReadsWord(b: Bytes, pos: nat, v: nat)
    requires v < 0x1_0000_0000 && Holds(b, pos, Word(v))
    ensures ReadWord(b, pos) == v
  {
    var w := b[pos..pos + 4];
    assert b[pos] == w[0] && b[pos + 1] == w[1] && b[pos + 2] == w[2] && b[pos + 3] == w[3];
  }

  /** Bytes padded with zeros to a word boundary. */
  function Padded(b: Bytes): (r: Bytes)
    ensures |r| == Align4(|b|) && b <= r
  {
    b + seq(Align4(|b|) - |b|, _ => 0)
  }

  function Cat(a: Bytes, b: Bytes): (r: Bytes)
    ensures |r| == |a| + |b|
  {
    a + b
  }

  /** The structure block form of a node's contents. */
  function Flatten(t: Items): Bytes
  {
    match t
    case Nil => []
    case Nop(rest) => Cat(Word(NOP), Flatten(rest))
    case Prop(offset, data, rest) => Cat(Word(PROP),
      Cat(Word(|data|), Cat(Word(offset), Cat(Padded(data), Flatten(rest)))))
    case Node(name, items, rest) => Cat(Word(BEGIN_NODE),
      Cat(Padded(name + [0]), Cat(Flatten(items), Cat(Word(END_NODE), Flatten(rest)))))
  }

  lemma FlattenIs(t: Items)
    ensures Flatten(t) == match t
      case Nil => []
      case Nop(rest) => Cat(Word(NOP), Flatten(rest))
      case Prop(offset, data, rest) => Cat(Word(PROP),
        Cat(Word(|data|), Cat(Word(offset), Cat(Padded(data), Flatten(rest)))))
      case Node(name, items, rest) => Cat(Word(BEGIN_NODE),
        Cat(Padded(name + [0]), Cat(Flatten(items), Cat(Word(END_NODE), Flatten(rest)))))
  {
  }

  lemma {:induction false} FlattenAligned(t: Items)
    ensures Aligned(|Flatten(t)|)
  {
    hide Word, Padded, Aligned, Cat;
    match t
    case Nil =>
      AlignedAdd(0, 0);
    case Nop(rest) =>
      FlattenAligned(rest);
      AlignedAdd(4, |Flatten(rest)|);
    case Prop(_, data, rest) =>
      FlattenAligned(rest);
      AlignedAdd(|Padded(data)|, |Flatten(rest)|);
      AlignedAdd(12, |Padded(data)| + |Flatten(rest)|);
    case Node(name, items, rest) =>
      FlattenAligned(items);
      FlattenAligned(rest);
      AlignedAdd(|Flatten(items)|, |Flatten(rest)|);
      AlignedAdd(|Padded(name + [0])|, |Flatten(items)| + |Flatten(rest)|);
      AlignedAdd(8, |Padded(name + [0])| + (|Flatten(items)| + |Flatten(rest)|));
  }

  lemma AlignedAdd(a: nat, b: nat)
    ensures Aligned(a) && Aligned(b) ==> Aligned(a + b)
    ensures Aligned(0) && Aligned(4) && Aligned(8) && Aligned(12)
  {
  }

  /** The contents of the first matching node in preorder. */
  function FirstNode(q: Query, t: Items): Option<Items> {
    match t
    case Nil => None
    case Nop(rest) => FirstNode(q, rest)
    case Prop(_, _, rest) => FirstNode(q, rest)
    case Node(name, items, rest) =>
      if NodeMatches(q, name) then Some(items)
      else if FirstNode(q, items).Some? then FirstNode(q, items)
      else FirstNode(q, rest)
  }

  /** The first property of the right name directly among the contents. */
  function DirectProp(q: Query, t: Items): Option<Bytes> {
    match t
    case Nil => None
    case Nop(rest) => DirectProp(q, rest)
    case Prop(offset, data, rest) => if PropMatches(q, offset) then Some(data) else DirectProp(q, rest)
    case Node(_, _, rest) => DirectProp(q, rest)
  }

  // ----- reading a flattened tree -----

  /** `s` stands in `b` at `pos`. */
  predicate Holds(b: Bytes, pos: nat, s: Bytes) {
    pos + |s| <= |b| && b[pos..pos + |s|] == s
  }

  lemma HoldsBoth(b: Bytes, pos: nat, s: Bytes, t: Bytes)
    requires Holds(b, pos, Cat(s, t))
    ensures Holds(b, pos, s) && Holds(b, pos + |s|, t)
  {
    assert b[pos..pos + |s|] == b[pos..pos + |s + t|][..|s|];
    assert b[pos + |s|..pos + |s| + |t|] == b[pos..pos + |s + t|][|s|..];
  }

  lemma HoldsRoom(b: Bytes, pos: nat, s: Bytes)
    requires Holds(b, pos, s)
    ensures pos + |s| <= |b|
  {
  }

  /** One node header is read back. */
  lemma ReadsName(b: Bytes, pos: nat, name: Bytes)
    requires Holds(b, pos, Padded(name + [0])) && 0 !in name && Aligned(pos)
    ensures ZeroFrom(b, pos) == pos + |name| < |b| && b[pos..pos + |name|] == name
    ensures Align4(pos + |name| + 1) == pos + |Padded(name + [0])|
  {
    hide Padded, Aligned, Holds, Align4, ZeroFrom;
    PaddedStart(b, pos, name + [0]);
    NameStands(b, pos, name);
    AlignedSum(pos, |name| + 1);
  }

  lemma NameStands(b: Bytes, pos: nat, name: Bytes)
    requires pos + |name| < |b| && b[pos..pos + |name| + 1] == name + [0] && 0 !in name
    ensures ZeroFrom(b, pos) == pos + |name| && b[pos..pos + |name|] == name
  {
    var s := b[pos..pos + |name| + 1];
    assert b[pos..pos + |name|] == s[..|name|] == name;
    assert b[pos + |name|] == s[|name|] == 0;
    forall k | pos <= k < pos + |name| ensures b[k] != 0 {
      assert b[k] == s[k - pos] == name[k - pos];
    }
  }

  lemma AlignedSum(a: nat, n: nat)
    requires Aligned(a)
    ensures Align4(a + n) == a + Align4(n)
  {
  }

  /** Inside the node found: its own properties are looked at, those of its descendants are not. */
  lemma {:induction false} ScanInside(q: Query, t: Items, pos: nat, depth: int, d: int)
    requires WellFormed(t) && Holds(q.block, pos, Flatten(t)) && Aligned(pos) && d < depth
    ensures Scan(q, pos, depth, Some(d))
      == if depth == d + 1 && DirectProp(q, t).Some? then DirectProp(q, t)
        else Scan(q, pos + |Flatten(t)|, depth, Some(d))
    decreases t
  {
    hide Scan, Word, Padded, ReadWord, Align4, Aligned, TokenAt, Holds, NodeMatches, PropMatches, Cat, Flatten;
    match t
    case Nil =>
      FlattenIs(Nil);
    case Nop(rest) =>
      ReadsNop(q, rest, pos);
      ScanNop(q, pos, depth, Some(d));
      ScanInside(q, rest, pos + 4, depth, d);
    case Prop(offset, data, rest) =>
      ReadsProp(q, offset, data, rest, pos);
      ScanProp(q, pos, depth, Some(d));
      ScanInside(q, rest, pos + 12 + |Padded(data)|, depth, d);
    case Node(name, items, rest) =>
      var inner := pos + 4 + |Padded(name + [0])|;
      ReadsNode(q, name, items, rest, pos);
      ScanBegin(q, pos, depth, Some(d), pos + 4 + |name|);
      ScanInside(q, items, inner, depth + 1, d);
      ScanEndNode(q, inner + |Flatten(items)|, depth + 1, Some(d));
      ScanInside(q, rest, inner + |Flatten(items)| + 4, depth, d);
  }

  /** Before a node is found: the first one in preorder decides the result. */
  lemma {:induction false} ScanOutside(q: Query, t: Items, pos: nat, depth: int)
    requires WellFormed(t) && Holds(q.block, pos, Flatten(t)) && Aligned(pos)
    ensures Scan(q, pos, depth, None)
      == if FirstNode(q, t).Some? then DirectProp(q, FirstNode(q, t).value)
        else Scan(q, pos + |Flatten(t)|, depth, None)
    decreases t
  {
    hide Scan, Word, Padded, ReadWord, Align4, Aligned, TokenAt, Holds, NodeMatches, PropMatches, Cat, Flatten;
    match t
    case Nil =>
      FlattenIs(Nil);
    case Nop(rest) =>
      ReadsNop(q, rest, pos);
      ScanNop(q, pos, depth, None);
      ScanOutside(q, rest, pos + 4, depth);
    case Prop(offset, data, rest) =>
      ReadsProp(q, offset, data, rest, pos);
      ScanProp(q, pos, depth, None);
      ScanOutside(q, rest, pos + 12 + |Padded(data)|, depth);
    case Node(name, items, rest) =>
      var inner := pos + 4 + |Padded(name + [0])|;
      ReadsNode(q, name, items, rest, pos);
      ScanBegin(q, pos, depth, None, pos + 4 + |name|);
      if NodeMatches(q, name) {
        ScanInside(q, items, inner, depth + 1, depth);
        ScanEndNode(q, inner + |Flatten(items)|, depth + 1, Some(depth));
      } else {
        ScanOutside(q, items, inner, depth + 1);
        ScanEndNode(q, inner + |Flatten(items)|, depth + 1, None);
        ScanOutside(q, rest, inner + |Flatten(items)| + 4, depth);
      }
  }

  lemma ReadsNop(q: Query, rest: Items, pos: nat)
    requires Holds(q.block, pos, Flatten(Nop(rest))) && Aligned(pos)
    ensures TokenAt(q, pos, NOP) && Aligned(pos + 4) && Holds(q.block, pos + 4, Flatten(rest))
    ensures |Flatten(Nop(rest))| == 4 + |Flatten(rest)|
  {
    hide Word, ReadWord, Aligned, Holds, Cat, Flatten;
    FlattenIs(Nop(rest));
    HoldsBoth(q.block, pos, Word(NOP), Flatten(rest));
    HoldsRoom(q.block, pos, Word(NOP));
    AlignedAdd(pos, 4);
    ReadsWord(q.block, pos, NOP);
  }

  /** A property is read back, and the reader steps over its padding. */
  lemma ReadsProp(q: Query, offset: nat, data: Bytes, rest: Items, pos: nat)
    requires Holds(q.block, pos, Flatten(Prop(offset, data, rest))) && Aligned(pos) && offset < 0x1_0000_0000
      && |data| < 0x1_0000_0000
    ensures pos + 12 <= |q.block| && TokenAt(q, pos, PROP) && Aligned(pos + 12 + |Padded(data)|)
      && ReadWord(q.block, pos + 4) == |data| && ReadWord(q.block, pos + 8) == offset
    ensures pos + 12 + |data| <= |q.block| && q.block[pos + 12..pos + 12 + |data|] == data
    ensures Align4(pos + 12 + |data|) == pos + 12 + |Padded(data)|
      && Holds(q.block, pos + 12 + |Padded(data)|, Flatten(rest))
    ensures |Flatten(Prop(offset, data, rest))| == 12 + |Padded(data)| + |Flatten(rest)|
  {
    hide Word, Padded, ReadWord, Align4, Aligned, Holds, Cat, Flatten;
    FlattenIs(Prop(offset, data, rest));
    var b := q.block;
    HoldsBoth(b, pos, Word(PROP), Cat(Word(|data|), Cat(Word(offset), Cat(Padded(data), Flatten(rest)))));
    HoldsBoth(b, pos + 4, Word(|data|), Cat(Word(offset), Cat(Padded(data), Flatten(rest))));
    HoldsBoth(b, pos + 8, Word(offset), Cat(Padded(data), Flatten(rest)));
    HoldsBoth(b, pos + 12, Padded(data), Flatten(rest));
    HoldsRoom(b, pos, Word(PROP));
    HoldsRoom(b, pos + 4, Word(|data|));
    HoldsRoom(b, pos + 8, Word(offset));
    AlignedAdd(pos, 12);
    AlignedAdd(pos + 12, |Padded(data)|);
    ReadsWord(b, pos, PROP);
    ReadsWord(b, pos + 4, |data|);
    ReadsWord(b, pos + 8, offset);
    PaddedStart(b, pos + 12, data);
    AlignedSum(pos + 12, |data|);
  }

  lemma PaddedStart(b: Bytes, pos: nat, data: Bytes)
    requires Holds(b, pos, Padded(data))
    ensures pos + |data| <= |b| && b[pos..pos + |data|] == data
  {
    assert Padded(data) == Cat(data, Padded(data)[|data|..]);
    HoldsBoth(b, pos, data, Padded(data)[|data|..]);
  }

  /** A node is read back: header, contents, end mark, and what follows. */
  lemma ReadsNode(q: Query, name: Bytes, items: Items, rest: Items, pos: nat)
    requires Holds(q.block, pos, Flatten(Node(name, items, rest))) && Aligned(pos) && 0 !in name
    ensures TokenAt(q, pos, BEGIN_NODE)
    ensures ZeroFrom(q.block, pos + 4) == pos + 4 + |name| < |q.block| && q.block[pos + 4..pos + 4 + |name|] == name
    ensures var inner := pos + 4 + |Padded(name + [0])|;
      && Align4(pos + 4 + |name| + 1) == inner && Aligned(inner) && Holds(q.block, inner, Flatten(items))
      && var after := inner + |Flatten(items)|;
         && TokenAt(q, after, END_NODE) && Aligned(after + 4)
         && Holds(q.block, after + 4, Flatten(rest))
         && pos + |Flatten(Node(name, items, rest))| == after + 4 + |Flatten(rest)|
  {
    hide Word, Padded, ReadWord, Align4, Aligned, Holds, ZeroFrom, Cat, Flatten, TokenAt;
    FlattenIs(Node(name, items, rest));
    var b := q.block;
    var p := Padded(name + [0]);
    var inner := pos + 4 + |p|;
    FlattenAligned(items);
    HoldsBoth(b, pos, Word(BEGIN_NODE), Cat(p, Cat(Flatten(items), Cat(Word(END_NODE), Flatten(rest)))));
    HoldsBoth(b, pos + 4, p, Cat(Flatten(items), Cat(Word(END_NODE), Flatten(rest))));
    HoldsBoth(b, inner, Flatten(items), Cat(Word(END_NODE), Flatten(rest)));
    HoldsBoth(b, inner + |Flatten(items)|, Word(END_NODE), Flatten(rest));
    AlignedAdd(pos, 4);
    AlignedAdd(pos + 4, |p|);
    AlignedAdd(inner, |Flatten(items)|);
    AlignedAdd(inner + |Flatten(items)|, 4);
    HoldsToken(q, pos, BEGIN_NODE);
    HoldsToken(q, inner + |Flatten(items)|, END_NODE);
    ReadsName(b, pos + 4, name);
  }

  lemma HoldsToken(q: Query, pos: nat, token: nat)
    requires token < 0x1_0000_0000 && Holds(q.block, pos, Word(token))
    ensures TokenAt(q, pos, token)
  {
    hide Word, ReadWord;
    ReadsWord(q.block, pos, token);
  }

  /** The structure block of a device tree, closed by the end token; anything may follow. */
  function StructBlock(t: Items, tail: Bytes): Bytes {
    Cat(Flatten(t), Cat(Word(END), tail))
  }

  /**
   * On every flattened device tree the reader returns the named property of the first node in
   * preorder that has the name, and nothing if there is no such node or it has no such property.
   */
  lemma FindsFirstInPreorder(q: Query, t: Items, tail: Bytes)
    requires WellFormed(t) && q.block == StructBlock(t, tail)
    ensures Scan(q, 0, 0, None) == if FirstNode(q, t).Some? then DirectProp(q, FirstNode(q, t).value) else None
  {
    hide Scan, Flatten, Word, ReadWord, Aligned, FirstNode, DirectProp;
    assert Holds(q.block, 0, q.block);
    HoldsBoth(q.block, 0, Flatten(t), Cat(Word(END), tail));
    HoldsBoth(q.block, |Flatten(t)|, Word(END), tail);
    ReadsWord(q.block, |Flatten(t)|, END);
    AlignedAdd(0, 0);
    ScanOutside(q, t, 0, 0);
    ScanStops(q, |Flatten(t)|, 0, None);
  }
}
