/**
 * What the device tree reader finds, in terms of names (kernel/src/fdt.rs): device trees whose nodes
 * have a base name and perhaps a unit address and whose properties have names, flattened with a
 * strings block in which every property name stands somewhere.
 */
module FdtNames {
  import opened Common
  import opened Fdt

  // ----- UTF-8: the byte strings that encode code points, and no others -----

  predicate Scalar(c: nat) {
    c < 0xD800 || 0xE000 <= c < 0x11_0000
  }

  /** A continuation byte with the low six bits. */
  function Low(c: nat): nat {
    0x80 + c % 0x40
  }

  /** The bytes of one code point, section 3 of RFC 3629. */
  function EncodePoint(c: nat): (b: Bytes)
    ensures b != []
  {
    if c < 0x80 then [c]
    else if c < 0x800 then [0xC0 + c / 0x40, Low(c)]
    else if c < 0x1_0000 then [0xE0 + c / 0x40 / 0x40, Low(c / 0x40), Low(c)]
    else [0xF0 + c / 0x40 / 0x40 / 0x40, Low(c / 0x40 / 0x40), Low(c / 0x40), Low(c)]
  }

  function EncodePoints(cs: seq<nat>): Bytes {
    if cs == [] then [] else EncodePoint(cs[0]) + EncodePoints(cs[1..])
  }

  predicate Scalars(cs: seq<nat>) {
    forall k :: 0 <= k < |cs| ==> Scalar(cs[k])
  }

  lemma HeadOfPoint(c: nat, rest: Bytes)
    requires Scalar(c)
    ensures Utf8Head(EncodePoint(c) + rest) == |EncodePoint(c)|
  {
  }

  lemma Joins(high: nat, b: nat) returns (c: nat)
    requires Within(b, 0x80, 0xBF)
    ensures c == high * 0x40 + (b - 0x80) && c / 0x40 == high && Low(c) == b
  {
    c := high * 0x40 + (b - 0x80);
  }

  /** The code point whose bytes stand at the head. */
  lemma PointOfHead(s: Bytes) returns (c: nat)
    requires s != [] && Utf8Head(s) > 0
    ensures Scalar(c) && s[..Utf8Head(s)] == EncodePoint(c)
  {
    hide Low;
    var n := Utf8Head(s);
    if n == 1 {
      c := s[0];
    } else if n == 2 {
      c := Joins(s[0] - 0xC0, s[1]);
    } else if n == 3 {
      var c1 := Joins(s[0] - 0xE0, s[1]);
      c := Joins(c1, s[2]);
    } else {
      var c1 := Joins(s[0] - 0xF0, s[1]);
      var c2 := Joins(c1, s[2]);
      c := Joins(c2, s[3]);
    }
  }

  lemma {:induction false} PointsAreUtf8(cs: seq<nat>)
    requires Scalars(cs)
    ensures Utf8(EncodePoints(cs))
  {
    hide EncodePoint, Utf8Head, Scalar;
    if cs != [] {
      assert Scalar(cs[0]);
      HeadOfPoint(cs[0], EncodePoints(cs[1..]));
      PointsAreUtf8(cs[1..]);
      var s := EncodePoints(cs);
      assert s[|EncodePoint(cs[0])|..] == EncodePoints(cs[1..]);
    }
  }

  lemma {:induction false} Utf8HasPoints(s: Bytes) returns (cs: seq<nat>)
    requires Utf8(s)
    ensures Scalars(cs) && EncodePoints(cs) == s
    decreases |s|
  {
    hide EncodePoint, Utf8Head, Scalar;
    cs := [];
    if s != [] {
      var n := Utf8Head(s);
      var c := PointOfHead(s);
      var more := Utf8HasPoints(s[n..]);
      cs := [c] + more;
      assert cs[1..] == more;
      assert s == s[..n] + s[n..];
    }
  }

  /** A byte string is UTF-8 exactly when it is the encoding of Unicode scalar values. */
  lemma Utf8Iff(s: Bytes)
    ensures Utf8(s) <==> exists cs: seq<nat> :: Scalars(cs) && EncodePoints(cs) == s
  {
    if Utf8(s) {
      var cs := Utf8HasPoints(s);
    }
    forall cs: seq<nat> | Scalars(cs) && EncodePoints(cs) == s ensures Utf8(s) {
      PointsAreUtf8(cs);
    }
  }

  // ----- strings -----

  /** The name stands at the offset of the strings block, closed by a zero byte. */
  predicate StandsAt(strings: Bytes, offset: nat, name: Bytes) {
    && 0 !in name
    && offset + |name| < |strings|
    && strings[offset..offset + |name|] == name
    && strings[offset + |name|] == 0
  }

  /** A name that stands at an offset is what the reader gets there, if it is UTF-8. */
  lemma StringOf(strings: Bytes, offset: nat, name: Bytes)
    requires StandsAt(strings, offset, name)
    ensures StringAt(strings, offset) == if Utf8(name) then Some(name) else None
  {
    hide Utf8;
    assert strings[offset..offset + |name| + 1] == name + [0];
    NameStands(strings, offset, name);
  }

  lemma StringIs(pre: Bytes, name: Bytes, post: Bytes)
    requires 0 !in name
    ensures StringAt(pre + name + [0] + post, |pre|) == if Utf8(name) then Some(name) else None
  {
    hide Utf8, StringAt;
    var strings := pre + name + [0] + post;
    assert strings[|pre|..|pre| + |name|] == name && strings[|pre| + |name|] == 0;
    StringOf(strings, |pre|, name);
  }

  /** Without a closing zero the string runs to the end of the block; behind the block there is none. */
  lemma StringAtEnd(pre: Bytes, name: Bytes, offset: nat)
    requires 0 !in name
    ensures offset >= |pre + name| ==> StringAt(pre + name, offset).None?
    ensures name != [] ==> StringAt(pre + name, |pre|) == if Utf8(name) then Some(name) else None
  {
    hide Utf8;
    var strings := pre + name;
    var e := ZeroFrom(strings, |pre|);
    assert strings[|pre|..] == name && strings[|pre|..|strings|] == name;
  }

  // ----- node names -----

  function NodeName(base: Bytes, unit: Option<Bytes>): Bytes {
    match unit
    case None => base
    case Some(u) => base + [AT] + u
  }

  lemma {:induction false} SimpleNameIs(base: Bytes, rest: Bytes)
    requires AT !in base && (rest == [] || rest[0] == AT)
    ensures SimpleName(base + rest) == base
  {
    if base != [] {
      assert (base + rest)[1..] == base[1..] + rest;
      SimpleNameIs(base[1..], rest);
    } else {
      assert base + rest == rest;
    }
  }

  /** A node is the one asked for when its name up to the unit address is the name asked for. */
  lemma NodeNamed(q: Query, base: Bytes, unit: Option<Bytes>)
    requires AT !in base
    ensures NodeMatches(q, NodeName(base, unit)) <==> Utf8(NodeName(base, unit)) && base == q.node
  {
    hide Utf8, SimpleName;
    match unit
    case None =>
      SimpleNameIs(base, []);
      assert base + [] == base;
    case Some(u) =>
      SimpleNameIs(base, [AT] + u);
      assert base + ([AT] + u) == base + [AT] + u;
  }

  // ----- named trees -----

  datatype Tree =
    | Empty
    | Attribute(name: Bytes, data: Bytes, rest: Tree)
    | Child(base: Bytes, unit: Option<Bytes>, items: Tree, rest: Tree)

  /** A flat form of the tree: the same nodes and data, names at offsets of the strings block, no-ops anywhere. */
  predicate Describes(i: Items, strings: Bytes, t: Tree)
    decreases i
  {
    match i
    case Nil => t.Empty?
    case Nop(rest) => Describes(rest, strings, t)
    case Prop(offset, data, rest) =>
      && t.Attribute? && StandsAt(strings, offset, t.name) && data == t.data
      && Describes(rest, strings, t.rest)
    case Node(name, items, rest) =>
      && t.Child? && AT !in t.base && name == NodeName(t.base, t.unit)
      && Describes(items, strings, t.items) && Describes(rest, strings, t.rest)
  }

  /** The contents of the first node of that base name, parents before their children. */
  function FirstChild(t: Tree, node: Bytes): Option<Tree> {
    match t
    case Empty => None
    case Attribute(_, _, rest) => FirstChild(rest, node)
    case Child(base, unit, items, rest) =>
      if base == node && Utf8(NodeName(base, unit)) then Some(items)
      else if FirstChild(items, node).Some? then FirstChild(items, node)
      else FirstChild(rest, node)
  }

  /** The data of the first property of that name, not looking into child nodes. */
  function OwnProperty(t: Tree, prop: Bytes): Option<Bytes> {
    match t
    case Empty => None
    case Attribute(name, data, rest) => if name == prop then Some(data) else OwnProperty(rest, prop)
    case Child(_, _, _, rest) => OwnProperty(rest, prop)
  }

  lemma {:induction false} OwnPropertyIs(q: Query, i: Items, t: Tree)
    requires Describes(i, q.strings, t) && Utf8(q.prop)
    ensures DirectProp(q, i) == OwnProperty(t, q.prop)
  {
    hide Utf8, StandsAt, StringAt;
    match i
    case Nil =>
    case Nop(rest) =>
      OwnPropertyIs(q, rest, t);
    case Prop(offset, data, rest) =>
      StringOf(q.strings, offset, t.name);
      OwnPropertyIs(q, rest, t.rest);
    case Node(name, items, rest) =>
      OwnPropertyIs(q, rest, t.rest);
  }

  lemma {:induction false} FirstChildIs(q: Query, i: Items, t: Tree)
    requires Describes(i, q.strings, t)
    ensures FirstNode(q, i).Some? <==> FirstChild(t, q.node).Some?
    ensures FirstNode(q, i).Some? ==> Describes(FirstNode(q, i).value, q.strings, FirstChild(t, q.node).value)
  {
    hide Utf8, StandsAt, NodeMatches;
    match i
    case Nil =>
    case Nop(rest) =>
      FirstChildIs(q, rest, t);
    case Prop(offset, data, rest) =>
      FirstChildIs(q, rest, t.rest);
    case Node(name, items, rest) =>
      NodeNamed(q, t.base, t.unit);
      FirstChildIs(q, items, t.items);
      FirstChildIs(q, rest, t.rest);
  }

  /**
   * On every flat form of every device tree, for every way of placing the property names, the reader
   * returns the data of the property of that name of the first node of that name.
   */
  lemma FindsByName(block: Bytes, strings: Bytes, i: Items, t: Tree, tail: Bytes, node: Bytes, prop: Bytes)
    requires WellFormed(i) && Describes(i, strings, t) && block == StructBlock(i, tail) && Utf8(prop)
    ensures var found := FirstChild(t, node);
      Scan(Query(block, strings, node, prop), 0, 0, None)
      == if found.Some? then OwnProperty(found.value, prop) else None
  {
    hide Scan, WellFormed, StructBlock, Utf8, Describes, FirstNode, FirstChild, DirectProp, OwnProperty;
    var q := Query(block, strings, node, prop);
    FindsFirstInPreorder(q, i, tail);
    FirstChildIs(q, i, t);
    if FirstChild(t, node).Some? {
      OwnPropertyIs(q, FirstNode(q, i).value, FirstChild(t, node).value);
    }
  }

  function Ascii(s: string): (b: Bytes)
    requires forall k :: 0 <= k < |s| ==> 0 < s[k] as nat < 0x80
    ensures |b| == |s| && 0 !in b && forall k :: 0 <= k < |s| ==> b[k] == s[k] as nat
  {
    seq(|s|, k requires 0 <= k < |s| => s[k] as nat)
  }

  lemma {:induction false} AsciiIsUtf8(b: Bytes)
    requires forall k :: 0 <= k < |b| ==> b[k] < 0x80
    ensures Utf8(b)
  {
    if b != [] {
      AsciiIsUtf8(b[1..]);
    }
  }

  /** A memory node: two properties, the second one named by the second string of the block. */
  lemma MemoryNode(strings: Bytes, kind: Bytes, reg: Bytes, about: Bytes, data: Bytes)
    requires |data| < 0x1_0000_0000 && |about| < 0x1_0000_0000 && |kind| < 0x1_0000 && kind != reg
    requires StandsAt(strings, 0, kind) && StandsAt(strings, |kind| + 1, reg)
    ensures WellFormed(Prop(0, about, Prop(|kind| + 1, data, Nil)))
    ensures Describes(Prop(0, about, Prop(|kind| + 1, data, Nil)), strings,
      Attribute(kind, about, Attribute(reg, data, Empty)))
    ensures OwnProperty(Attribute(kind, about, Attribute(reg, data, Empty)), reg) == Some(data)
  {
    hide StandsAt;
    var last := Prop(|kind| + 1, data, Nil);
    var named := Attribute(reg, data, Empty);
    assert WellFormed(last);
    assert Describes(last.rest, strings, named.rest) && Describes(last, strings, named);
    assert OwnProperty(Attribute(reg, data, Empty), reg) == Some(data);
  }

  /** Where the kernel finds its memory, whatever nodes follow. */
  lemma MemoryReg(data: Bytes, rest: Items, t: Tree, block: Bytes, strings: Bytes, tail: Bytes)
    requires |data| < 0x1_0000_0000
    requires strings == Ascii("device_type") + [0] + Ascii("reg") + [0]
    requires WellFormed(rest) && Describes(rest, strings, t)
    requires block == StructBlock(
      Node(Ascii("memory@40000000"), Prop(0, Ascii("memory") + [0], Prop(12, data, Nil)), rest), tail)
    ensures Scan(Query(block, strings, Ascii("memory"), Ascii("reg")), 0, 0, None) == Some(data)
  {
    hide Scan, StructBlock, Flatten, Utf8, OwnProperty;
    var kind, reg, memory, at := Ascii("device_type"), Ascii("reg"), Ascii("memory"), Ascii("40000000");
    assert Ascii("memory@40000000") == memory + [AT] + at;
    assert strings[0..11] == kind && strings[12..15] == reg && kind[0] != reg[0];
    AsciiIsUtf8(reg);
    AsciiIsUtf8(memory + [AT] + at);
    MemoryNode(strings, kind, reg, memory + [0], data);
    var node := Node(memory + [AT] + at, Prop(0, memory + [0], Prop(12, data, Nil)), rest);
    var tree := Child(memory, Some(at), Attribute(kind, memory + [0], Attribute(reg, data, Empty)), t);
    assert Describes(node, strings, tree) && WellFormed(node);
    FindsByName(block, strings, node, tree, tail, memory, reg);
  }
}
