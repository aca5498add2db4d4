/** Bloom words: 64 bits that summarise the one to three byte windows of a
    text, so that a text lacking a bit of a literal lacks the literal. */
module Bloom {
  import opened Wrappers
  import opened Filters
  import opened Regex

  const FNV_OFFSET: bv64 := 1469598103934665603
  const FNV_PRIME: bv64 := 1099511628211

  function Mix(hash: bv64, byte: bv64): bv64 {
    (hash ^ byte) * FNV_PRIME
  }

  function HashFrom(hash: bv64, value: string): bv64
    decreases |value|
  {
    if value == "" then hash else HashFrom(Mix(hash, value[0] as bv64), value[1..])
  }

  function Shift(n: bv64): bv64 {
    1 << ((n & 63) as int)
  }

  function Union(a: bv64, b: bv64): bv64 {
    a | b
  }

  /** The one or two bits a hash picks. */
  function PairBits(hash: bv64): bv64 {
    Union(Shift(hash), Shift(hash >> 6))
  }

  function Hash(value: string): bv64
    requires |value| <= 3
  {
    HashFrom(Begin(|value| as bv64), value)
  }

  /** The hash of a text of a length, before its bytes. */
  function Begin(length: bv64): bv64 {
    Mix(FNV_OFFSET, length)
  }

  lemma HashStep(hash: bv64, c: char, rest: string)
    ensures HashFrom(hash, [c] + rest) == HashFrom(Mix(hash, c as bv64), rest)
    ensures rest == "" ==> HashFrom(hash, [c] + rest) == Mix(hash, c as bv64)
  {
    hide Mix;
    assert ([c] + rest)[1..] == rest;
  }

  lemma MixesAbc()
    ensures Begin(3) == 0x44bd28d473ccf280 && Mix(0x44bd28d473ccf280, 97) == 0x9a5f4200c540b453
    ensures Mix(0x9a5f4200c540b453, 98) == 0x9091584f2cf22f43 && Mix(0x9091584f2cf22f43, 99) == 0x99282e895f861360
  {
  }

  /** A known value, which fixes the constants: the writer and the reader of an
      index must use the same. */
  lemma HashOfAbc()
    ensures Hash("abc") == 0x99282e895f861360
  {
    hide Mix, HashFrom, Begin;
    MixesAbc();
    CharBits();
    assert "abc" == ['a'] + "bc" && "bc" == ['b'] + "c" && "c" == ['c'] + "";
    HashStep(0x44bd28d473ccf280, 'a', "bc");
    HashStep(0x9a5f4200c540b453, 'b', "c");
    HashStep(0x9091584f2cf22f43, 'c', "");
  }

  lemma CharBits()
    ensures |"abc"| as bv64 == 3 && 'a' as bv64 == 97 && 'b' as bv64 == 98 && 'c' as bv64 == 99
  {
  }

  /** The bits of a window. */
  function Bits(value: string): bv64
    requires |value| <= 3
  {
    PairBits(Hash(value))
  }

  /** The bits of the first `n` windows of a width. */
  function WindowBits(s: string, width: nat, n: nat): bv64
    requires width <= 3 && (n == 0 || n - 1 + width <= |s|)
  {
    if n == 0 then 0 else Union(WindowBits(s, width, n - 1), Bits(s[n - 1..n - 1 + width]))
  }

  function Windows(s: string, width: nat): nat {
    if |s| < width then 0 else |s| - width + 1
  }

  function WidthBits(s: string, width: nat): bv64
    requires 1 <= width <= 3
  {
    WindowBits(s, width, Windows(s, width))
  }

  function Mask(s: string): bv64 {
    Union(Union(WidthBits(s, 1), WidthBits(s, 2)), WidthBits(s, 3))
  }

  // ---- Bits

  /** Every bit of `a` is a bit of `b`. */
  predicate Covers(b: bv64, a: bv64) {
    b & a == a
  }

  lemma CoversUnion(b: bv64, a: bv64, c: bv64)
    ensures Covers(b, a) && Covers(b, c) ==> Covers(b, Union(a, c))
    ensures Covers(b, a) ==> Covers(Union(b, c), a) && Covers(Union(c, b), a)
    ensures Covers(b, b) && Covers(b, 0)
  {
  }

  lemma ThreeCovered(a: bv64, b: bv64, c: bv64, x: bv64, y: bv64, z: bv64)
    requires Covers(a, x) && Covers(b, y) && Covers(c, z)
    ensures Covers(Union(Union(a, b), c), Union(Union(x, y), z))
  {
  }

  lemma CoversNonzero(b: bv64, a: bv64)
    requires Covers(b, a) && a != 0
    ensures b != 0
  {
  }

  lemma UnionLaws(a: bv64, b: bv64, c: bv64)
    ensures Union(Union(a, b), c) == Union(a, Union(b, c)) && Union(0, a) == a == Union(a, 0)
  {
  }

  lemma PairNonzero(hash: bv64)
    ensures PairBits(hash) != 0
  {
    hide Shift, Union;
    ShiftNonzero(hash);
    CoversUnion(Shift(hash), Shift(hash), Shift(hash >> 6));
    CoversNonzero(PairBits(hash), Shift(hash));
  }

  lemma ShiftNonzero(n: bv64)
    ensures Shift(n) != 0
  {
  }

  // ---- A literal's mask within a text's

  lemma {:induction false} WindowCovered(s: string, width: nat, n: nat, k: nat)
    requires width <= 3 && k < n && n - 1 + width <= |s|
    ensures Covers(WindowBits(s, width, n), Bits(s[k..k + width]))
    decreases n
  {
    hide Bits, Covers, Union;
    var here := Bits(s[n - 1..n - 1 + width]);
    if k == n - 1 {
      CoversUnion(here, here, WindowBits(s, width, n - 1));
    } else {
      WindowCovered(s, width, n - 1, k);
      CoversUnion(WindowBits(s, width, n - 1), Bits(s[k..k + width]), here);
    }
  }

  lemma HeldWindow(s: string, needle: string, at: nat, width: nat, i: nat)
    requires OccursAt(s, needle, at) && 1 <= width <= 3 && i + width <= |needle|
    ensures Covers(WidthBits(s, width), Bits(needle[i..i + width]))
  {
    hide Bits, Covers, WindowBits;
    SliceOfSlice(s, at, |needle|, i, width);
    WindowCovered(s, width, Windows(s, width), at + i);
  }

  lemma {:induction false} WidthCovered(s: string, needle: string, at: nat, width: nat, n: nat)
    requires OccursAt(s, needle, at) && 1 <= width <= 3 && n <= Windows(needle, width)
    ensures Covers(WidthBits(s, width), WindowBits(needle, width, n))
    decreases n
  {
    hide Bits, Covers, Union, WidthBits, OccursAt;
    var all := WidthBits(s, width);
    CoversUnion(all, all, all);
    if n > 0 {
      WidthCovered(s, needle, at, width, n - 1);
      HeldWindow(s, needle, at, width, n - 1);
      CoversUnion(all, WindowBits(needle, width, n - 1), Bits(needle[n - 1..n - 1 + width]));
    }
  }

  /** A text that holds a literal has every bit of the literal's mask. */
  lemma HeldMaskCovered(s: string, needle: string, at: nat)
    requires OccursAt(s, needle, at)
    ensures Covers(Mask(s), Mask(needle))
  {
    hide Covers, WindowBits, Union;
    WidthCovered(s, needle, at, 1, Windows(needle, 1));
    WidthCovered(s, needle, at, 2, Windows(needle, 2));
    WidthCovered(s, needle, at, 3, Windows(needle, 3));
    ThreeCovered(WidthBits(s, 1), WidthBits(s, 2), WidthBits(s, 3),
                 WidthBits(needle, 1), WidthBits(needle, 2), WidthBits(needle, 3));
  }

  /** Only the empty literal has an empty mask: a seed always has a bit to look
      for. */
  lemma MaskNonzero(s: string)
    requires s != ""
    ensures Mask(s) != 0
  {
    hide Covers, Union, Hash, PairBits, WindowBits;
    var one := Bits(s[0..1]);
    PairNonzero(Hash(s[0..1]));
    WindowCovered(s, 1, |s|, 0);
    CoversUnion(WidthBits(s, 1), one, WidthBits(s, 2));
    CoversUnion(Union(WidthBits(s, 1), WidthBits(s, 2)), one, WidthBits(s, 3));
    CoversNonzero(Mask(s), one);
  }

  /** The windows of each width, chars folded as they are read. */
  method LiteralMask(literal: string, foldAscii: bool) returns (mask: bv64)
    ensures mask == Mask(FoldAll(foldAscii, literal))
  {
    hide Bits, Union;
    ghost var folded := FoldAll(foldAscii, literal);
    mask := 0;
    UnionLaws(WidthBits(folded, 1), 0, 0);
    for width := 1 to 4
      invariant width == 1 ==> mask == 0
      invariant width == 2 ==> mask == WidthBits(folded, 1)
      invariant width == 3 ==> mask == Union(WidthBits(folded, 1), WidthBits(folded, 2))
      invariant width == 4 ==> mask == Mask(folded)
    {
      UnionLaws(mask, WidthBits(folded, width), 0);
      mask := AddWindows(literal, foldAscii, width, mask);
    }
  }

  method AddWindows(literal: string, foldAscii: bool, width: nat, before: bv64) returns (mask: bv64)
    requires 1 <= width <= 3
    ensures mask == Union(before, WidthBits(FoldAll(foldAscii, literal), width))
  {
    hide Bits, Union;
    ghost var folded := FoldAll(foldAscii, literal);
    mask := before;
    UnionLaws(before, 0, 0);
    var start := 0;
    while start + width <= |literal|
      invariant 0 <= start <= Windows(literal, width)
      invariant mask == Union(before, WindowBits(folded, width, start))
    {
      var window := FoldAll(foldAscii, literal[start..start + width]);
      assert window == folded[start..start + width];
      UnionLaws(before, WindowBits(folded, width, start), Bits(window));
      mask := Union(mask, Bits(window));
      start := start + 1;
    }
  }
}
