/** The glyph cache of the bundled terminal (console/xterm.js:7570-7641).

    A glyph is looked up under a key of 32 bits, into which its character, its colours and its
    style are packed; the entry says to which slot of the texture the glyph was drawn.  Two
    things are proved: slots are never confused, and exactly which glyphs have a key that
    another glyph may have been cached under. */
module GlyphCache {

  import opened Common
  import opened LruMap

  // ---------------------------------------------------------------- glyphs and keys

  /** The character of a cell, or the text of several cells that were joined, whose number is
      infinite (console/xterm.js:7287-7294). */
  datatype Code = Char(c: bv32) | JoinedText(text: string)

  /** The attributes are the 32-bit words that the shifts turn them into. */
  datatype Glyph = Glyph(code: Code, bg: bv32, fg: bv32, bold: bool, dim: bool, italic: bool)

  /** INVERTED_DEFAULT_COLOR, that is -1. */
  const INVERTED: bv32 := 0xFFFF_FFFF

  const BLANK := Char(32)

  /** Control characters have width 0 (console/xterm.js:774-776) and cells of width 0 are skipped. */
  predicate Control(c: bv32) {
    c < 32 || 127 <= c < 160
  }

  /** What is drawn: text that is joined or no control character, and for each colour nine bits or
      the inverted default. */
  predicate Drawable(g: Glyph) {
    && (g.code.Char? ==> !Control(g.code.c))
    && (g.bg <= 511 || g.bg == INVERTED) && (g.fg <= 511 || g.fg == INVERTED)
  }

  /** Shifting an infinite number shifts 0. */
  function Word(c: Code): bv32 {
    match c
    case Char(x) => x
    case JoinedText(_) => 0
  }

  function Style(g: Glyph): (s: bv32)
    ensures s <= 7
  {
    (if g.bold then 0 else 4) + (if g.dim then 0 else 2) + (if g.italic then 0 else 1)
  }

  function Bits(c: bv32, b: bv32, f: bv32, s: bv32): bv32 {
    (c << 21) | (b << 12) | (f << 3) | s
  }

  /** getGlyphCacheKey. */
  function CacheKey(g: Glyph): Key {
    Key(Bits(Word(g.code), g.bg, g.fg, Style(g)))
  }

  /** The glyphs that are ever drawn to the cache: _canCache, and draw's test for a blank. */
  predicate CanCache(g: Glyph) {
    g.code.Char? && g.code.c < 256 && g.code != BLANK
  }

  /** What is left of a glyph in its key: 11 bits of the character, 9 of each colour, the style.
      An inverted colour is all ones and overwrites all that is packed above it. */
  datatype Rest = Rest(c: bv32, b: bv32, f: bv32, s: bv32)

  function Kept(g: Glyph): Rest {
    var f := if g.fg == INVERTED then 511 else g.fg;
    var above := g.fg == INVERTED || g.bg == INVERTED;
    Rest(if above then 2047 else Word(g.code) & 2047, if above then 511 else g.bg, f, Style(g))
  }

  function Unpacked(k: bv32): Rest {
    Rest(k >> 21, (k >> 12) & 511, (k >> 3) & 511, k & 7)
  }

  function Packed(r: Rest): bv32 {
    Bits(r.c, r.b, r.f, r.s)
  }

  lemma BitsKept(c: bv32, b: bv32, f: bv32, s: bv32)
    requires (b <= 511 || b == INVERTED) && (f <= 511 || f == INVERTED) && s <= 7
    ensures Unpacked(Bits(c, b, f, s)) ==
      Rest(if f == INVERTED || b == INVERTED then 2047 else c & 2047,
           if f == INVERTED || b == INVERTED then 511 else b,
           if f == INVERTED then 511 else f, s)
  {
  }

  lemma PackedAgain(k: bv32)
    ensures Packed(Unpacked(k)) == k
  {
  }

  lemma KeyIsKept(g: Glyph)
    requires Drawable(g)
    ensures Unpacked(CacheKey(g).bits) == Kept(g) && Packed(Kept(g)) == CacheKey(g).bits
  {
    hide Bits, Style, Word, Unpacked, Packed;
    BitsKept(Word(g.code), g.bg, g.fg, Style(g));
    PackedAgain(CacheKey(g).bits);
  }

  /** Two glyphs have the same key if and only if the same is left of them. */
  lemma SameKeyIff(g: Glyph, h: Glyph)
    requires Drawable(g) && Drawable(h)
    ensures CacheKey(g) == CacheKey(h) <==> Kept(g) == Kept(h)
  {
    KeyIsKept(g);
    KeyIsKept(h);
    hide Kept, Unpacked, Packed, CacheKey;
  }

  // ---------------------------------------------------------------- mistaken glyphs

  /** No other glyph can be in the cache under the key of g: its colours are not inverted, and the
      11 bits that are left of its character are the whole of it, or those of no cached one, as
      blanks, control characters and numbers from 256 are never cached. */
  predicate Unmistakable(g: Glyph) {
    && g.fg != INVERTED && g.bg != INVERTED
    && var c := Word(g.code) & 2047;
       if CanCache(g) then true
       else c == 32 || Control(c) || (256 <= c && (c != 2047 || g.bg != 511))
  }

  /** A cached glyph that has the key of g. */
  function Other(g: Glyph): (h: Glyph) {
    if g.fg == INVERTED || g.bg == INVERTED then
      g.(code := if g.code == Char(65) then Char(66) else Char(65))
    else if Word(g.code) & 2047 == 2047 then g.(code := Char(65), bg := INVERTED)
    else g.(code := Char(Word(g.code) & 2047))
  }

  lemma OtherHasTheKey(g: Glyph)
    requires Drawable(g) && !Unmistakable(g)
    ensures Drawable(Other(g)) && CanCache(Other(g)) && Other(g) != g && CacheKey(Other(g)) == CacheKey(g)
  {
    OtherIsCached(g);
    OtherKept(g);
    hide Kept, CacheKey, Other, Unmistakable, CanCache;
    SameKeyIff(g, Other(g));
  }

  lemma OtherIsCached(g: Glyph)
    requires Drawable(g) && !Unmistakable(g)
    ensures Drawable(Other(g)) && CanCache(Other(g)) && Other(g) != g
  {
  }

  lemma OtherKept(g: Glyph)
    requires Drawable(g) && !Unmistakable(g)
    ensures Kept(Other(g)) == Kept(g)
  {
    var h, c := Other(g), Word(g.code) & 2047;
    SameStyle(g, h);
    MaskTwice(Word(g.code));
    hide Style, CanCache;
    if g.fg == INVERTED || g.bg == INVERTED {
      assert Kept(h) == Kept(g);
    } else if c == 2047 {
      assert h.bg == INVERTED && g.bg == 511;
    } else {
      assert Word(h.code) == c;
    }
  }

  lemma MaskTwice(c: bv32)
    ensures (c & 2047) & 2047 == c & 2047
  {
  }

  lemma SameStyle(g: Glyph, h: Glyph)
    ensures g.bold == h.bold && g.dim == h.dim && g.italic == h.italic ==> Style(g) == Style(h)
  {
  }

  lemma StyleDecides(g: Glyph, h: Glyph)
    requires Style(g) == Style(h)
    ensures g.bold == h.bold && g.dim == h.dim && g.italic == h.italic
  {
  }

  /** Main result on the keys: the key of a glyph stands for no other glyph that is ever cached,
      if and only if the glyph is unmistakable. */
  lemma UnmistakableIff(g: Glyph)
    requires Drawable(g)
    ensures Unmistakable(g) <==> forall h :: Drawable(h) && CanCache(h) && CacheKey(h) == CacheKey(g) ==> h == g
  {
    if Unmistakable(g) {
      forall h | Drawable(h) && CanCache(h) && CacheKey(h) == CacheKey(g) ensures h == g {
        hide CacheKey, Style;
        SameKeyIff(g, h);
        SmallCode(h.code.c);
        StyleDecides(g, h);
      }
    } else {
      OtherHasTheKey(g);
    }
  }

  lemma SmallCode(c: bv32)
    ensures c < 256 ==> c & 2047 == c
  {
  }

  /** After an inverted A, an inverted B of the same style is looked up under the key of the A. */
  lemma InvertedExample(bg: bv32)
    requires bg <= 511
    ensures CacheKey(Glyph(Char(65), bg, INVERTED, false, false, false)) == CacheKey(Glyph(Char(66), bg, INVERTED, false, false, false))
  {
  }

  /** U+3042 is looked up under the key of a B of the same colours and style. */
  lemma WideExample(bg: bv32, fg: bv32)
    ensures CacheKey(Glyph(Char(0x3042), bg, fg, false, false, false)) == CacheKey(Glyph(Char(66), bg, fg, false, false, false))
  {
  }

  // ---------------------------------------------------------------- texture slots

  const FRAME_CACHE_DRAW_LIMIT := 100

  /** The entries have pairwise different texture slots among the first |es|. */
  predicate SlotsOk(es: Entries) {
    && (forall i :: 0 <= i < |es| ==> es[i].value < |es|)
    && (forall i, j :: 0 <= i < j < |es| ==> es[i].value != es[j].value)
  }

  /** Every entry's slot contains a glyph that has the entry's key. */
  predicate TextureOk(es: Entries, texture: map<nat, Glyph>) {
    forall i :: 0 <= i < |es| ==> es[i].value in texture && Keyed(texture[es[i].value], es[i].key)
  }

  predicate Keyed(g: Glyph, k: Key) {
    Drawable(g) && CanCache(g) && CacheKey(g) == k
  }

  /** The slot a glyph that is not cached is drawn to. */
  function NextSlot(es: Entries, capacity: nat): nat
    requires |es| < capacity || es != []
  {
    if |es| < capacity then |es| else es[0].value
  }

  /** The slots in use are exactly the first |es|. */
  lemma SlotsFill(es: Entries, s: nat)
    requires SlotsOk(es) && s < |es|
    ensures exists i :: 0 <= i < |es| && es[i].value == s
  {
    if forall i :: 0 <= i < |es| ==> es[i].value != s {
      var used, n := {}, 0;
      while n < |es|
        invariant n <= |es| && |used| == n
        invariant forall x :: x in used <==> exists i :: 0 <= i < n && es[i].value == x
      {
        used := used + {es[n].value};
        n := n + 1;
      }
      SubsetSize(used, UpTo(|es|) - {s});
    }
  }

  function UpTo(n: nat): (r: set<nat>)
    ensures |r| == n && forall x: nat :: x in r <==> x < n
  {
    if n == 0 then {} else UpTo(n - 1) + {n - 1}
  }

  lemma MovedEntries(es: Entries, p: nat)
    requires p < |es|
    ensures var es' := Removed(es, p) + [es[p]];
            |es'| == |es| && forall i :: 0 <= i < |es| ==> es'[i] == es[Origin(|es|, p, i)]
  {
  }

  /** Using an entry keeps the slots. */
  lemma UseKeepsSlots(es: Entries, k: Key, texture: map<nat, Glyph>)
    requires SlotsOk(es) && TextureOk(es, texture) && Has(es, k)
    ensures var es' := Used(es, k, es[Position(es, k)].value);
            SlotsOk(es') && TextureOk(es', texture) && |es'| == |es|
  {
    var p := Position(es, k);
    var es' := Used(es, k, es[p].value);
    assert es' == Removed(es, p) + [es[p]];
    MovedEntries(es, p);
    hide Has, Position, Used, Removed;
    OriginInjective(|es|, p);
  }

  lemma OriginInjective(n: nat, p: nat)
    requires p < n
    ensures forall i, j :: 0 <= i < j < n ==> Origin(n, p, i) != Origin(n, p, j)
  {
  }

  /** A new glyph gets a slot of its own, or exactly that of the evicted one. */
  lemma PutKeepsSlots(es: Entries, k: Key, g: Glyph, texture: map<nat, Glyph>, capacity: nat)
    requires SlotsOk(es) && TextureOk(es, texture) && !Has(es, k) && Keyed(g, k) && 1 <= capacity && |es| <= capacity
    ensures var s := NextSlot(es, capacity);
            var es' := Put(es, k, s, capacity);
            SlotsOk(es') && TextureOk(es', texture[s := g])
  {
    hide Has, Keyed;
  }

  class DynamicCharAtlas {
    const cacheMap: LRUMap
    var drawToCacheCount: nat
    /** The glyph that each slot of the cache canvas shows. */
    var texture: map<nat, Glyph>

    ghost predicate Valid()
      reads this, cacheMap, cacheMap.order
    {
      cacheMap.Valid() && SlotsOk(cacheMap.Content()) && TextureOk(cacheMap.Content(), texture)
    }

    constructor (capacity: nat)
      requires capacity >= 1
      ensures Valid() && cacheMap.Content() == [] && cacheMap.capacity == capacity && drawToCacheCount == 0
      ensures fresh(cacheMap) && fresh(cacheMap.Nodes())
    {
      hide Replay;
      var m := new LRUMap(capacity);
      m.Prealloc(capacity);
      cacheMap := m;
      drawToCacheCount, texture := 0, map[];
    }

    method BeginFrame()
      requires Valid()
      modifies this`drawToCacheCount
      ensures Valid() && drawToCacheCount == 0
    {
      hide IndexedBy, Replay;
      drawToCacheCount := 0;
    }

    /** Draws a glyph from the cache, caching it first if that is allowed; `shown` is the glyph
        that the slot copied to the screen contains. */
    method Draw(g: Glyph) returns (done: bool, shown: Option<Glyph>)
      requires Valid() && Drawable(g)
      modifies this, cacheMap, cacheMap.Nodes()
      ensures Valid() && fresh(cacheMap.Nodes() - old(cacheMap.Nodes()))
      ensures done && g.code != BLANK ==> shown.Some? && Keyed(shown.value, CacheKey(g))
      ensures done && g.code != BLANK && (Unmistakable(g) || !old(Has(cacheMap.Content(), CacheKey(g)))) ==> shown == Some(g)
      ensures drawToCacheCount == old(drawToCacheCount) +
        if done && g.code != BLANK && !old(Has(cacheMap.Content(), CacheKey(g))) then 1 else 0
      ensures done <==> g.code == BLANK || old(Has(cacheMap.Content(), CacheKey(g)))
                        || (CanCache(g) && old(drawToCacheCount) < FRAME_CACHE_DRAW_LIMIT)
      ensures var es, key := old(cacheMap.Content()), CacheKey(g);
              cacheMap.Content() ==
                if g.code == BLANK then es
                else if Has(es, key) then Used(es, key, es[Position(es, key)].value)
                else if done then Put(es, key, NextSlot(es, cacheMap.capacity), cacheMap.capacity)
                else es
      ensures var es, key := old(cacheMap.Content()), CacheKey(g);
              if g.code != BLANK && Has(es, key) then
                && texture == old(texture)
                && es[Position(es, key)].value in texture && shown == Some(texture[es[Position(es, key)].value])
              else texture == if done && g.code != BLANK then old(texture)[NextSlot(es, cacheMap.capacity) := g] else old(texture)
    {
      hide Has, Position, SlotsOk, TextureOk, Used, Put, IndexedBy, Replay, Keyed, Drawable, CacheKey, Unmistakable;
      hide LRUMap.Linked, LRUMap.Pooled, LRUMap.Indexed;
      if g.code == BLANK {
        return true, None;
      }
      ghost var es := cacheMap.Content();
      var key := CacheKey(g);
      if Has(es, key) { UseKeepsSlots(es, key, texture); }
      var cacheValue := cacheMap.Get(key);
      if cacheValue.Some? {
        TextureAt(es, texture, key);
        if Unmistakable(g) { ShownIs(texture[cacheValue.value], g); }
        return true, Some(texture[cacheValue.value]);
      } else if g.code.Char? && g.code.c < 256 && drawToCacheCount < FRAME_CACHE_DRAW_LIMIT {
        var index;
        if cacheMap.size < cacheMap.capacity {
          index := cacheMap.size;
        } else {
          var first := cacheMap.Peek();
          index := first.value;
        }
        KeyOfOwn(g);
        PutKeepsSlots(es, key, g, texture, cacheMap.capacity);
        drawToCacheCount := drawToCacheCount + 1;
        texture := texture[index := g];
        cacheMap.Set(key, index);
        return true, Some(texture[index]);
      }
      return false, None;
    }
  }

  lemma KeyOfOwn(g: Glyph)
    requires Drawable(g) && CanCache(g)
    ensures Keyed(g, CacheKey(g))
  {
  }

  lemma ShownIs(h: Glyph, g: Glyph)
    requires Drawable(g) && Keyed(h, CacheKey(g)) && Unmistakable(g)
    ensures h == g
  {
    UnmistakableIff(g);
  }

  lemma TextureAt(es: Entries, texture: map<nat, Glyph>, k: Key)
    requires TextureOk(es, texture) && Has(es, k)
    ensures var s := es[Position(es, k)].value; s in texture && Keyed(texture[s], k)
  {
  }

  /** Every glyph that is neither blank nor unmistakable can be mistaken: when the other one with
      its key was drawn before, that one is shown. */
  method ShowsAnother(g: Glyph, capacity: nat) returns (other: Glyph, shown: Option<Glyph>)
    requires Drawable(g) && g.code != BLANK && !Unmistakable(g) && capacity >= 1
    ensures shown == Some(other) && other != g
  {
    hide Drawable, CacheKey, Unmistakable, Keyed, Put, Position;
    hide LRUMap.Valid, SlotsOk, TextureOk;
    other := Other(g);
    OtherHasTheKey(g);
    var atlas := new DynamicCharAtlas(capacity);
    NothingCached(CacheKey(g), capacity);
    var done, first := atlas.Draw(other);
    done, shown := atlas.Draw(g);
  }

  lemma NothingCached(k: Key, capacity: nat)
    requires capacity >= 1
    ensures !Has([], k) && NextSlot([], capacity) == 0
    ensures var es := Put([], k, 0, capacity); Has(es, k) && es == [Entry(k, 0)] && es[Position(es, k)].value == 0
  {
    var es := Put([], k, 0, capacity);
    assert es == [Entry(k, 0)] && es[0].key == k;
  }
}
