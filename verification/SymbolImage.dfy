/**
 * Images of objects as the 32-bit layouts of the System V gABI put them into memory, and what the
 * lookup finds in them: dynamic sections of DT_SYMTAB, DT_STRTAB, DT_HASH and DT_NULL, a hash table
 * header, a symbol table with entries of sixteen bytes, and a string table that begins with a zero.
 */
module SymbolImage {
  import opened Common
  import opened Tracee
  import opened Symbols

  // ----- bytes in memory

  ghost predicate Lies(m: Memory, a: int, data: seq<Byte>)
  {
    forall i :: 0 <= i < |data| ==> At(m, a, i) == data[i]
  }

  lemma LiesWithin(m: Memory, a: int, pre: seq<Byte>, part: seq<Byte>, post: seq<Byte>)
    requires Lies(m, a, pre + part + post)
    ensures Lies(m, a + |pre|, part)
  {
    hide At;
    forall i | 0 <= i < |part| ensures At(m, a + |pre|, i) == part[i] {
      assert (pre + part + post)[|pre| + i] == part[i];
      AtShift(m, a, |pre|, i);
    }
  }

  lemma AtShift(m: Memory, a: int, n: int, i: int)
    ensures At(m, a + n, i) == At(m, a, n + i)
  {
  }

  lemma WrittenLies(m: Memory, a: Address, data: seq<Byte>)
    requires a + |data| <= ADDRESS_SPACE
    ensures Lies(Written(m, a, data), a, data)
  {
    forall i | 0 <= i < |data| ensures At(Written(m, a, data), a, i) == data[i] {
      WrittenByte(m, a, data, a + i);
    }
  }

  predicate IsWord(x: int) { 0 <= x < 0x1_0000_0000 }

  /** A word written at `a + i` is the word read there. */
  lemma WordLies(m: Memory, a: int, i: int, x: int)
    requires Lies(m, a + i, Bytes32(x)) && IsWord(x)
    ensures Word(m, a, i) == x
  {
    hide At, Bytes32, LittleEndian;
    var w := Bytes32(x);
    AtShift(m, a, i, 0);
    AtShift(m, a, i, 1);
    AtShift(m, a, i, 2);
    AtShift(m, a, i, 3);
    assert [At(m, a, i), At(m, a, i + 1), At(m, a, i + 2), At(m, a, i + 3)] == w;
    Bytes32Unsigned(x);
  }

  // ----- the link map

  function LinkMapBytes(lm: LinkMap, prev: int): seq<Byte>
  {
    Bytes32(lm.addr) + Bytes32(lm.name) + Bytes32(lm.ld) + Bytes32(lm.next) + Bytes32(prev)
  }

  predicate IsLinkMap(lm: LinkMap) { IsWord(lm.addr) && IsWord(lm.name) && IsWord(lm.ld) && IsWord(lm.next) }

  lemma LinkMapLies(m: Memory, a: int, lm: LinkMap, prev: int)
    requires Lies(m, a, LinkMapBytes(lm, prev)) && IsLinkMap(lm)
    ensures LinkMapAt(m, a) == lm
  {
    hide Lies, Bytes32, Word;
    var b, c, d, e, f := Bytes32(lm.addr), Bytes32(lm.name), Bytes32(lm.ld), Bytes32(lm.next), Bytes32(prev);
    assert LinkMapBytes(lm, prev) == [] + b + (c + d + e + f) == b + c + (d + e + f);
    assert LinkMapBytes(lm, prev) == (b + c) + d + (e + f) == (b + c + d) + e + f;
    LiesWithin(m, a, [], b, c + d + e + f);
    LiesWithin(m, a, b, c, d + e + f);
    LiesWithin(m, a, b + c, d, e + f);
    LiesWithin(m, a, b + c + d, e, f);
    WordLies(m, a, 0, lm.addr);
    WordLies(m, a, 4, lm.name);
    WordLies(m, a, 8, lm.ld);
    WordLies(m, a, 12, lm.next);
  }

  // ----- an object

  datatype Sym = Sym(name: seq<Byte>, value: int, size: int, info: Byte, other: Byte, index: int)

  predicate IsName(s: seq<Byte>) { |s| < 64 && forall i :: 0 <= i < |s| ==> s[i] != 0 }

  predicate IsSym(s: Sym) { IsName(s.name) && IsWord(s.value) && IsWord(s.size) }

  /** The names one after the other, each with its zero. */
  function Names(syms: seq<Sym>): seq<Byte>
  {
    if syms == [] then [] else Names(syms[..|syms| - 1]) + syms[|syms| - 1].name + [0]
  }

  /** Where in the string table the name of symbol `i` begins. */
  function NameOffset(syms: seq<Sym>, i: nat): int
    requires i <= |syms|
  {
    1 + |Names(syms[..i])|
  }

  function SymBytes(s: Sym, nameOffset: int): (b: seq<Byte>)
    ensures |b| == 16
  {
    Bytes32(nameOffset) + Bytes32(s.value) + Bytes32(s.size) + [s.info, s.other] + Bytes32(s.index)[..2]
  }

  function SymTable(syms: seq<Sym>): (b: seq<Byte>)
    ensures |b| == 16 * |syms|
  {
    if syms == [] then []
    else
      var n := |syms| - 1;
      SymTable(syms[..n]) + SymBytes(syms[n], NameOffset(syms, n))
  }

  /** An object whose dynamic section is at `base`, followed by hash table, symbols and names. */
  function Dynamic(base: int, n: nat): (b: seq<Byte>)
    ensures |b| == 32
  {
    Bytes32(6) + Bytes32(base + 40) + Bytes32(5) + Bytes32(base + 40 + 16 * n)
    + Bytes32(4) + Bytes32(base + 32) + Bytes32(0) + Bytes32(0)
  }

  function Hash(n: nat): (b: seq<Byte>)
    ensures |b| == 8
  {
    Bytes32(1) + Bytes32(n)
  }

  function ObjectBytes(base: int, syms: seq<Sym>): seq<Byte>
  {
    Dynamic(base, |syms|) + Hash(|syms|) + SymTable(syms) + ([0] + Names(syms))
  }

  function ObjectSize(syms: seq<Sym>): int { 41 + 16 * |syms| + |Names(syms)| }

  /** The object is in memory at `base`, within the address space. */
  ghost predicate ObjectAt(m: Memory, base: int, syms: seq<Sym>)
  {
    && (forall s :: s in syms ==> IsSym(s)) && |syms| < 0x8000_0000
    && 0 <= base && base + ObjectSize(syms) <= ADDRESS_SPACE
    && Lies(m, base, Dynamic(base, |syms|)) && Lies(m, base + 32, Hash(|syms|))
    && Lies(m, base + 40, SymTable(syms)) && Lies(m, base + 40 + 16 * |syms|, [0] + Names(syms))
  }

  function TablesAt(base: int, syms: seq<Sym>): Tables { Tables(base + 40, base + 40 + 16 * |syms|, |syms|) }

  lemma ObjectLies(m: Memory, base: int, syms: seq<Sym>)
    requires Lies(m, base, ObjectBytes(base, syms)) && (forall s :: s in syms ==> IsSym(s))
    requires |syms| < 0x8000_0000 && 0 <= base && base + ObjectSize(syms) <= ADDRESS_SPACE
    ensures ObjectAt(m, base, syms)
  {
    hide Lies, Dynamic, Hash, SymTable, Names;
    var d, h, t, s := Dynamic(base, |syms|), Hash(|syms|), SymTable(syms), [0] + Names(syms);
    assert ObjectBytes(base, syms) == [] + d + (h + t + s) == d + h + (t + s) == (d + h) + t + s;
    assert ObjectBytes(base, syms) == (d + h + t) + s + [];
    LiesWithin(m, base, [], d, h + t + s);
    LiesWithin(m, base, d, h, t + s);
    LiesWithin(m, base, d + h, t, s);
    LiesWithin(m, base, d + h + t, s, []);
  }

  lemma DynamicWords(m: Memory, base: int, n: nat)
    requires Lies(m, base, Dynamic(base, n)) && 0 <= base && base + 40 + 16 * n < ADDRESS_SPACE
    ensures Tag(m, base, 0) == 6 && Val(m, base, 0) == base + 40
    ensures Tag(m, base, 1) == 5 && Val(m, base, 1) == base + 40 + 16 * n
    ensures Tag(m, base, 2) == 4 && Val(m, base, 2) == base + 32
    ensures Tag(m, base, 3) == 0
  {
    hide Lies, Bytes32, Word;
    var a, b, c, d := Bytes32(6), Bytes32(base + 40), Bytes32(5), Bytes32(base + 40 + 16 * n);
    var e, f, g, h := Bytes32(4), Bytes32(base + 32), Bytes32(0), Bytes32(0);
    var all := Dynamic(base, n);
    assert all == [] + a + (b + c + d + e + f + g + h) == a + b + (c + d + e + f + g + h);
    LiesWithin(m, base, [], a, b + c + d + e + f + g + h);
    LiesWithin(m, base, a, b, c + d + e + f + g + h);
    assert all == (a + b) + c + (d + e + f + g + h) == (a + b + c) + d + (e + f + g + h);
    LiesWithin(m, base, a + b, c, d + e + f + g + h);
    LiesWithin(m, base, a + b + c, d, e + f + g + h);
    assert all == (a + b + c + d) + e + (f + g + h) == (a + b + c + d + e) + f + (g + h);
    LiesWithin(m, base, a + b + c + d, e, f + g + h);
    LiesWithin(m, base, a + b + c + d + e, f, g + h);
    assert all == (a + b + c + d + e + f) + g + h;
    LiesWithin(m, base, a + b + c + d + e + f, g, h);
    WordLies(m, base, 0, 6);
    WordLies(m, base, 4, base + 40);
    WordLies(m, base, 8, 5);
    WordLies(m, base, 12, base + 40 + 16 * n);
    WordLies(m, base, 16, 4);
    WordLies(m, base, 20, base + 32);
    WordLies(m, base, 24, 0);
  }

  lemma HashWord(m: Memory, a: int, n: nat)
    requires Lies(m, a, Hash(n)) && n < 0x8000_0000
    ensures Signed32(Word(m, a, 4)) == n
  {
    hide Bytes32, Word;
    assert Hash(n) == Bytes32(1) + Bytes32(n) + [];
    LiesWithin(m, a, Bytes32(1), Bytes32(n), []);
    WordLies(m, a, 4, n);
  }

  /** The dynamic section of an image gives its tables. */
  lemma ImageTables(m: Memory, base: int, syms: seq<Sym>, lm: LinkMap)
    requires ObjectAt(m, base, syms) && lm.ld == base
    ensures Ends(m, lm.ld, 3) && TablesOf(m, lm, 3) == Some(TablesAt(base, syms))
    ensures Last(m, lm.ld, 3, {DT_RELAENT, DT_RELENT}) == None
  {
    hide Lies, Dynamic, Hash, SymTable, Names, Tag, Val, Word;
    DynamicWords(m, base, |syms|);
    HashWord(m, base + 32, |syms|);
    assert forall i :: 0 <= i < 3 ==> Tag(m, base, i) != 0;
    assert Last(m, base, 3, {DT_SYMTAB}) == Last(m, base, 2, {DT_SYMTAB}) == Last(m, base, 1, {DT_SYMTAB});
    assert Last(m, base, 3, {DT_STRTAB}) == Last(m, base, 2, {DT_STRTAB});
    assert Last(m, base, 3, {DT_RELAENT, DT_RELENT}) == Last(m, base, 2, {DT_RELAENT, DT_RELENT}) ==
           Last(m, base, 1, {DT_RELAENT, DT_RELENT}) == Last(m, base, 0, {DT_RELAENT, DT_RELENT});
  }

  lemma {:induction false} SymTableSplit(syms: seq<Sym>, i: nat) returns (post: seq<Byte>)
    requires i < |syms|
    ensures SymTable(syms) == SymTable(syms[..i]) + SymBytes(syms[i], NameOffset(syms, i)) + post
  {
    hide SymBytes, Names;
    var n := |syms| - 1;
    assert syms[..n][..i] == syms[..i];
    if i == n {
      post := [];
    } else {
      assert NameOffset(syms[..n], i) == NameOffset(syms, i);
      var rest := SymTableSplit(syms[..n], i);
      post := rest + SymBytes(syms[n], NameOffset(syms, n));
    }
  }

  lemma {:induction false} NamesSplit(syms: seq<Sym>, i: nat) returns (post: seq<Byte>)
    requires i < |syms|
    ensures Names(syms) == Names(syms[..i]) + (syms[i].name + [0]) + post
  {
    var n := |syms| - 1;
    assert syms[..n][..i] == syms[..i];
    if i == n {
      post := [];
    } else {
      var rest := NamesSplit(syms[..n], i);
      post := rest + syms[n].name + [0];
    }
  }

  lemma SymWords(m: Memory, a: int, s: Sym, nameOffset: int)
    requires Lies(m, a, SymBytes(s, nameOffset)) && IsSym(s) && IsWord(nameOffset)
    ensures Word(m, a, 0) == nameOffset && Word(m, a, 4) == s.value && Word(m, a, 8) == s.size
  {
    hide Lies, Bytes32, Word;
    var b, c, d, e := Bytes32(nameOffset), Bytes32(s.value), Bytes32(s.size), [s.info, s.other] + Bytes32(s.index)[..2];
    assert SymBytes(s, nameOffset) == [] + b + (c + d + e) == b + c + (d + e) == (b + c) + d + e;
    LiesWithin(m, a, [], b, c + d + e);
    LiesWithin(m, a, b, c, d + e);
    LiesWithin(m, a, b + c, d, e);
    WordLies(m, a, 0, nameOffset);
    WordLies(m, a, 4, s.value);
    WordLies(m, a, 8, s.size);
  }

  /** Symbol `i` of an image is read as it was written. */
  lemma ImageSymbol(m: Memory, base: int, syms: seq<Sym>, i: nat)
    requires ObjectAt(m, base, syms) && i < |syms|
    ensures var symtab := base + 40;
            && SymName(m, symtab, i) == NameOffset(syms, i) > 0
            && SymValue(m, symtab, i) == syms[i].value && SymSize(m, symtab, i) == syms[i].size
    ensures HoldsString(m, TablesAt(base, syms).strtab + NameOffset(syms, i), syms[i].name)
  {
    hide SymTable, Names, Word, SymBytes, Dynamic, Hash, At;
    var s, strtab := syms[i], TablesAt(base, syms).strtab;
    assert s in syms;
    var rest := NamesSplit(syms, i);
    assert [0] + Names(syms) == ([0] + Names(syms[..i])) + (s.name + [0]) + rest;
    LiesWithin(m, strtab, [0] + Names(syms[..i]), s.name + [0], rest);
    NameLies(m, strtab + NameOffset(syms, i), s.name);
    var post := SymTableSplit(syms, i);
    LiesWithin(m, base + 40, SymTable(syms[..i]), SymBytes(s, NameOffset(syms, i)), post);
    SymWords(m, base + 40 + 16 * i, s, NameOffset(syms, i));
    SameWords(m, base + 40, i);
  }

  lemma NameLies(m: Memory, a: int, name: seq<Byte>)
    requires Lies(m, a, name + [0]) && IsName(name)
    ensures HoldsString(m, a, name)
  {
    assert (name + [0])[|name|] == 0;
    assert forall i :: 0 <= i < |name| ==> (name + [0])[i] == name[i];
  }

  /** A symbol of an image that the lookup takes. */
  predicate Takes(s: Sym, name: seq<Byte>) { s.name == name && s.value != 0 && s.size != 0 }

  lemma ImageMatches(m: Memory, base: int, syms: seq<Sym>, i: nat, name: seq<Byte>)
    requires ObjectAt(m, base, syms) && i < |syms|
    ensures Matches(m, TablesAt(base, syms), i, name) <==> Takes(syms[i], name)
    ensures NameEnds(m, TablesAt(base, syms).strtab + SymName(m, base + 40, i))
  {
    hide Lies, Word, SymTable, Names, Dynamic, Hash;
    ImageSymbol(m, base, syms, i);
    var at := TablesAt(base, syms).strtab + NameOffset(syms, i);
    StringDecides(m, at, syms[i].name, name);
    assert syms[i] in syms && At(m, at, |syms[i].name|) == 0;
  }

  lemma ImageNamesEnd(m: Memory, base: int, syms: seq<Sym>)
    requires ObjectAt(m, base, syms)
    ensures NamesEnd(m, TablesAt(base, syms))
  {
    hide ObjectAt, SymName;
    var t := TablesAt(base, syms);
    forall i | 0 <= i < |syms| && Defined(m, t.symtab, i)
      ensures NameEnds(m, t.strtab + SymName(m, t.symtab, i))
    {
      ImageMatches(m, base, syms, i, []);
    }
  }

  lemma ImageSearchable(m: Memory, base: int, syms: seq<Sym>, lm: LinkMap)
    requires ObjectAt(m, base, syms) && lm.ld == base
    ensures Searchable(m, lm, 3) && TablesOf(m, lm, 3) == Some(TablesAt(base, syms))
  {
    hide ObjectAt, Word, Last, TablesOf, NamesEnd;
    ImageTables(m, base, syms, lm);
    ImageNamesEnd(m, base, syms);
  }

  // ----- three objects in memory

  /** Symbol `i` is the first one that the lookup takes. */
  predicate IsFirstTaken(syms: seq<Sym>, i: int, name: seq<Byte>)
  {
    0 <= i < |syms| && Takes(syms[i], name) && forall j :: 0 <= j < i ==> !Takes(syms[j], name)
  }

  predicate NoneTaken(syms: seq<Sym>, name: seq<Byte>) { forall j :: 0 <= j < |syms| ==> !Takes(syms[j], name) }

  lemma ImageYields(m: Memory, base: int, syms: seq<Sym>, lm: LinkMap, name: seq<Byte>, i: int)
    requires ObjectAt(m, base, syms) && lm.ld == base
    ensures NoneTaken(syms, name) ==> Yields(m, lm, TablesAt(base, syms), name, 0)
    ensures IsFirstTaken(syms, i, name) ==> Yields(m, lm, TablesAt(base, syms), name, Wrap(lm.addr + syms[i].value))
  {
    hide ObjectAt, Matches, Takes;
    var t := TablesAt(base, syms);
    forall j: nat | j < |syms| ensures Matches(m, t, j, name) <==> Takes(syms[j], name) {
      ImageMatches(m, base, syms, j, name);
    }
    if IsFirstTaken(syms, i, name) {
      ImageSymbol(m, base, syms, i);
      assert FirstMatch(m, t, i, name);
    }
  }

  /** Three maps, of which the second and third are in memory, with an image for each. */
  ghost predicate ThreeMaps(m: Memory, chain: seq<LinkMap>, objects: seq<seq<Sym>>)
  {
    && |chain| == |objects| == 3
    && chain[0].next != 0 && chain[1].next != 0 && chain[2].next == 0
    && LinkMapAt(m, chain[0].next) == chain[1] && LinkMapAt(m, chain[1].next) == chain[2]
    && forall k :: 0 <= k < 3 ==> ObjectAt(m, chain[k].ld, objects[k])
  }

  const LENS: seq<nat> := [3, 3, 3]

  lemma MapYields(m: Memory, chain: seq<LinkMap>, objects: seq<seq<Sym>>, k: nat, name: seq<Byte>, i: int)
    requires ThreeMaps(m, chain, objects) && k < 3
    ensures Searchable(m, chain[k], 3)
    ensures NoneTaken(objects[k], name) ==> YieldsAt(m, chain, LENS, k, name, 0)
    ensures IsFirstTaken(objects[k], i, name) ==>
              YieldsAt(m, chain, LENS, k, name, Wrap(chain[k].addr + objects[k][i].value))
  {
    hide ObjectAt, Yields, TablesOf, Searchable, NoneTaken;
    ImageSearchable(m, chain[k].ld, objects[k], chain[k]);
    ImageYields(m, chain[k].ld, objects[k], chain[k], name, i);
  }

  lemma MapsWellFormed(m: Memory, chain: seq<LinkMap>, objects: seq<seq<Sym>>, name: seq<Byte>)
    requires ThreeMaps(m, chain, objects)
    ensures WellFormed(m, chain, LENS, name)
  {
    hide ObjectAt, Searchable, Word;
    forall k: nat | k < 3 ensures Searchable(m, chain[k], 3) {
      MapYields(m, chain, objects, k, name, 0);
    }
  }

  /**
   * The lookup in such an image: a symbol of the first or the second map is found, named or not; one of
   * the third only if that map has a name.
   */
  lemma LookupInImage(m: Memory, chain: seq<LinkMap>, objects: seq<seq<Sym>>, name: seq<Byte>, i: int)
    requires ThreeMaps(m, chain, objects)
    ensures WellFormed(m, chain, LENS, name)
    ensures IsFirstTaken(objects[0], i, name) && Wrap(chain[0].addr + objects[0][i].value) != 0 ==>
              Found(m, chain, LENS, name, 0, Wrap(chain[0].addr + objects[0][i].value))
    ensures NoneTaken(objects[0], name) && IsFirstTaken(objects[1], i, name)
            && Wrap(chain[1].addr + objects[1][i].value) != 0 ==>
              Found(m, chain, LENS, name, 1, Wrap(chain[1].addr + objects[1][i].value))
    ensures NoneTaken(objects[0], name) && NoneTaken(objects[1], name) && IsFirstTaken(objects[2], i, name)
            && Wrap(chain[2].addr + objects[2][i].value) != 0 && At(m, chain[2].name, 0) != 0 ==>
              Found(m, chain, LENS, name, 2, Wrap(chain[2].addr + objects[2][i].value))
    ensures NoneTaken(objects[0], name) && NoneTaken(objects[1], name)
            && (NoneTaken(objects[2], name) || At(m, chain[2].name, 0) == 0) ==>
              NotFound(m, chain, LENS, name, 3)
  {
    hide ThreeMaps, YieldsAt, Searchable, IsFirstTaken, NoneTaken, At;
    MapsWellFormed(m, chain, objects, name);
    MapYields(m, chain, objects, 0, name, i);
    MapYields(m, chain, objects, 1, name, i);
    MapYields(m, chain, objects, 2, name, i);
  }

  // ----- such images exist, whatever the symbols

  /** The second and the third link map and the three objects, one after the other from `base`. */
  function Image(base: int, second: LinkMap, third: LinkMap, objects: seq<seq<Sym>>): seq<Byte>
    requires |objects| == 3
  {
    LinkMapBytes(second, 0) + LinkMapBytes(third, base)
    + ObjectBytes(base + 40, objects[0]) + ObjectBytes(base + 40 + ObjectSize(objects[0]), objects[1])
    + ObjectBytes(base + 40 + ObjectSize(objects[0]) + ObjectSize(objects[1]), objects[2])
  }

  lemma FivePartsLie(m: Memory, a: int, p: seq<Byte>, q: seq<Byte>, r: seq<Byte>, s: seq<Byte>, t: seq<Byte>)
    requires Lies(m, a, p + q + r + s + t)
    ensures Lies(m, a, p) && Lies(m, a + |p|, q) && Lies(m, a + |p| + |q|, r)
    ensures Lies(m, a + |p| + |q| + |r|, s) && Lies(m, a + |p| + |q| + |r| + |s|, t)
  {
    hide Lies;
    var all := p + q + r + s + t;
    assert all == [] + p + (q + r + s + t) == p + q + (r + s + t) == (p + q) + r + (s + t);
    assert all == (p + q + r) + s + t == (p + q + r + s) + t + [];
    LiesWithin(m, a, [], p, q + r + s + t);
    LiesWithin(m, a, p, q, r + s + t);
    LiesWithin(m, a, p + q, r, s + t);
    LiesWithin(m, a, p + q + r, s, t);
    LiesWithin(m, a, p + q + r + s, t, []);
  }

  /** Whatever the symbols and wherever there is room, writing the image makes such a memory. */
  lemma ImageInMemory(m: Memory, base: Address, first: LinkMap, second: LinkMap, third: LinkMap, objects: seq<seq<Sym>>)
    requires |objects| == 3 && base != 0 && IsLinkMap(second) && IsLinkMap(third)
    requires first.next == base && second.next == base + 20 && third.next == 0
    requires first.ld == base + 40 && second.ld == first.ld + ObjectSize(objects[0])
    requires third.ld == second.ld + ObjectSize(objects[1]) && third.ld + ObjectSize(objects[2]) <= ADDRESS_SPACE
    requires forall k, s :: 0 <= k < 3 && s in objects[k] ==> IsSym(s)
    ensures ThreeMaps(Written(m, base, Image(base, second, third, objects)), [first, second, third], objects)
  {
    hide Lies, Bytes32, Written, ObjectAt, ObjectBytes, ObjectSize, LinkMapAt, IsSym;
    var image := Image(base, second, third, objects);
    var after := Written(m, base, image);
    SizeOfObject(first.ld, objects[0]);
    SizeOfObject(second.ld, objects[1]);
    SizeOfObject(third.ld, objects[2]);
    WrittenLies(m, base, image);
    FivePartsLie(after, base, LinkMapBytes(second, 0), LinkMapBytes(third, base), ObjectBytes(first.ld, objects[0]),
                 ObjectBytes(second.ld, objects[1]), ObjectBytes(third.ld, objects[2]));
    LinkMapLies(after, base, second, 0);
    LinkMapLies(after, base + 20, third, base);
    ObjectLies(after, first.ld, objects[0]);
    ObjectLies(after, second.ld, objects[1]);
    ObjectLies(after, third.ld, objects[2]);
  }

  lemma SizeOfObject(base: int, syms: seq<Sym>)
    ensures |ObjectBytes(base, syms)| == ObjectSize(syms) > 16 * |syms|
  {
  }
}
