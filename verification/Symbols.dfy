/**
 * Symbol lookup in the memory of another process, src/tt.cpp: the walk over the dynamic section,
 * the symbol table and the chain of link maps, shown to return the first match.  Layouts are those
 * of the 32-bit object files of the System V gABI, chapter 5 (Dynamic Section, Hash Table).
 */
module Symbols {
  import opened Common
  import opened Tracee

  // ----- layouts

  /** The unsigned word at offset `i` from `a`. */
  function Word(m: Memory, a: int, i: int): int
  {
    LittleEndian([At(m, a, i), At(m, a, i + 1), At(m, a, i + 2), At(m, a, i + 3)])
  }

  /** A peek at an unmapped word yields -1. */
  lemma UnmappedWord(m: Memory, a: int, i: int)
    requires Wrap(a + i) !in m && Wrap(a + i + 1) !in m && Wrap(a + i + 2) !in m && Wrap(a + i + 3) !in m
    ensures Signed32(Word(m, a, i)) == -1
  {
    assert a + (i + 1) == a + i + 1 && a + (i + 2) == a + i + 2 && a + (i + 3) == a + i + 3;
  }

  const DYN_SIZE := 8
  const SYM_SIZE := 16
  const LINK_MAP_SIZE := 20

  const DT_NULL := 0
  const DT_PLTRELSZ := 2
  const DT_HASH := 4
  const DT_STRTAB := 5
  const DT_SYMTAB := 6
  const DT_RELAENT := 9
  const DT_RELENT := 19
  const DT_JMPREL := 23

  /** The fields of `struct link_map` that the lookup uses. */
  datatype LinkMap = LinkMap(addr: int, name: int, ld: int, next: int)

  function LinkMapAt(m: Memory, a: int): LinkMap
  {
    LinkMap(Word(m, a, 0), Word(m, a, 4), Word(m, a, 8), Word(m, a, 12))
  }

  function Tag(m: Memory, ld: int, i: int): int { Word(m, ld, DYN_SIZE * i) }

  function Val(m: Memory, ld: int, i: int): int { Word(m, ld, DYN_SIZE * i + 4) }

  // ----- the specification

  /** The dynamic section at `ld` has `n` entries before its first DT_NULL. */
  ghost predicate Ends(m: Memory, ld: int, n: nat)
  {
    Tag(m, ld, n) == DT_NULL && forall i :: 0 <= i < n ==> Tag(m, ld, i) != DT_NULL
  }

  /** The value of the last of the first `n` entries whose tag is in `tags`. */
  function Last(m: Memory, ld: int, n: nat, tags: set<int>): Option<int>
  {
    if n == 0 then None
    else if Tag(m, ld, n - 1) in tags then Some(Val(m, ld, n - 1))
    else Last(m, ld, n - 1, tags)
  }

  function Or(o: Option<int>, d: int): int { if o.Some? then o.value else d }

  function SymName(m: Memory, symtab: int, i: int): int { Word(m, symtab, SYM_SIZE * i) }

  function SymValue(m: Memory, symtab: int, i: int): int { Word(m, symtab, SYM_SIZE * i + 4) }

  function SymSize(m: Memory, symtab: int, i: int): int { Word(m, symtab, SYM_SIZE * i + 8) }

  /** A symbol worth comparing: it has a name, a size and a value. */
  predicate Defined(m: Memory, symtab: int, i: int)
  {
    SymName(m, symtab, i) != 0 && SymSize(m, symtab, i) != 0 && SymValue(m, symtab, i) != 0
  }

  /** The tables of one object. */
  datatype Tables = Tables(symtab: int, strtab: int, nchains: int)

  ghost predicate Matches(m: Memory, t: Tables, i: int, name: seq<Byte>)
  {
    Defined(m, t.symtab, i) && HoldsString(m, t.strtab + SymName(m, t.symtab, i), name)
  }

  ghost predicate FirstMatch(m: Memory, t: Tables, i: int, name: seq<Byte>)
  {
    0 <= i < t.nchains && Matches(m, t, i, name) && forall j :: 0 <= j < i ==> !Matches(m, t, j, name)
  }

  /** The tables that the dynamic section of `lm` gives, once its length is known. */
  function TablesOf(m: Memory, lm: LinkMap, n: nat): Option<Tables>
  {
    var symtab, strtab, hash :=
      Last(m, lm.ld, n, {DT_SYMTAB}), Last(m, lm.ld, n, {DT_STRTAB}), Last(m, lm.ld, n, {DT_HASH});
    if symtab.Some? && strtab.Some? && hash.Some?
    then Some(Tables(symtab.value, strtab.value, Signed32(Word(m, hash.value, 4))))
    else None
  }

  /**
   * An object the code can search: its dynamic section ends and gives the three tables, the number
   * of symbols is not negative, names end within 64 bytes and a relocation entry size, if given,
   * is not zero.
   */
  ghost predicate Searchable(m: Memory, lm: LinkMap, n: nat)
  {
    && Ends(m, lm.ld, n)
    && TablesOf(m, lm, n).Some?
    && TablesOf(m, lm, n).value.nchains >= 0
    && Last(m, lm.ld, n, {DT_RELAENT, DT_RELENT}) != Some(0)
    && NamesEnd(m, TablesOf(m, lm, n).value)
  }

  ghost predicate NamesEnd(m: Memory, t: Tables)
  {
    forall i :: 0 <= i < t.nchains && Defined(m, t.symtab, i) ==> NameEnds(m, t.strtab + SymName(m, t.symtab, i))
  }

  ghost predicate NameEnds(m: Memory, a: int) { exists j :: 0 <= j < 64 && At(m, a, j) == 0 }

  /** What searching one object yields: the address of the first match, or zero. */
  ghost predicate Yields(m: Memory, lm: LinkMap, t: Tables, name: seq<Byte>, r: int)
  {
    if exists i :: FirstMatch(m, t, i, name)
    then exists i :: FirstMatch(m, t, i, name) && r == Wrap(lm.addr + SymValue(m, t.symtab, i))
    else r == 0
  }

  lemma FirstMatchUnique(m: Memory, t: Tables, i: int, j: int, name: seq<Byte>)
    requires FirstMatch(m, t, i, name) && FirstMatch(m, t, j, name)
    ensures i == j
  {
  }

  /** Without address wrap, the result is the address of the first match, and zero only if there is none. */
  lemma ZeroMeansNone(m: Memory, lm: LinkMap, t: Tables, name: seq<Byte>, r: int)
    requires Yields(m, lm, t, name, r) && 0 <= lm.addr
    requires forall i :: 0 <= i < t.nchains && Matches(m, t, i, name) ==>
               lm.addr + SymValue(m, t.symtab, i) < ADDRESS_SPACE
    ensures r == 0 <==> forall i :: 0 <= i < t.nchains ==> !Matches(m, t, i, name)
    ensures r != 0 ==> exists i :: FirstMatch(m, t, i, name) && r == lm.addr + SymValue(m, t.symtab, i)
  {
    if i :| FirstMatch(m, t, i, name) && r == Wrap(lm.addr + SymValue(m, t.symtab, i)) {
      assert Matches(m, t, i, name) && SymValue(m, t.symtab, i) > 0;
    } else if i :| 0 <= i < t.nchains && Matches(m, t, i, name) {
      var k := LeastMatch(m, t, i, name);
    }
  }

  lemma {:induction false} LeastMatch(m: Memory, t: Tables, i: int, name: seq<Byte>) returns (k: int)
    requires 0 <= i < t.nchains && Matches(m, t, i, name)
    ensures FirstMatch(m, t, k, name)
    decreases i
  {
    if j :| 0 <= j < i && Matches(m, t, j, name) {
      k := LeastMatch(m, t, j, name);
    } else {
      k := i;
    }
  }

  // ----- the chain of objects

  /** The code searches the first two maps, and of the others those that have a name. */
  predicate Searched(m: Memory, chain: seq<LinkMap>, k: int)
  {
    0 <= k < |chain| && (k < 2 || At(m, chain[k].name, 0) != 0)
  }

  /** Searching the object `k` of the chain yields `r`; `lens` are the lengths of the dynamic sections. */
  ghost predicate YieldsAt(m: Memory, chain: seq<LinkMap>, lens: seq<nat>, k: int, name: seq<Byte>, r: int)
  {
    && 0 <= k < |chain| && k < |lens| && TablesOf(m, chain[k], lens[k]).Some?
    && Yields(m, chain[k], TablesOf(m, chain[k], lens[k]).value, name, r)
  }

  /** None of the objects searched before `upTo` has the symbol. */
  ghost predicate NotFound(m: Memory, chain: seq<LinkMap>, lens: seq<nat>, name: seq<Byte>, upTo: int)
  {
    forall j :: j < upTo && Searched(m, chain, j) ==> YieldsAt(m, chain, lens, j, name, 0)
  }

  /** The first searched object with a match decides. */
  ghost predicate Found(m: Memory, chain: seq<LinkMap>, lens: seq<nat>, name: seq<Byte>, k: int, r: int)
  {
    Searched(m, chain, k) && r != 0 && YieldsAt(m, chain, lens, k, name, r) && NotFound(m, chain, lens, name, k)
  }

  /** The maps from the first one through `l_next`, to the end or to where the symbol is found. */
  ghost predicate IsChain(m: Memory, chain: seq<LinkMap>, lens: seq<nat>, name: seq<Byte>)
  {
    && chain != []
    && (forall k :: 0 <= k < |chain| - 1 ==> chain[k].next != 0 && chain[k + 1] == LinkMapAt(m, chain[k].next))
    && (NotFound(m, chain, lens, name, |chain|) ==> chain[|chain| - 1].next == 0)
  }

  /** An image in which the symbol can be looked up: every object that the search comes to can be searched. */
  ghost predicate WellFormed(m: Memory, chain: seq<LinkMap>, lens: seq<nat>, name: seq<Byte>)
  {
    && IsChain(m, chain, lens, name) && |lens| == |chain|
    && forall k :: Searched(m, chain, k) && NotFound(m, chain, lens, name, k) ==> Searchable(m, chain[k], lens[k])
  }

  lemma YieldsUnique(m: Memory, lm: LinkMap, t: Tables, name: seq<Byte>, r: int, r': int)
    requires Yields(m, lm, t, name, r) && Yields(m, lm, t, name, r')
    ensures r == r'
  {
    if i :| FirstMatch(m, t, i, name) {
      forall j | FirstMatch(m, t, j, name) ensures j == i {
        FirstMatchUnique(m, t, i, j, name);
      }
    }
  }

  lemma YieldsAtUnique(m: Memory, chain: seq<LinkMap>, lens: seq<nat>, k: int, name: seq<Byte>, r: int, r': int)
    requires YieldsAt(m, chain, lens, k, name, r) && YieldsAt(m, chain, lens, k, name, r')
    ensures r == r'
  {
    hide Yields, TablesOf;
    YieldsUnique(m, chain[k], TablesOf(m, chain[k], lens[k]).value, name, r, r');
  }

  /** The specification determines the object and the address found. */
  lemma FoundUnique(m: Memory, chain: seq<LinkMap>, lens: seq<nat>, name: seq<Byte>, k: int, r: int, k': int, r': int)
    requires Found(m, chain, lens, name, k, r) && Found(m, chain, lens, name, k', r')
    ensures k == k' && r == r'
  {
    hide YieldsAt, Searched;
    if k < k' {
      YieldsAtUnique(m, chain, lens, k, name, r, 0);
    } else if k' < k {
      YieldsAtUnique(m, chain, lens, k', name, r', 0);
    } else {
      YieldsAtUnique(m, chain, lens, k, name, r, r');
    }
  }

  // ----- without address wrap

  /** The symbol `i` of the searched object `k` is defined and has the name. */
  ghost predicate MatchAt(m: Memory, chain: seq<LinkMap>, lens: seq<nat>, k: int, i: int, name: seq<Byte>)
  {
    && Searched(m, chain, k) && k < |lens| && TablesOf(m, chain[k], lens[k]).Some?
    && 0 <= i < TablesOf(m, chain[k], lens[k]).value.nchains
    && Matches(m, TablesOf(m, chain[k], lens[k]).value, i, name)
  }

  /** `l_addr + st_value`. */
  function AddressOf(m: Memory, chain: seq<LinkMap>, lens: seq<nat>, k: int, i: int): int
  {
    if 0 <= k < |chain| && k < |lens| && TablesOf(m, chain[k], lens[k]).Some?
    then chain[k].addr + SymValue(m, TablesOf(m, chain[k], lens[k]).value.symtab, i)
    else 0
  }

  ghost predicate NoWrap(m: Memory, chain: seq<LinkMap>, lens: seq<nat>, name: seq<Byte>)
  {
    && (forall k :: 0 <= k < |chain| ==> 0 <= chain[k].addr)
    && (forall k, i :: MatchAt(m, chain, lens, k, i, name) ==> AddressOf(m, chain, lens, k, i) < ADDRESS_SPACE)
  }

  ghost predicate IsFirstIn(m: Memory, chain: seq<LinkMap>, lens: seq<nat>, k: int, i: int, name: seq<Byte>)
  {
    MatchAt(m, chain, lens, k, i, name) && forall i' :: MatchAt(m, chain, lens, k, i', name) ==> i <= i'
  }

  /** The first match in the order visited: object by object, symbol by symbol. */
  ghost predicate IsFirst(m: Memory, chain: seq<LinkMap>, lens: seq<nat>, k: int, i: int, name: seq<Byte>)
  {
    && MatchAt(m, chain, lens, k, i, name)
    && forall k', i' :: MatchAt(m, chain, lens, k', i', name) ==> k < k' || (k == k' && i <= i')
  }

  /** What one object yields, without wrap: its first match, or zero if it has none. */
  lemma ObjectYields(m: Memory, chain: seq<LinkMap>, lens: seq<nat>, k: int, name: seq<Byte>, r: int)
    requires Searched(m, chain, k) && YieldsAt(m, chain, lens, k, name, r) && NoWrap(m, chain, lens, name)
    ensures r == 0 ==> forall i :: !MatchAt(m, chain, lens, k, i, name)
    ensures r != 0 ==> exists i :: IsFirstIn(m, chain, lens, k, i, name) && r == AddressOf(m, chain, lens, k, i)
  {
    hide TablesOf, Matches, SymValue, Searched, Yields;
    var t := TablesOf(m, chain[k], lens[k]).value;
    forall i | 0 <= i < t.nchains && Matches(m, t, i, name)
      ensures chain[k].addr + SymValue(m, t.symtab, i) < ADDRESS_SPACE
    {
      assert MatchAt(m, chain, lens, k, i, name);
      assert AddressOf(m, chain, lens, k, i) == chain[k].addr + SymValue(m, t.symtab, i);
    }
    ZeroMeansNone(m, chain[k], t, name, r);
    if r != 0 {
      var i :| FirstMatch(m, t, i, name) && r == chain[k].addr + SymValue(m, t.symtab, i);
      assert IsFirstIn(m, chain, lens, k, i, name);
    }
  }

  lemma NoMatchBefore(m: Memory, chain: seq<LinkMap>, lens: seq<nat>, upTo: int, k: int, i: int, name: seq<Byte>)
    requires NotFound(m, chain, lens, name, upTo) && NoWrap(m, chain, lens, name)
    ensures MatchAt(m, chain, lens, k, i, name) ==> upTo <= k < |chain|
  {
    hide YieldsAt, NoWrap, TablesOf, Matches;
    if MatchAt(m, chain, lens, k, i, name) && k < upTo {
      ObjectYields(m, chain, lens, k, name, 0);
    }
  }

  /**
   * Without address wrap the result is `l_addr + st_value` of the first match, object by object and
   * symbol by symbol, and zero exactly if there is no match at all.
   */
  lemma FirstMatchWithoutWrap(m: Memory, chain: seq<LinkMap>, lens: seq<nat>, name: seq<Byte>, r: int)
    requires NoWrap(m, chain, lens, name)
    requires r != 0 ==> exists k :: Found(m, chain, lens, name, k, r)
    requires r == 0 ==> NotFound(m, chain, lens, name, |chain|)
    ensures r != 0 ==> exists k, i :: IsFirst(m, chain, lens, k, i, name) && r == AddressOf(m, chain, lens, k, i)
    ensures r == 0 <==> forall k, i :: !MatchAt(m, chain, lens, k, i, name)
  {
    hide YieldsAt, NoWrap, Searched, MatchAt, AddressOf, NotFound;
    if r == 0 {
      forall k, i ensures !MatchAt(m, chain, lens, k, i, name) {
        NoMatchBefore(m, chain, lens, |chain|, k, i, name);
      }
    } else {
      var k :| Found(m, chain, lens, name, k, r);
      ObjectYields(m, chain, lens, k, name, r);
      var i :| IsFirstIn(m, chain, lens, k, i, name) && r == AddressOf(m, chain, lens, k, i);
      forall k', i' | MatchAt(m, chain, lens, k', i', name) ensures k < k' || (k == k' && i <= i') {
        NoMatchBefore(m, chain, lens, k, k', i', name);
      }
      assert IsFirst(m, chain, lens, k, i, name);
    }
  }

  // ----- the code

  function WordIn(buf: seq<Byte>, o: nat): int
    requires o + 4 <= |buf|
  {
    LittleEndian([buf[o], buf[o + 1], buf[o + 2], buf[o + 3]])
  }

  /** The globals that one object after the other overwrites. */
  datatype Globals = Globals(symtab: int, strtab: int, nchains: int, jmprel: int, totalrelsize: int, relsize: int)

  /** What one dynamic entry does to the globals. */
  function Absorb(m: Memory, g: Globals, tag: int, val: int): Globals
  {
    if tag == DT_SYMTAB then g.(symtab := val)
    else if tag == DT_STRTAB then g.(strtab := val)
    else if tag == DT_HASH then g.(nchains := Signed32(Word(m, val, 4)))
    else if tag == DT_JMPREL then g.(jmprel := val)
    else if tag == DT_PLTRELSZ then g.(totalrelsize := val)
    else if tag == DT_RELAENT || tag == DT_RELENT then g.(relsize := val)
    else g
  }

  function Scan(m: Memory, ld: int, n: nat, g: Globals): Globals
  {
    if n == 0 then g else Absorb(m, Scan(m, ld, n - 1, g), Tag(m, ld, n - 1), Val(m, ld, n - 1))
  }

  /** Entry by entry, the last one with a tag wins; what the section does not give is left over from before. */
  lemma {:induction false} ScanTakesLast(m: Memory, ld: int, n: nat, g: Globals)
    ensures Scan(m, ld, n, g).symtab == Or(Last(m, ld, n, {DT_SYMTAB}), g.symtab)
    ensures Scan(m, ld, n, g).strtab == Or(Last(m, ld, n, {DT_STRTAB}), g.strtab)
    ensures Scan(m, ld, n, g).jmprel == Or(Last(m, ld, n, {DT_JMPREL}), g.jmprel)
    ensures Scan(m, ld, n, g).totalrelsize == Or(Last(m, ld, n, {DT_PLTRELSZ}), g.totalrelsize)
    ensures Scan(m, ld, n, g).relsize == Or(Last(m, ld, n, {DT_RELAENT, DT_RELENT}), g.relsize)
    ensures var hash := Last(m, ld, n, {DT_HASH});
            Scan(m, ld, n, g).nchains == if hash.Some? then Signed32(Word(m, hash.value, 4)) else g.nchains
  {
    if n == 0 {
    } else {
      ScanTakesLast(m, ld, n - 1, g);
    }
  }

  /** A searchable object determines all tables, whatever was there before. */
  lemma ScanGivesTables(m: Memory, lm: LinkMap, n: nat, g: Globals)
    requires Searchable(m, lm, n)
    ensures var after := Scan(m, lm.ld, n, g);
            TablesOf(m, lm, n).value == Tables(after.symtab, after.strtab, after.nchains)
  {
    ScanTakesLast(m, lm.ld, n, g);
  }

  lemma RelSizeStays(m: Memory, lm: LinkMap, n: nat, g: Globals)
    requires Searchable(m, lm, n) && g.relsize != 0
    ensures Scan(m, lm.ld, n, g).relsize != 0
  {
    ScanTakesLast(m, lm.ld, n, g);
  }

  lemma SameDyn(m: Memory, ld: int, i: nat)
    ensures Word(m, ld + DYN_SIZE * i, 0) == Tag(m, ld, i) && Word(m, ld + DYN_SIZE * i, 4) == Val(m, ld, i)
  {
  }

  lemma SameWords(m: Memory, symtab: int, i: nat)
    ensures Word(m, symtab + i * SYM_SIZE, 0) == SymName(m, symtab, i)
    ensures Word(m, symtab + i * SYM_SIZE, 4) == SymValue(m, symtab, i)
    ensures Word(m, symtab + i * SYM_SIZE, 8) == SymSize(m, symtab, i)
  {
  }

  class Finder {
    const process: Process
    var g: Globals
    var nrels: int

    constructor (process: Process)
      ensures this.process == process && g == Globals(0, 0, 0, 0, 0, 0)
    {
      this.process := process;
      g, nrels := Globals(0, 0, 0, 0, 0, 0), 0;
    }

    method ReadWord(a: int) returns (w: int)
      ensures w == Word(process.mem, a, 0)
    {
      var buf := new Byte[4];
      process.Read(a, buf, 4);
      w := WordIn(buf[..], 0);
    }

    method ReadDyn(a: int) returns (tag: int, val: int)
      ensures tag == Word(process.mem, a, 0) && val == Word(process.mem, a, 4)
    {
      var buf := new Byte[DYN_SIZE];
      process.Read(a, buf, DYN_SIZE);
      tag, val := WordIn(buf[..], 0), WordIn(buf[..], 4);
    }

    method ReadSym(a: int) returns (name: int, value: int, size: int)
      ensures name == Word(process.mem, a, 0) && value == Word(process.mem, a, 4) && size == Word(process.mem, a, 8)
    {
      var buf := new Byte[SYM_SIZE];
      process.Read(a, buf, SYM_SIZE);
      name, value, size := WordIn(buf[..], 0), WordIn(buf[..], 4), WordIn(buf[..], 8);
    }

    method ReadLinkMap(a: int) returns (lm: LinkMap)
      ensures lm == LinkMapAt(process.mem, a)
    {
      var buf := new Byte[LINK_MAP_SIZE];
      process.Read(a, buf, LINK_MAP_SIZE);
      lm := LinkMap(WordIn(buf[..], 0), WordIn(buf[..], 4), WordIn(buf[..], 8), WordIn(buf[..], 12));
    }

    /** The switch in get_sym_info. */
    method AbsorbEntry(tag: int, val: int)
      modifies this`g
      ensures g == Absorb(process.mem, old(g), tag, val)
    {
      if tag == DT_SYMTAB {
        g := g.(symtab := val);
      } else if tag == DT_STRTAB {
        g := g.(strtab := val);
      } else if tag == DT_HASH {
        var count := ReadWord(val + 4);
        g := g.(nchains := Signed32(count));
      } else if tag == DT_JMPREL {
        g := g.(jmprel := val);
      } else if tag == DT_PLTRELSZ {
        g := g.(totalrelsize := val);
      } else if tag == DT_RELAENT || tag == DT_RELENT {
        g := g.(relsize := val);
      }
    }

    /** get_sym_info. */
    method GetSymInfo(lm: LinkMap, ghost n: nat)
      requires Ends(process.mem, lm.ld, n) && Scan(process.mem, lm.ld, n, g).relsize != 0
      modifies this
      ensures g == Scan(process.mem, lm.ld, n, old(g)) && nrels == g.totalrelsize / g.relsize
    {
      hide Word, Absorb;
      ghost var i := 0;
      var dynAddr := lm.ld;
      var tag, val := ReadDyn(dynAddr);
      SameDyn(process.mem, lm.ld, 0);
      while tag != DT_NULL
        invariant 0 <= i <= n && dynAddr == lm.ld + DYN_SIZE * i
        invariant tag == Tag(process.mem, lm.ld, i) && val == Val(process.mem, lm.ld, i)
        invariant g == Scan(process.mem, lm.ld, i, old(g))
        decreases n - i
      {
        AbsorbEntry(tag, val);
        dynAddr := dynAddr + DYN_SIZE;
        i := i + 1;
        tag, val := ReadDyn(dynAddr);
        SameDyn(process.mem, lm.ld, i);
      }
      nrels := g.totalrelsize / g.relsize;
    }

    /** One turn of the loop in find_symbol_in_linkmap; zero stands for a symbol that does not match. */
    method TrySymbol(t: Tables, i: nat, name: seq<Byte>) returns (value: int)
      requires Defined(process.mem, t.symtab, i) ==> NameEnds(process.mem, t.strtab + SymName(process.mem, t.symtab, i))
      ensures value != 0 <==> Matches(process.mem, t, i, name)
      ensures value != 0 ==> value == SymValue(process.mem, t.symtab, i)
    {
      var stName, stValue, stSize := ReadSym(t.symtab + i * SYM_SIZE);
      SameWords(process.mem, t.symtab, i);
      if stName == 0 || stSize == 0 || stValue == 0 {
        return 0;
      }
      var str, terminated := process.ReadString(t.strtab + stName);
      StringDecides(process.mem, t.strtab + stName, str, name);
      return if str == name then stValue else 0;
    }

    /** find_symbol_in_linkmap. */
    method FindInLinkMap(lm: LinkMap, name: seq<Byte>, ghost n: nat) returns (r: int)
      requires Searchable(process.mem, lm, n) && Scan(process.mem, lm.ld, n, g).relsize != 0
      modifies this
      ensures Yields(process.mem, lm, TablesOf(process.mem, lm, n).value, name, r)
      ensures g.relsize != 0
    {
      ScanGivesTables(process.mem, lm, n, g);
      GetSymInfo(lm, n);
      r := SearchTables(lm, Tables(g.symtab, g.strtab, g.nchains), name);
    }

    method SearchTables(lm: LinkMap, t: Tables, name: seq<Byte>) returns (r: int)
      requires NamesEnd(process.mem, t)
      ensures Yields(process.mem, lm, t, name, r)
    {
      var i := 0;
      while i < t.nchains
        invariant 0 <= i
        invariant forall j :: 0 <= j < i ==> !Matches(process.mem, t, j, name)
      {
        var value := TrySymbol(t, i, name);
        if value != 0 {
          assert FirstMatch(process.mem, t, i, name);
          return Wrap(lm.addr + value);
        }
        i := i + 1;
      }
      return 0;
    }

    /** find_symbol. */
    method FindSymbol(first: LinkMap, name: seq<Byte>, ghost chain: seq<LinkMap>, ghost lens: seq<nat>) returns (r: int)
      requires WellFormed(process.mem, chain, lens, name) && chain[0] == first
      requires Scan(process.mem, first.ld, lens[0], g).relsize != 0
      modifies this
      ensures r != 0 ==> exists k :: Found(process.mem, chain, lens, name, k, r)
      ensures r == 0 ==> NotFound(process.mem, chain, lens, name, |chain|)
    {
      assert Searched(process.mem, chain, 0);
      r := FindInLinkMap(first, name, lens[0]);
      if r != 0 {
        assert Found(process.mem, chain, lens, name, 0, r);
        return;
      }
      if first.next == 0 {
        return;
      }
      var lm := ReadLinkMap(first.next);
      r := SearchAt(name, lm, chain, lens, 1);
      r := SearchRest(name, lm, r, chain, lens);
    }

    /** The loop of find_symbol over the third and later maps, with what the second one gave. */
    method SearchRest(name: seq<Byte>, second: LinkMap, found: int, ghost chain: seq<LinkMap>, ghost lens: seq<nat>)
      returns (r: int)
      requires WellFormed(process.mem, chain, lens, name) && |chain| >= 2 && chain[1] == second && g.relsize != 0
      requires if found == 0 then NotFound(process.mem, chain, lens, name, 2)
               else Found(process.mem, chain, lens, name, 1, found)
      modifies this
      ensures r != 0 ==> exists k :: Found(process.mem, chain, lens, name, k, r)
      ensures r == 0 ==> NotFound(process.mem, chain, lens, name, |chain|)
    {
      ghost var k := 1;
      var lm := second;
      r := found;
      while r == 0 && lm.next != 0
        invariant 1 <= k < |chain| && lm == chain[k] && g.relsize != 0
        invariant if r == 0 then NotFound(process.mem, chain, lens, name, k + 1)
                  else Found(process.mem, chain, lens, name, k, r)
        decreases |chain| - k
      {
        lm := ReadLinkMap(lm.next);
        k := k + 1;
        var named := HasName(lm);
        if !named {
          continue;
        }
        r := SearchAt(name, lm, chain, lens, k);
      }
    }

    method HasName(lm: LinkMap) returns (named: bool)
      ensures named <==> At(process.mem, lm.name, 0) != 0
    {
      var str, terminated := process.ReadString(lm.name);
      named := !(terminated && str == []);
    }

    method SearchAt(name: seq<Byte>, lm: LinkMap, ghost chain: seq<LinkMap>, ghost lens: seq<nat>, ghost k: nat)
      returns (r: int)
      requires WellFormed(process.mem, chain, lens, name) && Searched(process.mem, chain, k) && lm == chain[k]
      requires g.relsize != 0 && NotFound(process.mem, chain, lens, name, k)
      modifies this
      ensures g.relsize != 0
      ensures r == 0 ==> NotFound(process.mem, chain, lens, name, k + 1)
      ensures r != 0 ==> Found(process.mem, chain, lens, name, k, r)
    {
      RelSizeStays(process.mem, lm, lens[k], g);
      r := FindInLinkMap(lm, name, lens[k]);
    }
  }
}
