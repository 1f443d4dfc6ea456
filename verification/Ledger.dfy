/**
 * Allocation accounting, src/hook.cpp with src/mem_checker.cpp: the hooked `malloc` and `free`
 * keep a ledger of live blocks in a map whose own nodes are allocated and freed through the very
 * same functions.  One thread is modelled.
 */
module Ledger {
  import opened Common

  const WORD := 0x1_0000_0000_0000_0000

  type Address = int

  const NULL: Address := 0

  const NODE_SIZE: nat := 48

  /** Conversion to `int64_t`, as the map stores a length. */
  function ToSigned(u: int): int
    requires 0 <= u < WORD
  {
    if u < WORD / 2 then u else u - WORD
  }

  /** Conversion to `uint64_t`. */
  function ToUnsigned(i: int): int { i % 0x1_0000_0000_0000_0000 }

  // ----- mem_checker by itself

  /** `mem_` and `map_`; `repeated` totals the lengths of the additions whose address was already there. */
  datatype Book = Book(mem: int, entries: map<Address, int>, repeated: int)

  datatype Entry = AddOp(p: Address, len: int) | DelOp(p: Address)

  function Lengths(entries: map<Address, int>): map<Address, int> { map p | p in entries :: ToUnsigned(entries[p]) }

  function Record(b: Book, e: Entry): Book
    requires e.AddOp? ==> 0 <= e.len < WORD
  {
    match e
    case AddOp(p, len) =>
      if p in b.entries then Book(ToUnsigned(b.mem + len), b.entries, b.repeated + len)
      else Book(ToUnsigned(b.mem + len), b.entries[p := ToSigned(len)], b.repeated)
    case DelOp(p) =>
      if p == NULL || p !in b.entries then b
      else Book(ToUnsigned(b.mem - b.entries[p]), b.entries - {p}, b.repeated)
  }

  ghost predicate Balanced(b: Book) { b.mem == ToUnsigned(Sum(Lengths(b.entries)) + b.repeated) }

  lemma WrapAdd(x: int, y: int)
    ensures ToUnsigned(ToUnsigned(x) + y) == ToUnsigned(x + y)
  {
  }

  lemma WrapSub(x: int, y: int)
    ensures ToUnsigned(ToUnsigned(x) - y) == ToUnsigned(x - ToUnsigned(y))
  {
  }

  lemma SignedAndBack(y: int)
    requires 0 <= y < WORD
    ensures ToUnsigned(ToSigned(y)) == y
  {
  }

  lemma RecordBalances(b: Book, e: Entry)
    requires Balanced(b) && (e.AddOp? ==> 0 <= e.len < WORD)
    ensures Balanced(Record(b, e))
  {
    var lengths := Lengths(b.entries);
    var total := Sum(lengths) + b.repeated;
    match e
    case AddOp(p, len) =>
      WrapAdd(total, len);
      SignedAndBack(len);
      if p !in b.entries {
        SumUpdate(lengths, p, len);
        assert Lengths(b.entries[p := ToSigned(len)]) == lengths[p := len];
      }
    case DelOp(p) =>
      if p != NULL && p in b.entries {
        WrapSub(total, b.entries[p]);
        SumSplit(lengths, p);
        assert Lengths(b.entries - {p}) == lengths - {p};
      }
  }

  function RecordAll(b: Book, es: seq<Entry>): Book
    requires forall e :: e in es && e.AddOp? ==> 0 <= e.len < WORD
  {
    if es == [] then b else Record(RecordAll(b, es[..|es| - 1]), es[|es| - 1])
  }

  /**
   * After any sequence of additions and deletions, `mem_` is, modulo 2^64, the total of the
   * lengths in the map plus that of the additions of an address already there.
   */
  lemma {:induction false} BookStaysBalanced(es: seq<Entry>)
    requires forall e :: e in es && e.AddOp? ==> 0 <= e.len < WORD
    ensures Balanced(RecordAll(Book(0, map[], 0), es))
  {
    if es == [] {
      assert Lengths(map[]).Keys == {};
    } else {
      BookStaysBalanced(es[..|es| - 1]);
      RecordBalances(RecordAll(Book(0, map[], 0), es[..|es| - 1]), es[|es| - 1]);
    }
  }

  // ----- the map and the counter in terms of the operations alone

  /** No operation after `i` deletes `p`; the null address is never deleted. */
  ghost predicate KeptSince(es: seq<Entry>, p: Address, i: nat)
  {
    p == NULL || forall j :: i < j < |es| ==> es[j] != DelOp(p)
  }

  predicate Adds(e: Entry, p: Address) { e.AddOp? && e.p == p }

  /** `p` was added and has not been deleted since. */
  ghost predicate Present(es: seq<Entry>, p: Address)
  {
    exists i :: 0 <= i < |es| && Adds(es[i], p) && KeptSince(es, p, i)
  }

  /** The addition that put `p` into the map as it is. */
  ghost predicate PutBy(es: seq<Entry>, p: Address, i: int)
  {
    0 <= i < |es| && Adds(es[i], p) && KeptSince(es, p, i) && !Present(es[..i], p)
  }

  /** The total length of the additions of an address already present. */
  ghost function Repeats(es: seq<Entry>): int
  {
    if es == [] then 0
    else
      var before, e := es[..|es| - 1], es[|es| - 1];
      Repeats(before) + (if e.AddOp? && Present(before, e.p) then e.len else 0)
  }

  lemma PresentNext(es: seq<Entry>, e: Entry, p: Address)
    ensures Present(es + [e], p) <==> Adds(e, p) || (Present(es, p) && (p == NULL || e != DelOp(p)))
  {
    var all := es + [e];
    if i :| 0 <= i < |es| && Adds(es[i], p) && KeptSince(es, p, i) {
      assert Adds(all[i], p);
      if p == NULL || e != DelOp(p) { assert KeptSince(all, p, i); }
    }
    if Adds(e, p) {
      assert Adds(all[|es|], p) && KeptSince(all, p, |es|);
    }
    if i :| 0 <= i < |all| && Adds(all[i], p) && KeptSince(all, p, i) {
      if i < |es| {
        assert Adds(es[i], p);
        assert forall j :: i < j < |es| ==> all[j] == es[j];
        assert KeptSince(es, p, i);
        assert p != NULL ==> all[|es|] != DelOp(p);
      }
    }
  }

  lemma PutByNext(es: seq<Entry>, e: Entry, p: Address, i: int)
    requires PutBy(es, p, i) && (p == NULL || e != DelOp(p))
    ensures PutBy(es + [e], p, i)
  {
    assert (es + [e])[..i] == es[..i];
  }

  lemma PutByLast(es: seq<Entry>, e: Entry, p: Address)
    requires Adds(e, p) && !Present(es, p)
    ensures PutBy(es + [e], p, |es|)
  {
    assert (es + [e])[..|es|] == es;
  }

  /**
   * The map holds exactly the addresses added and not deleted since, each with the length of the first
   * such addition, and `repeated` is the total of the others.
   */
  lemma {:induction false} BookIsHistory(es: seq<Entry>, p: Address)
    requires forall e :: e in es && e.AddOp? ==> 0 <= e.len < WORD
    ensures var b := RecordAll(Book(0, map[], 0), es);
            && (p in b.entries <==> Present(es, p))
            && (p in b.entries ==> exists i :: PutBy(es, p, i) && b.entries[p] == ToSigned(es[i].len))
            && b.repeated == Repeats(es)
  {
    if es == [] {
    } else {
      var before, e := es[..|es| - 1], es[|es| - 1];
      var b := RecordAll(Book(0, map[], 0), before);
      assert es == before + [e] && e in es;
      BookIsHistory(before, p);
      BookIsHistory(before, e.p);
      PresentNext(before, e, p);
      if p in b.entries && Present(es, p) {
        var i :| PutBy(before, p, i) && b.entries[p] == ToSigned(before[i].len);
        PutByNext(before, e, p, i);
      } else if Adds(e, p) {
        PutByLast(before, e, p);
      }
    }
  }

  // ----- the hooked allocator

  /**
   * The blocks the C library has handed out, the ledger, and the map node kept for each of its
   * keys.
   */
  datatype HeapState = HeapState(live: map<Address, int>, book: Book, nodes: map<Address, Address>)

  const EMPTY := HeapState(map[], Book(0, map[], 0), map[])

  /** Keys and nodes are live blocks, all different; no node is ever a key. */
  ghost predicate Sound(h: HeapState)
  {
    && NULL !in h.live
    && h.nodes.Keys == h.book.entries.Keys
    && (forall p :: p in h.book.entries && p != NULL ==> p in h.live)
    && (forall p :: p in h.nodes ==> h.nodes[p] in h.live && h.nodes[p] !in h.book.entries)
    && (forall p, q :: p in h.nodes && q in h.nodes && p != q ==> h.nodes[p] != h.nodes[q])
  }

  predicate IsNode(h: HeapState, p: Address) { exists q :: q in h.nodes && h.nodes[q] == p }

  function LibcAlloc(live: map<Address, int>, size: int, p: Address): map<Address, int>
  {
    if p == NULL then live else live[p := size]
  }

  /** A recorded `malloc` that the library answers with `p`, and the node for it with `node`. */
  function AfterMalloc(h: HeapState, size: int, p: Address, node: Address): HeapState
    requires 0 <= size < WORD
  {
    var live, book := LibcAlloc(h.live, size, p), Record(h.book, AddOp(p, size));
    if p in h.book.entries then HeapState(live, book, h.nodes)
    else HeapState(live[node := NODE_SIZE], book, h.nodes[p := node])
  }

  /** A `free` with the guard clear: a tracked block goes together with its map node. */
  function AfterFree(h: HeapState, p: Address): HeapState
    requires h.nodes.Keys == h.book.entries.Keys
  {
    var book := Record(h.book, DelOp(p));
    if p == NULL || p !in h.book.entries then HeapState(h.live - {p}, book, h.nodes)
    else HeapState(h.live - {p} - {h.nodes[p]}, book, h.nodes - {p})
  }

  class Heap {
    var live: map<Address, int>
    var entries: map<Address, int>
    var nodes: map<Address, Address>
    var mem: int
    var inMem: bool
    ghost var repeated: int

    ghost function View(): HeapState
      reads this
    {
      HeapState(live, Book(mem, entries, repeated), nodes)
    }

    constructor ()
      ensures View() == EMPTY && Sound(View()) && !inMem
    {
      live, entries, nodes, mem, inMem, repeated := map[], map[], map[], 0, false, 0;
    }

    /** __libc_malloc: the address is the library's choice, null when it fails. */
    method LibcMalloc(size: int, p: Address)
      modifies this`live
      ensures live == LibcAlloc(old(live), size, p)
    {
      if p != NULL {
        live := live[p := size];
      }
    }

    method LibcFree(p: Address)
      modifies this`live
      ensures live == old(live) - {p}
    {
      live := live - {p};
    }

    /** `malloc` with the guard set goes straight to the library; otherwise it is recorded. */
    method Malloc(size: int, p: Address, node: Address) returns (r: Address)
      requires Sound(View()) && 0 <= size < WORD
      requires p !in live && (!inMem ==> node !in live && node != NULL && node != p)
      modifies this
      ensures r == p && inMem == old(inMem)
      ensures View() == if old(inMem) then old(View()).(live := LibcAlloc(old(live), size, p))
                        else AfterMalloc(old(View()), size, p, node)
      decreases if inMem then 0 else 3
    {
      if inMem {
        LibcMalloc(size, p);
        return p;
      }
      inMem := true;
      TraceMalloc(size, p, node);
      inMem := false;
      return p;
    }

    method TraceMalloc(size: int, p: Address, node: Address)
      requires Sound(View()) && 0 <= size < WORD && inMem
      requires p !in live && node !in live && node != NULL && node != p
      modifies this
      ensures inMem && View() == AfterMalloc(old(View()), size, p, node)
      decreases 2
    {
      LibcMalloc(size, p);
      Add(p, size, node);
    }

    /** mem_checker::add.  Inserting a new key allocates a map node through the hooked `malloc`. */
    method Add(p: Address, len: int, node: Address)
      requires Sound(View()) && 0 <= len < WORD && inMem && node !in live
      modifies this
      ensures inMem && View().book == Record(old(View()).book, AddOp(p, len))
      ensures p in old(entries) ==> live == old(live) && nodes == old(nodes)
      ensures p !in old(entries) ==> live == LibcAlloc(old(live), NODE_SIZE, node) && nodes == old(nodes)[p := node]
      decreases 1
    {
      mem := ToUnsigned(mem + len);
      if p in entries {
        repeated := repeated + len;
      } else {
        var n := Malloc(NODE_SIZE, node, NULL);
        entries := entries[p := ToSigned(len)];
        nodes := nodes[p := n];
      }
    }

    /** `free`: with the guard clear, the block is taken off the ledger first. */
    method Free(p: Address)
      requires Sound(View())
      modifies this
      ensures inMem == old(inMem)
      ensures View() == if old(inMem) then old(View()).(live := old(live) - {p}) else AfterFree(old(View()), p)
      decreases |entries|, 2
    {
      if !inMem {
        Del(p);
      }
      LibcFree(p);
    }

    /** mem_checker::del. */
    method Del(p: Address)
      requires Sound(View()) && !inMem
      modifies this
      ensures !inMem && View().book == Record(old(View()).book, DelOp(p))
      ensures p == NULL || p !in old(entries) ==> live == old(live) && nodes == old(nodes)
      ensures p != NULL && p in old(entries) ==> live == old(live) - {old(nodes)[p]} && nodes == old(nodes) - {p}
      decreases |entries|, 1
    {
      if p == NULL || p !in entries {
        return;
      }
      mem := ToUnsigned(mem - entries[p]);
      Erase(p);
    }

    /**
     * `map_.erase`: the node is unlinked and then freed, which comes back through the hook.  As no
     * node is a key, the nested deletion finds nothing; the smaller map is what ends the recursion.
     */
    method Erase(p: Address)
      requires Sound(View()) && !inMem && p in entries
      modifies this
      ensures !inMem && mem == old(mem) && repeated == old(repeated)
      ensures entries == old(entries) - {p} && nodes == old(nodes) - {p} && live == old(live) - {old(nodes)[p]}
      decreases |entries|, 0
    {
      var node := nodes[p];
      assert (entries - {p}).Keys == entries.Keys - {p};
      entries := entries - {p};
      nodes := nodes - {p};
      Free(node);
    }
  }

  // ----- programs running on the hooked allocator

  /**
   * What a program does, with the library's answers: `malloc`, `free`, and allocation by a function
   * that is not hooked.
   */
  datatype Op = Alloc(size: int, p: Address, node: Address) | Release(p: Address) | Unhooked(size: int, p: Address)

  /** What the program knows: its blocks from `malloc`, the others, and the bytes `malloc` failed to give. */
  datatype Program = Program(blocks: map<Address, int>, others: set<Address>, refused: int)

  const START := Program(map[], {}, 0)

  /** Answers are fresh or null, and only blocks the program owns are freed. */
  predicate Legal(h: HeapState, c: Program, op: Op)
  {
    match op
    case Alloc(size, p, node) =>
      0 <= size < WORD && p !in h.live && node !in h.live && node != NULL && node != p
    case Release(p) => p == NULL || p in c.blocks || p in c.others
    case Unhooked(size, p) => p !in h.live && p != NULL
  }

  function Act(h: HeapState, op: Op): HeapState
    requires h.nodes.Keys == h.book.entries.Keys && (op.Alloc? ==> 0 <= op.size < WORD)
  {
    match op
    case Alloc(size, p, node) => AfterMalloc(h, size, p, node)
    case Release(p) => AfterFree(h, p)
    case Unhooked(size, p) => h.(live := h.live[p := size])
  }

  function Note(c: Program, op: Op): Program
  {
    match op
    case Alloc(size, p, _) => if p == NULL then c.(refused := c.refused + size) else c.(blocks := c.blocks[p := size])
    case Release(p) => c.(blocks := c.blocks - {p}, others := c.others - {p})
    case Unhooked(_, p) => c.(others := c.others + {p})
  }

  /** The ledger lists exactly the program's blocks; every live block is the program's or a map node. */
  ghost predicate Agrees(h: HeapState, c: Program)
  {
    && NULL !in c.blocks && NULL !in c.others
    && (forall p :: p in c.blocks <==> p in h.book.entries && p != NULL)
    && (forall p :: p in c.blocks ==> ToUnsigned(h.book.entries[p]) == c.blocks[p])
    && (forall p :: p in h.live <==> p in c.blocks || p in c.others || IsNode(h, p))
    && (forall p :: p in c.others ==> p !in c.blocks && !IsNode(h, p))
  }

  /** Failed requests are booked under the null address and never leave it. */
  ghost predicate RefusedBooked(h: HeapState, c: Program)
  {
    c.refused == h.book.repeated + (if NULL in h.book.entries then ToUnsigned(h.book.entries[NULL]) else 0)
  }

  ghost predicate Good(h: HeapState, c: Program)
  {
    Sound(h) && Balanced(h.book) && Agrees(h, c) && RefusedBooked(h, c)
  }

  lemma AllocSound(h: HeapState, size: int, p: Address, node: Address)
    requires Sound(h) && 0 <= size < WORD && p !in h.live && node !in h.live && node != NULL && node != p
    ensures Sound(AfterMalloc(h, size, p, node))
  {
  }

  lemma AllocNodes(h: HeapState, size: int, p: Address, node: Address, x: Address)
    requires 0 <= size < WORD && h.nodes.Keys == h.book.entries.Keys
    ensures IsNode(AfterMalloc(h, size, p, node), x) <==> IsNode(h, x) || (x == node && p !in h.book.entries)
  {
    var after := AfterMalloc(h, size, p, node);
    if IsNode(h, x) {
      var q :| q in h.nodes && h.nodes[q] == x;
      assert q in after.nodes && after.nodes[q] == x;
    }
    if p !in h.book.entries { assert after.nodes[p] == node; }
  }

  lemma AllocKeeps(h: HeapState, c: Program, op: Op)
    requires Good(h, c) && Legal(h, c, op) && op.Alloc?
    ensures Good(Act(h, op), Note(c, op))
  {
    var after := Act(h, op);
    RecordBalances(h.book, AddOp(op.p, op.size));
    AllocSound(h, op.size, op.p, op.node);
    SignedAndBack(op.size);
    assert op.p !in c.others && op.p !in c.blocks && op.node !in c.others && op.node !in c.blocks;
    forall x ensures IsNode(after, x) <==> IsNode(h, x) || (x == op.node && op.p !in h.book.entries) {
      AllocNodes(h, op.size, op.p, op.node, x);
    }
  }

  lemma ReleaseKeeps(h: HeapState, c: Program, op: Op)
    requires Good(h, c) && Legal(h, c, op) && op.Release?
    ensures Good(Act(h, op), Note(c, op))
  {
    var after, c', p := Act(h, op), Note(c, op), op.p;
    RecordBalances(h.book, DelOp(p));
    if p != NULL && p in h.book.entries {
      forall x ensures IsNode(after, x) <==> IsNode(h, x) && x != h.nodes[p] {
        if IsNode(h, x) && x != h.nodes[p] {
          var q :| q in h.nodes && h.nodes[q] == x;
          assert q in after.nodes && after.nodes[q] == x;
        }
      }
      assert IsNode(h, h.nodes[p]);
    } else {
      assert forall x :: IsNode(after, x) <==> IsNode(h, x);
    }
  }

  lemma UnhookedKeeps(h: HeapState, c: Program, op: Op)
    requires Good(h, c) && Legal(h, c, op) && op.Unhooked?
    ensures Good(Act(h, op), Note(c, op))
  {
    assert forall x :: IsNode(Act(h, op), x) <==> IsNode(h, x);
  }

  ghost predicate IsRun(heaps: seq<HeapState>, programs: seq<Program>, ops: seq<Op>)
  {
    && |heaps| == |programs| == |ops| + 1
    && heaps[0] == EMPTY && programs[0] == START
    && (forall i :: 0 <= i < |ops| ==>
          && Legal(heaps[i], programs[i], ops[i]) && heaps[i].nodes.Keys == heaps[i].book.entries.Keys
          && heaps[i + 1] == Act(heaps[i], ops[i]) && programs[i + 1] == Note(programs[i], ops[i]))
  }

  lemma {:induction false} RunIsGood(heaps: seq<HeapState>, programs: seq<Program>, ops: seq<Op>, k: nat)
    requires IsRun(heaps, programs, ops) && k < |heaps|
    ensures Good(heaps[k], programs[k])
  {
    if k == 0 {
      BookStaysBalanced([]);
    } else {
      var h, c, op := heaps[k - 1], programs[k - 1], ops[k - 1];
      RunIsGood(heaps, programs, ops, k - 1);
      match op
      case Alloc(_, _, _) => AllocKeeps(h, c, op);
      case Release(_) => ReleaseKeeps(h, c, op);
      case Unhooked(_, _) => UnhookedKeeps(h, c, op);
    }
  }

  /** The block `p` was allocated by operation `i` and has been neither released nor allocated since. */
  ghost predicate LiveSince(ops: seq<Op>, k: nat, i: int, p: Address)
    requires k <= |ops|
  {
    && 0 <= i < k && ops[i].Alloc? && ops[i].p == p && p != NULL
    && forall j :: i < j < k ==> ops[j] != Release(p) && !(ops[j].Alloc? && ops[j].p == p)
  }

  function RefusedIn(ops: seq<Op>): int
  {
    if ops == [] then 0
    else
      var last := ops[|ops| - 1];
      RefusedIn(ops[..|ops| - 1]) + (if last.Alloc? && last.p == NULL then last.size else 0)
  }

  lemma NoteStep(c: Program, op: Op, p: Address)
    ensures var c' := Note(c, op);
            && c'.refused == c.refused + (if op.Alloc? && op.p == NULL then op.size else 0)
            && (op.Alloc? && op.p == p && p != NULL ==> p in c'.blocks && c'.blocks[p] == op.size)
            && (op == Release(p) ==> p !in c'.blocks)
            && (!(op.Alloc? && op.p == p && p != NULL) && op != Release(p) ==>
                  (p in c'.blocks <==> p in c.blocks) && (p in c.blocks ==> c'.blocks[p] == c.blocks[p]))
  {
  }

  /**
   * The blocks that the counter is compared with are those the program got from `malloc` and has not
   * released, with the sizes asked for; `refused` is what it asked for in vain.
   */
  lemma {:induction false} BlocksAreLive(
    heaps: seq<HeapState>, programs: seq<Program>, ops: seq<Op>, k: nat, p: Address)
    requires IsRun(heaps, programs, ops) && k < |heaps|
    ensures p in programs[k].blocks <==> exists i :: LiveSince(ops, k, i, p)
    ensures p in programs[k].blocks ==> exists i :: LiveSince(ops, k, i, p) && programs[k].blocks[p] == ops[i].size
    ensures programs[k].refused == RefusedIn(ops[..k])
  {
    hide Act, Note, Legal;
    if k == 0 {
      assert START.blocks == map[] && forall i :: !LiveSince(ops, 0, i, p);
    } else {
      var n := k - 1;
      var op := ops[n];
      BlocksAreLive(heaps, programs, ops, n, p);
      NoteStep(programs[n], op, p);
      assert ops[..k][..n] == ops[..n];
      LiveStep(ops, n, k, p);
      assert op.Alloc? && op.p == p && p != NULL ==> LiveSince(ops, k, n, p);
    }
  }

  lemma LiveStep(ops: seq<Op>, n: nat, k: nat, p: Address)
    requires k == n + 1 <= |ops|
    ensures var op := ops[n];
            if op.Alloc? && op.p == p && p != NULL then forall i :: LiveSince(ops, k, i, p) <==> i == n
            else if op == Release(p) then forall i :: !LiveSince(ops, k, i, p)
            else forall i :: LiveSince(ops, k, i, p) <==> LiveSince(ops, n, i, p)
  {
    var op := ops[n];
    forall i | i < n && LiveSince(ops, k, i, p) ensures LiveSince(ops, n, i, p) && op != Release(p) {
    }
    if !(op.Alloc? && op.p == p && p != NULL) && op != Release(p) {
      forall i | LiveSince(ops, n, i, p) ensures LiveSince(ops, k, i, p) {
        assert forall j :: i < j < k ==> j < n || ops[j] == op;
      }
    }
    if op.Alloc? && op.p == p && p != NULL {
      assert LiveSince(ops, k, n, p);
    }
  }

  /**
   * In every run the counter is, modulo 2^64, the total of the program's live blocks from `malloc`
   * plus the bytes that `malloc` failed to give; so it is the total of the live blocks exactly when
   * the failed requests come to a multiple of 2^64, as when there are none.
   */
  lemma CounterIsLiveTotal(heaps: seq<HeapState>, programs: seq<Program>, ops: seq<Op>, k: nat)
    requires IsRun(heaps, programs, ops) && k < |heaps|
    ensures heaps[k].book.mem == ToUnsigned(Sum(programs[k].blocks) + programs[k].refused)
    ensures heaps[k].book.mem == ToUnsigned(Sum(programs[k].blocks)) <==> ToUnsigned(programs[k].refused) == 0
  {
    RunIsGood(heaps, programs, ops, k);
    BlocksTotal(heaps[k], programs[k]);
    WrapZero(Sum(programs[k].blocks), programs[k].refused);
  }

  lemma BlocksTotal(h: HeapState, c: Program)
    requires Good(h, c)
    ensures Sum(Lengths(h.book.entries)) + h.book.repeated == Sum(c.blocks) + c.refused
  {
    var lengths := Lengths(h.book.entries);
    var listed := lengths - {NULL};
    forall p
      ensures p in listed <==> p in c.blocks
      ensures p in listed && p in c.blocks ==> listed[p] == c.blocks[p]
    {
      assert p in c.blocks <==> p in h.book.entries && p != NULL;
    }
    SameMap(listed, c.blocks);
    if NULL in lengths {
      SumSplit(lengths, NULL);
    } else {
      assert lengths - {NULL} == lengths;
    }
  }

  lemma WrapZero(x: int, y: int)
    ensures ToUnsigned(x + y) == ToUnsigned(x) <==> ToUnsigned(y) == 0
  {
  }

  /** A program with one failed request: nothing is live, and yet the counter is not zero. */
  lemma FailedMallocIsCounted(size: int, node: Address)
    returns (heaps: seq<HeapState>, programs: seq<Program>, ops: seq<Op>)
    requires 0 < size < WORD && node != NULL
    ensures IsRun(heaps, programs, ops) && |ops| == 1
    ensures programs[1].blocks == map[] && heaps[1].book.mem == size
  {
    ops := [Alloc(size, NULL, node)];
    heaps := [EMPTY, Act(EMPTY, ops[0])];
    programs := [START, Note(START, ops[0])];
  }
}
