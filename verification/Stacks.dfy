/**
 * Stack traces in src/ts/signal_handler.cc: the form a signalled thread fills in, the order on
 * stacks and the grouping of threads that share a stack.
 */
module Stacks {
  import opened Common

  type Stack = seq<int>

  const MAX_DEPTH := 100

  /** What unwinding yields at one frame: an instruction pointer, or a failure to read it. */
  type Frame = Option<int>

  function Readable(frames: seq<Frame>): Stack
  {
    if frames == [] then []
    else Readable(frames[..|frames| - 1]) + (if frames[|frames| - 1].Some? then [frames[|frames| - 1].value] else [])
  }

  /** The first hundred readable instruction pointers. */
  function Recorded(frames: seq<Frame>): Stack
  {
    if |Readable(frames)| <= MAX_DEPTH then Readable(frames) else Readable(frames)[..MAX_DEPTH]
  }

  /**
   * The frames the handler looks at: both its first step and the step in the loop guard come
   * before the first read, so its own frame and the next one are passed over.
   */
  function Visited(unwind: seq<Frame>): seq<Frame>
  {
    if |unwind| >= 2 then unwind[2..] else []
  }

  lemma {:induction false} ReadablePrefix(frames: seq<Frame>, n: nat)
    requires n <= |frames|
    ensures Readable(frames[..n]) <= Readable(frames)
    decreases |frames|
  {
    if n < |frames| {
      ReadablePrefix(frames[..|frames| - 1], n);
      assert frames[..|frames| - 1][..n] == frames[..n];
    } else {
      assert frames[..n] == frames;
    }
  }

  lemma ReadableNext(frames: seq<Frame>, n: nat)
    requires n < |frames|
    ensures Readable(frames[..n + 1]) == Readable(frames[..n]) + (if frames[n].Some? then [frames[n].value] else [])
  {
    assert frames[..n + 1][..n] == frames[..n];
  }

  /** Once a hundred have been read, the rest of the unwind makes no difference. */
  lemma FullStackIsFinal(frames: seq<Frame>, n: nat)
    requires n <= |frames| && |Readable(frames[..n])| >= MAX_DEPTH
    ensures Recorded(frames[..n]) == Recorded(frames)
  {
    ReadablePrefix(frames, n);
  }

  function CountReadable(frames: seq<Frame>): nat
  {
    if frames == [] then 0
    else CountReadable(frames[..|frames| - 1]) + (if frames[|frames| - 1].Some? then 1 else 0)
  }

  lemma {:induction false} ReadableLength(frames: seq<Frame>)
    ensures |Readable(frames)| == CountReadable(frames) <= |frames|
  {
    if frames == [] {
    } else {
      ReadableLength(frames[..|frames| - 1]);
    }
  }

  lemma ReadableAt(frames: seq<Frame>, p: nat)
    requires p < |frames| && frames[p].Some?
    ensures var place := CountReadable(frames[..p]);
            place < |Readable(frames)| && Readable(frames)[place] == frames[p].value
  {
    ReadableLength(frames[..p]);
    ReadableNext(frames, p);
    ReadablePrefix(frames, p + 1);
  }

  /**
   * The record of an unwind, frame by frame: the first two frames are passed over, a readable frame
   * with fewer than a hundred readable ones before it (from the third on) is recorded at that place,
   * and there is nothing else in it.
   */
  lemma RecordOfUnwind(unwind: seq<Frame>, p: nat)
    requires 2 <= p < |unwind|
    ensures var record, place := Recorded(Visited(unwind)), CountReadable(unwind[2..p]);
            && (unwind[p].Some? && place < 100 ==> place < |record| && record[place] == unwind[p].value)
            && |record| == if CountReadable(unwind[2..]) < 100 then CountReadable(unwind[2..]) else 100
  {
    var frames := unwind[2..];
    assert frames[..p - 2] == unwind[2..p];
    ReadableLength(frames);
    if unwind[p].Some? { ReadableAt(frames, p - 2); }
  }

  lemma ShortUnwindRecordsNothing(unwind: seq<Frame>)
    requires |unwind| <= 2
    ensures Recorded(Visited(unwind)) == []
  {
  }

  lemma {:induction false} AllReadable(frames: seq<Frame>)
    requires forall i :: 0 <= i < |frames| ==> frames[i].Some?
    ensures CountReadable(frames) == |frames|
  {
    if frames == [] {
    } else {
      AllReadable(frames[..|frames| - 1]);
    }
  }

  /** Of an unwind of readable frames, entry `i` is frame `i + 2`, up to a hundred entries. */
  lemma RecordOfReadable(unwind: seq<Frame>, i: nat)
    requires (forall j :: 0 <= j < |unwind| ==> unwind[j].Some?) && i < 100 && i + 2 < |unwind|
    ensures i < |Recorded(Visited(unwind))| && Recorded(Visited(unwind))[i] == unwind[i + 2].value
  {
    AllReadable(unwind[2..i + 2]);
    RecordOfUnwind(unwind, i + 2);
  }

  // ----- the form

  class StackTraceForm {
    const tid: int
    const address: array<int>
    var depth: nat

    ghost predicate Valid()
      reads this
    {
      address.Length == MAX_DEPTH && depth <= MAX_DEPTH
    }

    ghost function Trace(): Stack
      requires Valid()
      reads this, address
    {
      address[..depth]
    }

    constructor (tid: int)
      ensures Valid() && fresh(address) && Trace() == [] && this.tid == tid
    {
      this.tid := tid;
      address := new int[MAX_DEPTH];
      depth := 0;
    }

    method AddAddress(ip: int) returns (ok: bool)
      requires Valid()
      modifies this, address
      ensures Valid() && ok == (|old(Trace())| < MAX_DEPTH)
      ensures Trace() == if ok then old(Trace()) + [ip] else old(Trace())
    {
      if depth >= MAX_DEPTH {
        return false;
      }
      address[depth] := ip;
      depth := depth + 1;
      return true;
    }

    /** The unwinding loop of the signal handler. */
    method Fill(unwind: seq<Frame>)
      requires Valid() && Trace() == []
      modifies this, address
      ensures Valid() && Trace() == Recorded(Visited(unwind))
    {
      ghost var frames := Visited(unwind);
      var cursor := 1;
      while cursor + 1 < |unwind|
        invariant Valid() && 1 <= cursor && cursor - 1 <= |frames|
        invariant Trace() == Readable(frames[..cursor - 1])
      {
        cursor := cursor + 1;
        ReadableNext(frames, cursor - 2);
        if unwind[cursor].Some? {
          var ok := AddAddress(unwind[cursor].value);
          if !ok {
            FullStackIsFinal(frames, cursor - 2);
            return;
          }
        }
      }
      assert frames[..cursor - 1] == frames;
    }
  }

  // ----- the order

  /** Shorter first; among equally long ones, the smaller address at the first difference. */
  ghost predicate Shortlex(a: Stack, b: Stack)
  {
    || |a| < |b|
    || (|a| == |b| && exists i :: Differ(a, b, i) && a[i] < b[i])
  }

  /** The stacks have their first difference at `i`. */
  predicate Differ(a: Stack, b: Stack, i: int)
  {
    0 <= i < |a| && i < |b| && a[i] != b[i] && forall k :: 0 <= k < i ==> a[k] == b[k]
  }

  lemma FirstDifferenceDecides(a: Stack, b: Stack, i: nat)
    requires |a| == |b| && Differ(a, b, i)
    ensures Shortlex(a, b) <==> a[i] < b[i]
  {
    assert forall j :: Differ(a, b, j) ==> !(j < i) && !(i < j);
  }

  lemma Irreflexive(a: Stack)
    ensures !Shortlex(a, a)
  {
  }

  lemma {:induction false} FirstDifference(a: Stack, b: Stack) returns (i: nat)
    requires |a| == |b| && a != b
    ensures Differ(a, b, i)
  {
    i := 0;
    while i < |a| && a[i] == b[i]
      invariant i <= |a| && forall k :: 0 <= k < i ==> a[k] == b[k]
    {
      i := i + 1;
    }
    assert i == |a| ==> a == b;
  }

  /** A strict order whose equivalence is equality: of two stacks, one precedes the other or they are the same. */
  lemma Trichotomy(a: Stack, b: Stack)
    ensures a == b <==> !Shortlex(a, b) && !Shortlex(b, a)
    ensures !(Shortlex(a, b) && Shortlex(b, a))
  {
    Irreflexive(a);
    if |a| == |b| && a != b {
      var i := FirstDifference(a, b);
      assert Differ(b, a, i);
      FirstDifferenceDecides(a, b, i);
      FirstDifferenceDecides(b, a, i);
    }
  }

  lemma Transitive(a: Stack, b: Stack, c: Stack)
    requires Shortlex(a, b) && Shortlex(b, c)
    ensures Shortlex(a, c)
  {
    if |a| == |c| {
      var i :| Differ(a, b, i) && a[i] < b[i];
      var j :| Differ(b, c, j) && b[j] < c[j];
      var m := if i < j then i else j;
      assert Differ(a, c, m);
    }
  }

  /** The comparison operator of the map, on the used parts of two forms. */
  method StackLess(a: Stack, b: Stack) returns (less: bool)
    ensures less <==> Shortlex(a, b)
  {
    if |a| != |b| {
      return |a| < |b|;
    }
    for i := 0 to |a|
      invariant forall k :: 0 <= k < i ==> a[k] == b[k]
    {
      if a[i] != b[i] {
        assert Differ(a, b, i);
        FirstDifferenceDecides(a, b, i);
        return a[i] < b[i];
      }
    }
    return false;
  }

  // ----- grouping

  /** A submitted form, and a map entry: a stack with the threads found to have it. */
  datatype Trace = Trace(tid: int, stack: Stack)
  datatype Group = Group(stack: Stack, tids: seq<int>)

  /** The threads with the given stack, in slot order. */
  function TidsWith(slots: seq<Trace>, stack: Stack): seq<int>
  {
    if slots == [] then []
    else
      var last := slots[|slots| - 1];
      TidsWith(slots[..|slots| - 1], stack) + (if last.stack == stack then [last.tid] else [])
  }

  ghost predicate Increasing(groups: seq<Group>)
  {
    forall i, j :: 0 <= i < j < |groups| ==> Shortlex(groups[i].stack, groups[j].stack)
  }

  /** Shallow stacks come before deep ones, and of equally deep ones that with the smaller address first. */
  lemma GroupsInOrder(groups: seq<Group>, i: nat, j: nat)
    requires Increasing(groups) && i < j < |groups|
    ensures var a, b := groups[i].stack, groups[j].stack;
            && |a| <= |b|
            && (|a| == |b| ==> exists d :: 0 <= d < |a| && a[..d] == b[..d] && a[d] < b[d])
  {
    var a, b := groups[i].stack, groups[j].stack;
    assert Shortlex(a, b);
    if |a| == |b| {
      var d :| Differ(a, b, d) && a[d] < b[d];
      assert a[..d] == b[..d];
    }
  }

  predicate HasStack(slots: seq<Trace>, stack: Stack) { exists t :: t in slots && t.stack == stack }

  /** The map after the loop: distinct stacks in increasing order, each with precisely its threads. */
  ghost predicate GroupsOf(groups: seq<Group>, slots: seq<Trace>)
  {
    && Increasing(groups)
    && (forall g :: g in groups ==> g.tids == TidsWith(slots, g.stack) && HasStack(slots, g.stack))
    && (forall t :: t in slots ==> exists g :: g in groups && g.stack == t.stack)
  }

  /** Where the map holds the stack, or where it would be inserted. */
  method Locate(groups: seq<Group>, stack: Stack) returns (i: nat)
    requires Increasing(groups)
    ensures i <= |groups|
    ensures forall j :: 0 <= j < i ==> Shortlex(groups[j].stack, stack)
    ensures forall j :: i <= j < |groups| ==> Shortlex(stack, groups[j].stack) || (j == i && groups[i].stack == stack)
  {
    i := 0;
    while i < |groups|
      invariant i <= |groups|
      invariant forall j :: 0 <= j < i ==> Shortlex(groups[j].stack, stack)
    {
      var less := StackLess(groups[i].stack, stack);
      if !less {
        break;
      }
      i := i + 1;
    }
    forall j | i <= j < |groups|
      ensures Shortlex(stack, groups[j].stack) || (j == i && groups[i].stack == stack)
    {
      Trichotomy(groups[i].stack, stack);
      if i < j && groups[i].stack != stack { Transitive(stack, groups[i].stack, groups[j].stack); }
    }
  }

  /** The loop over the slots that fills `unique_traces`. */
  method GroupByStack(slots: seq<Trace>) returns (groups: seq<Group>)
    ensures GroupsOf(groups, slots)
  {
    groups := [];
    for n := 0 to |slots|
      invariant GroupsOf(groups, slots[..n])
    {
      var e := slots[n];
      var i := Locate(groups, e.stack);
      assert slots[..n + 1] == slots[..n] + [e];
      if i < |groups| && groups[i].stack == e.stack {
        ExtendGroup(groups, slots[..n], e, i);
        groups := groups[i := Group(e.stack, groups[i].tids + [e.tid])];
      } else {
        InsertGroup(groups, slots[..n], e, i);
        groups := groups[..i] + [Group(e.stack, [e.tid])] + groups[i..];
      }
    }
    assert slots[..|slots|] == slots;
  }

  lemma {:induction false} NoTidsWith(slots: seq<Trace>, stack: Stack)
    requires !HasStack(slots, stack)
    ensures TidsWith(slots, stack) == []
  {
    if slots == [] {
    } else {
      assert slots[|slots| - 1] in slots;
      assert forall t :: t in slots[..|slots| - 1] ==> t in slots;
      NoTidsWith(slots[..|slots| - 1], stack);
    }
  }

  lemma ExtendGroup(groups: seq<Group>, slots: seq<Trace>, e: Trace, i: nat)
    requires GroupsOf(groups, slots) && i < |groups| && groups[i].stack == e.stack
    ensures GroupsOf(groups[i := Group(e.stack, groups[i].tids + [e.tid])], slots + [e])
  {
    var next := groups[i := Group(e.stack, groups[i].tids + [e.tid])];
    assert Increasing(next);
    forall j | 0 <= j < |groups| && j != i ensures groups[j].stack != e.stack {
      Irreflexive(e.stack);
    }
    hide Shortlex, Increasing, TidsWith, HasStack;
    forall g | g in next ensures g.tids == TidsWith(slots + [e], g.stack) && HasStack(slots + [e], g.stack) {
      var j :| 0 <= j < |next| && next[j] == g;
      assert groups[j] in groups && groups[j].stack == g.stack;
      OneMoreSlot(slots, e, g.stack);
    }
    forall t | t in slots + [e] ensures exists g :: g in next && g.stack == t.stack {
      if t in slots {
        var g :| g in groups && g.stack == t.stack;
        var j :| 0 <= j < |groups| && groups[j] == g;
        assert next[j] in next && next[j].stack == t.stack;
      } else {
        assert next[i] in next;
      }
    }
  }

  /** Inserting at the located place keeps the map ordered. */
  lemma InsertKeepsOrder(groups: seq<Group>, g: Group, i: nat)
    requires Increasing(groups) && i <= |groups|
    requires forall j :: 0 <= j < i ==> Shortlex(groups[j].stack, g.stack)
    requires forall j :: i <= j < |groups| ==> Shortlex(g.stack, groups[j].stack)
    ensures Increasing(groups[..i] + [g] + groups[i..])
  {
  }

  /** A stack that no group has is the stack of no slot either. */
  lemma UngroupedIsNew(groups: seq<Group>, slots: seq<Trace>, stack: Stack)
    requires GroupsOf(groups, slots) && forall g :: g in groups ==> g.stack != stack
    ensures TidsWith(slots, stack) == []
  {
    forall t | t in slots ensures t.stack != stack {
      var g :| g in groups && g.stack == t.stack;
    }
    NoTidsWith(slots, stack);
  }

  lemma InsertGroup(groups: seq<Group>, slots: seq<Trace>, e: Trace, i: nat)
    requires GroupsOf(groups, slots) && i <= |groups|
    requires forall j :: 0 <= j < i ==> Shortlex(groups[j].stack, e.stack)
    requires forall j :: i <= j < |groups| ==> Shortlex(e.stack, groups[j].stack)
    ensures GroupsOf(groups[..i] + [Group(e.stack, [e.tid])] + groups[i..], slots + [e])
  {
    var next := groups[..i] + [Group(e.stack, [e.tid])] + groups[i..];
    InsertKeepsOrder(groups, Group(e.stack, [e.tid]), i);
    forall g | g in groups ensures g.stack != e.stack {
      Irreflexive(e.stack);
    }
    hide Shortlex, Increasing;
    UngroupedIsNew(groups, slots, e.stack);
    forall g ensures g in next <==> g in groups || g == Group(e.stack, [e.tid]) {
      assert next[i] == Group(e.stack, [e.tid]);
    }
    MoreSlots(groups, next, slots, e);
  }

  lemma OneMoreSlot(slots: seq<Trace>, e: Trace, stack: Stack)
    ensures TidsWith(slots + [e], stack) == TidsWith(slots, stack) + (if e.stack == stack then [e.tid] else [])
    ensures HasStack(slots + [e], stack) <==> HasStack(slots, stack) || e.stack == stack
  {
    var more := slots + [e];
    assert more[..|more| - 1] == slots;
    if HasStack(slots, stack) {
      var t :| t in slots && t.stack == stack;
      assert t in more;
    }
    assert e in more;
  }

  /** The rest of the description survives a slot whose stack was in no group. */
  lemma MoreSlots(groups: seq<Group>, next: seq<Group>, slots: seq<Trace>, e: Trace)
    requires GroupsOf(groups, slots) && TidsWith(slots, e.stack) == [] && Increasing(next)
    requires forall g :: g in groups ==> g.stack != e.stack
    requires forall g :: g in next <==> g in groups || g == Group(e.stack, [e.tid])
    ensures GroupsOf(next, slots + [e])
  {
    hide Shortlex, Increasing, TidsWith, HasStack;
    forall g | g in next ensures g.tids == TidsWith(slots + [e], g.stack) && HasStack(slots + [e], g.stack) {
      OneMoreSlot(slots, e, g.stack);
    }
    forall t | t in slots + [e] ensures exists g :: g in next && g.stack == t.stack {
      if t in slots {
        var g :| g in groups && g.stack == t.stack;
        assert g in next;
      } else {
        assert Group(e.stack, [e.tid]) in next;
      }
    }
  }

  // ----- what the grouping means

  ghost predicate Ascending(xs: seq<int>) { forall i, j :: 0 <= i < j < |xs| ==> xs[i] < xs[j] }

  lemma AscendingAppend(xs: seq<int>, x: int)
    requires Ascending(xs) && forall y :: y in xs ==> y < x
    ensures Ascending(xs + [x])
  {
    assert forall i :: 0 <= i < |xs| ==> xs[i] in xs;
  }

  function Tids(slots: seq<Trace>): seq<int> { seq(|slots|, i requires 0 <= i < |slots| => slots[i].tid) }

  lemma {:induction false} TidsWithMembers(slots: seq<Trace>, stack: Stack)
    ensures forall x :: x in TidsWith(slots, stack) <==> Trace(x, stack) in slots
    ensures Ascending(Tids(slots)) ==> Ascending(TidsWith(slots, stack))
  {
    if slots == [] {
    } else {
      var n := |slots| - 1;
      TidsWithMembers(slots[..n], stack);
      assert slots == slots[..n] + [slots[n]];
      if Ascending(Tids(slots)) {
        assert forall i, j :: 0 <= i < j < n ==>
                 Tids(slots[..n])[i] == Tids(slots)[i] < Tids(slots)[j] == Tids(slots[..n])[j];
        forall x | x in TidsWith(slots[..n], stack) ensures x < slots[n].tid {
          var i :| 0 <= i < n && slots[i] == Trace(x, stack);
          assert Tids(slots)[i] < Tids(slots)[n];
        }
        AscendingAppend(TidsWith(slots[..n], stack), slots[n].tid);
      }
    }
  }

  /** Distinct threads end up in exactly one group each, listed once, in ascending order. */
  lemma GroupsPartition(groups: seq<Group>, slots: seq<Trace>)
    requires GroupsOf(groups, slots) && Ascending(Tids(slots))
    ensures forall g :: g in groups ==> Ascending(g.tids) && g.tids != []
    ensures forall g, x :: g in groups && x in g.tids ==> Trace(x, g.stack) in slots
    ensures forall t :: t in slots ==> exists g :: g in groups && g.stack == t.stack && t.tid in g.tids
    ensures forall i, j, x :: 0 <= i < j < |groups| && x in groups[i].tids ==> x !in groups[j].tids
  {
    forall g | g in groups
      ensures Ascending(g.tids) && g.tids != []
      ensures forall x :: x in g.tids <==> Trace(x, g.stack) in slots
    {
      TidsWithMembers(slots, g.stack);
      var t :| t in slots && t.stack == g.stack;
      assert t == Trace(t.tid, g.stack) && t.tid in g.tids;
    }
    forall t | t in slots ensures exists g :: g in groups && g.stack == t.stack && t.tid in g.tids {
      var g :| g in groups && g.stack == t.stack;
      assert t == Trace(t.tid, g.stack);
    }
    forall i, j, x | 0 <= i < j < |groups| && x in groups[i].tids ensures x !in groups[j].tids {
      assert groups[i] in groups && groups[j] in groups;
      if x in groups[j].tids {
        DistinctSlots(slots, Trace(x, groups[i].stack), Trace(x, groups[j].stack));
        Irreflexive(groups[i].stack);
      }
    }
  }

  lemma DistinctSlots(slots: seq<Trace>, t: Trace, u: Trace)
    requires Ascending(Tids(slots)) && t in slots && u in slots && t.tid == u.tid
    ensures t == u
  {
    var i :| 0 <= i < |slots| && slots[i] == t;
    var j :| 0 <= j < |slots| && slots[j] == u;
    var tids := Tids(slots);
    assert tids[i] == tids[j];
  }

  /** The specification leaves no freedom: one list of slots has one grouping. */
  lemma {:induction false} GroupsUnique(a: seq<Group>, b: seq<Group>, slots: seq<Trace>, k: nat)
    requires GroupsOf(a, slots) && GroupsOf(b, slots) && k <= |a|
    ensures k <= |b| && a[..k] == b[..k]
    ensures k == |a| ==> a == b
  {
    if k == 0 {
    } else {
      GroupsUnique(a, b, slots, k - 1);
      NextGroup(a, b, slots, k - 1);
      NextGroup(b, a, slots, k - 1);
      Trichotomy(a[k - 1].stack, b[k - 1].stack);
      assert a[k - 1] in a && b[k - 1] in b;
      assert a[..k] == a[..k - 1] + [a[k - 1]] && b[..k] == b[..k - 1] + [b[k - 1]];
    }
    if k == |a| && k < |b| { NextGroup(b, a, slots, k); }
  }

  lemma AgreeBefore(a: seq<Group>, b: seq<Group>, k: nat, l: nat)
    requires Increasing(a) && l < k < |a| && k <= |b| && a[..k] == b[..k]
    ensures b[l].stack != a[k].stack
  {
    assert a[..k][l] == b[..k][l];
    Irreflexive(a[k].stack);
  }

  /** If two groupings agree before `k`, what `a` has at `k` is not before what `b` has there. */
  lemma NextGroup(a: seq<Group>, b: seq<Group>, slots: seq<Trace>, k: nat)
    requires GroupsOf(a, slots) && GroupsOf(b, slots) && k < |a| && k <= |b| && a[..k] == b[..k]
    ensures k < |b| && !Shortlex(a[k].stack, b[k].stack)
  {
    hide Shortlex, TidsWith;
    assert a[k] in a;
    var t :| t in slots && t.stack == a[k].stack;
    var g :| g in b && g.stack == t.stack;
    var j :| 0 <= j < |b| && b[j] == g;
    if j < k { AgreeBefore(a, b, k, j); }
    Trichotomy(a[k].stack, b[k].stack);
  }

  // ----- std::set_difference on sorted ranges

  /** STLSetDifference: the merge of two ascending ranges that keeps what only the first one has. */
  method SetDifference(first: seq<int>, second: seq<int>) returns (difference: seq<int>)
    requires Ascending(first) && Ascending(second)
    ensures Ascending(difference)
    ensures forall x :: x in difference <==> x in first && x !in second
  {
    difference := [];
    var i, j := 0, 0;
    while i < |first| && j < |second|
      invariant 0 <= i <= |first| && 0 <= j <= |second|
      invariant Ascending(difference)
      invariant forall x :: x in difference <==> x in first[..i] && x !in second
      invariant forall k, l :: 0 <= k < j && i <= l < |first| ==> second[k] < first[l]
      decreases |first| + |second| - i - j
    {
      if first[i] < second[j] {
        assert first[i] !in second;
        assert first[..i + 1] == first[..i] + [first[i]];
        AscendingAppend(difference, first[i]);
        difference := difference + [first[i]];
        i := i + 1;
      } else if second[j] < first[i] {
        j := j + 1;
      } else {
        assert first[..i + 1] == first[..i] + [first[i]];
        i := i + 1;
        j := j + 1;
      }
    }
    while i < |first|
      invariant 0 <= i <= |first|
      invariant Ascending(difference)
      invariant forall x :: x in difference <==> x in first[..i] && x !in second
      invariant i < |first| ==> forall k, l :: 0 <= k < |second| && i <= l < |first| ==> second[k] < first[l]
    {
      assert first[i] !in second;
      assert first[..i + 1] == first[..i] + [first[i]];
      AscendingAppend(difference, first[i]);
      difference := difference + [first[i]];
      i := i + 1;
    }
    assert first[..|first|] == first;
  }
}
