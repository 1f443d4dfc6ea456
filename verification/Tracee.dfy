/**
 * The word-wise accessors of src/tt.cpp to the memory and the stack pointer of a traced i386
 * process.  A word is four bytes, least significant first.
 */
module Tracee {
  import opened Common

  const ADDRESS_SPACE := 0x1_0000_0000

  type Address = a: int | 0 <= a < ADDRESS_SPACE

  /** The mapped bytes of the process, by address. */
  type Memory = map<int, Byte>

  /** Addresses are 32 bits wide, and so are their sums. */
  function Wrap(a: int): (r: Address)
    ensures 0 <= a < ADDRESS_SPACE ==> r == a
  {
    a % ADDRESS_SPACE
  }

  /**
   * The byte at offset `i` from `a`.  An unmapped one reads as part of the word -1 that a failed
   * peek returns.
   */
  function At(m: Memory, a: int, i: int): Byte
  {
    var x := Wrap(a + i);
    if x in m then m[x] else 255
  }

  function Bytes(m: Memory, a: int, n: nat): seq<Byte> { seq(n, i requires 0 <= i < n => At(m, a, i)) }

  /** The word that PTRACE_PEEKTEXT returns, as the bytes it puts in memory. */
  function Peek(m: Memory, a: int): (w: seq<Byte>)
    ensures |w| == 4
  {
    [At(m, a, 0), At(m, a, 1), At(m, a, 2), At(m, a, 3)]
  }

  /** PTRACE_POKETEXT. */
  function Poke(m: Memory, a: int, w: seq<Byte>): Memory
    requires |w| == 4
  {
    m[Wrap(a) := w[0]][Wrap(a + 1) := w[1]][Wrap(a + 2) := w[2]][Wrap(a + 3) := w[3]]
  }

  /** The same byte, or none, at `x`. */
  predicate SameAt(m: Memory, m': Memory, x: Address) { (x in m <==> x in m') && (x in m ==> m[x] == m'[x]) }

  lemma PeekAt(m: Memory, a: int, i: int)
    ensures Peek(m, a + i) == [At(m, a, i), At(m, a, i + 1), At(m, a, i + 2), At(m, a, i + 3)]
  {
  }

  lemma WholeBytes(m: Memory, a: int, now: seq<Byte>, before: seq<Byte>, n: nat)
    requires n <= |now| == |before|
    requires forall j :: 0 <= j < n ==> now[j] == At(m, a, j)
    requires forall j :: n <= j < |now| ==> now[j] == before[j]
    ensures now == Bytes(m, a, n) + before[n..]
  {
  }

  function RoundUp(n: nat): nat { if n % 4 == 0 then n else n + 4 - n % 4 }

  function RoundDown(n: nat): nat { n - n % 4 }

  /** The string `s` with its terminating zero is at `a`. */
  ghost predicate HoldsString(m: Memory, a: int, s: seq<Byte>)
  {
    (forall i :: 0 <= i < |s| ==> At(m, a, i) == s[i] && s[i] != 0) && At(m, a, |s|) == 0
  }

  lemma StringUnique(m: Memory, a: int, s: seq<Byte>, t: seq<Byte>)
    requires HoldsString(m, a, s) && HoldsString(m, a, t)
    ensures s == t
  {
    assert At(m, a, |s|) == 0 && At(m, a, |t|) == 0;
    assert |s| == |t|;
    assert forall i :: 0 <= i < |s| ==> s[i] == At(m, a, i) == t[i];
  }

  /** Comparing with the string at an address is comparing with what reading it gives. */
  lemma StringDecides(m: Memory, a: int, s: seq<Byte>, t: seq<Byte>)
    requires HoldsString(m, a, s)
    ensures HoldsString(m, a, t) <==> s == t
  {
    if HoldsString(m, a, t) { StringUnique(m, a, s, t); }
  }

  class Process {
    var mem: Memory
    var esp: Address

    constructor (mem: Memory, esp: Address)
      ensures this.mem == mem && this.esp == esp
    {
      this.mem, this.esp := mem, esp;
    }

    /** ptrace_read: whole words, so a length that is no multiple of four fills up to the next one. */
    method Read(addr: int, buf: array<Byte>, len: nat)
      requires RoundUp(len) <= buf.Length
      modifies buf
      ensures buf[..] == Bytes(mem, addr, RoundUp(len)) + old(buf[RoundUp(len)..])
    {
      hide Bytes;
      var i, count := 0, 0;
      while count < len
        invariant count == 4 * i && count <= RoundUp(len)
        invariant forall j :: 0 <= j < count ==> buf[j] == At(mem, addr, j)
        invariant forall j :: count <= j < buf.Length ==> buf[j] == old(buf[j])
      {
        var word := Peek(mem, addr + count);
        count := count + 4;
        buf[4 * i], buf[4 * i + 1], buf[4 * i + 2], buf[4 * i + 3] := word[0], word[1], word[2], word[3];
        i := i + 1;
      }
      WholeBytes(mem, addr, buf[..], old(buf[..]), RoundUp(len));
    }

    /**
     * ptrace_write: likewise whole words, so the source is read up to the next multiple of four
     * and so much is written.
     */
    method Write(addr: int, src: seq<Byte>, len: nat)
      requires RoundUp(len) <= |src|
      modifies this`mem
      ensures mem == Written(old(mem), addr, src[..RoundUp(len)])
    {
      var count := 0;
      while count < len
        invariant count % 4 == 0 && count <= RoundUp(len)
        invariant mem == Written(old(mem), addr, src[..count])
      {
        WrittenWord(old(mem), addr, src, count);
        mem := Poke(mem, addr + count, src[count..count + 4]);
        count := count + 4;
      }
      assert count == RoundUp(len);
    }

    /**
     * ptrace_readstr: at most sixteen words.  Without a zero among them the result is not a string
     * (the original then returns an unterminated buffer).
     */
    method ReadString(addr: int) returns (str: seq<Byte>, terminated: bool)
      ensures terminated <==> exists j :: 0 <= j < 64 && At(mem, addr, j) == 0
      ensures terminated ==> |str| <= 63 && HoldsString(mem, addr, str)
      ensures !terminated ==> |str| == 64 && forall j :: 0 <= j < 64 ==> str[j] == At(mem, addr, j) != 0
    {
      str, terminated := [], false;
      var count := 0;
      while |str| <= 60
        invariant |str| == count <= 64 && count % 4 == 0
        invariant forall j :: 0 <= j < |str| ==> str[j] == At(mem, addr, j) != 0
        decreases 64 - count
      {
        var word := Peek(mem, addr + count);
        PeekAt(mem, addr, count);
        count := count + 4;
        str, terminated := AppendWord(str, word);
        if terminated { return; }
      }
    }

    /** The bytes of a word up to a zero. */
    method AppendWord(str: seq<Byte>, word: seq<Byte>) returns (longer: seq<Byte>, terminated: bool)
      requires |word| == 4
      ensures |str| <= |longer| <= |str| + 4 && longer == str + word[..|longer| - |str|]
      ensures forall i :: 0 <= i < |longer| - |str| ==> word[i] != 0
      ensures if terminated then |longer| < |str| + 4 && word[|longer| - |str|] == 0 else |longer| == |str| + 4
    {
      longer := str;
      if word[0] == 0 { return longer, true; }
      longer := longer + [word[0]];
      if word[1] == 0 { return longer, true; }
      longer := longer + [word[1]];
      if word[2] == 0 { return longer, true; }
      longer := longer + [word[2]];
      if word[3] == 0 { return longer, true; }
      longer := longer + [word[3]];
      return longer, false;
    }

    /** ptrace_push. */
    method Push(src: seq<Byte>, size: nat) returns (top: Address)
      requires RoundUp(size) <= |src|
      modifies this
      ensures top == esp == PushTop(old(esp), size)
      ensures mem == Written(old(mem), top, src[..RoundUp(size)])
    {
      var sp := esp;
      sp := Wrap(sp - size);
      sp := sp - sp % 4;
      esp := sp;
      Write(sp, src, size);
      return sp;
    }

    /**
     * Pushing a string as `call_dl_open` does, then reading it back.  The pointer wraps around where
     * the string does not fit below it; if it does not wrap, nothing at or above the old one changes.
     */
    method PushString(s: seq<Byte>, beyond: seq<Byte>) returns (top: Address, back: seq<Byte>, terminated: bool)
      requires |s| <= 63 && (forall i :: 0 <= i < |s| ==> s[i] != 0) && |beyond| >= 3
      requires esp % 4 == 0
      modifies this
      ensures terminated && back == s && top == esp && esp % 4 == 0
      ensures forall x: Address :: Wrap(x - top) >= RoundUp(|s| + 1) ==> SameAt(old(mem), mem, x)
      ensures |s| < old(esp) ==> KeepsLive(old(mem), mem, old(esp))
    {
      hide Written, RoundDown, Wrap, SameAt;
      top := Push(s + [0] + beyond, |s| + 1);
      PushedStringStays(old(mem), top, s, beyond);
      AlignedPushElsewhere(old(mem), old(esp), |s| + 1, (s + [0] + beyond)[..RoundUp(|s| + 1)]);
      assert At(mem, top, |s|) == 0;
      back, terminated := ReadString(top);
      StringUnique(mem, top, back, s);
    }
  }

  /** Going `n` on from `a` leads to `x` exactly when `x` is `n` away. */
  lemma WrapOffset(a: int, n: int, x: Address)
    requires 0 <= n < ADDRESS_SPACE
    ensures Wrap(a + n) == x <==> Wrap(x - a) == n
  {
  }

  /** Writing changes the bytes less than its length away, to what is written there, and no other. */
  lemma {:induction false} WrittenByte(m: Memory, a: int, data: seq<Byte>, x: Address)
    requires |data| <= ADDRESS_SPACE
    ensures var o := Wrap(x - a);
            if o < |data| then x in Written(m, a, data) && Written(m, a, data)[x] == data[o]
            else SameAt(m, Written(m, a, data), x)
  {
    if data == [] {
    } else {
      WrittenByte(m, a, data[..|data| - 1], x);
      WrapOffset(a, |data| - 1, x);
    }
  }

  lemma WrittenWord(m: Memory, a: int, data: seq<Byte>, n: nat)
    requires n + 4 <= |data|
    ensures Poke(Written(m, a, data[..n]), a + n, data[n..n + 4]) == Written(m, a, data[..n + 4])
  {
    assert data[..n + 4][..n + 3] == data[..n + 3] && data[..n + 3][..n + 2] == data[..n + 2];
    assert data[..n + 2][..n + 1] == data[..n + 1] && data[..n + 1][..n] == data[..n];
    assert Written(m, a, data[..n + 1]) == Written(m, a, data[..n])[Wrap(a + n) := data[n]];
    assert Written(m, a, data[..n + 2]) == Written(m, a, data[..n + 1])[Wrap(a + n + 1) := data[n + 1]];
    assert Written(m, a, data[..n + 3]) == Written(m, a, data[..n + 2])[Wrap(a + n + 2) := data[n + 2]];
  }

  /** Memory with `data` laid over it at `a`. */
  function Written(m: Memory, a: int, data: seq<Byte>): Memory
  {
    if data == [] then m else Written(m, a, data[..|data| - 1])[Wrap(a + |data| - 1) := data[|data| - 1]]
  }

  /** Where a push of `size` bytes leaves the stack pointer. */
  function PushTop(esp: Address, size: nat): Address { RoundDown(Wrap(esp - size)) }

  /** The pushed words end at or below the old stack pointer. */
  predicate PushFits(esp: Address, size: nat)
  {
    size <= esp && (size % 4 == 0 || esp % 4 < size % 4)
  }

  lemma PushRoom(esp: Address, size: nat)
    requires size <= esp
    ensures PushTop(esp, size) % 4 == 0 && PushTop(esp, size) <= esp
    ensures PushTop(esp, size) + RoundUp(size) <= esp <==> PushFits(esp, size)
  {
    var r, s := esp % 4, size % 4;
    if r >= s {
      assert (esp - size) % 4 == r - s;
    } else {
      assert (esp - size) % 4 == r - s + 4;
    }
  }

  /** A push from an aligned stack pointer fills exactly the room it makes. */
  lemma AlignedPush(esp: Address, size: nat)
    requires size <= esp && esp % 4 == 0
    ensures PushFits(esp, size) && PushTop(esp, size) + RoundUp(size) == esp
  {
    PushRoom(esp, size);
  }

  /** What is live: nothing at or above the stack pointer changes. */
  ghost predicate KeepsLive(m: Memory, m': Memory, esp: Address)
  {
    forall x: Address :: x >= esp ==> SameAt(m, m', x)
  }

  lemma FittingPushKeepsLive(m: Memory, esp: Address, size: nat, data: seq<Byte>)
    requires PushFits(esp, size) && |data| == RoundUp(size)
    ensures KeepsLive(m, Written(m, PushTop(esp, size), data), esp)
  {
    PushRoom(esp, size);
    forall x: Address | x >= esp ensures SameAt(m, Written(m, PushTop(esp, size), data), x) {
      WrittenByte(m, PushTop(esp, size), data, x);
    }
  }

  /** What a push from an aligned stack pointer leaves alone. */
  lemma AlignedPushElsewhere(m: Memory, esp: Address, size: nat, data: seq<Byte>)
    requires esp % 4 == 0 && |data| == RoundUp(size) <= ADDRESS_SPACE
    ensures var top := PushTop(esp, size);
            && top % 4 == 0
            && (forall x: Address :: Wrap(x - top) >= RoundUp(size) ==> SameAt(m, Written(m, top, data), x))
            && (size <= esp ==> KeepsLive(m, Written(m, top, data), esp))
  {
    var top := PushTop(esp, size);
    forall x: Address | Wrap(x - top) >= RoundUp(size) ensures SameAt(m, Written(m, top, data), x) {
      WrittenByte(m, top, data, x);
    }
    if size <= esp {
      AlignedPush(esp, size);
      FittingPushKeepsLive(m, esp, size, data);
    }
  }

  /** A live byte that a push overwrites where it does not fit. */
  lemma OverrunByte(esp: Address, size: nat) returns (x: Address)
    requires !PushFits(esp, size) && 0 < size < 0x8000_0000
    ensures x >= esp && Wrap(x - PushTop(esp, size)) < RoundUp(size)
  {
    if size <= esp {
      PushRoom(esp, size);
      x := esp;
    } else {
      x := PushTop(esp, size);
    }
  }

  /**
   * Exactly when a push is safe: whatever is pushed, nothing at or above the old stack pointer changes,
   * if and only if the size does not exceed the pointer and is a multiple of four or has a remainder
   * greater than the misalignment of the pointer.
   */
  lemma PushKeepsLiveIff(m: Memory, esp: Address, size: nat)
    requires size < 0x8000_0000
    ensures (forall data :: |data| == RoundUp(size) ==> KeepsLive(m, Written(m, PushTop(esp, size), data), esp))
              <==> PushFits(esp, size)
  {
    if PushFits(esp, size) {
      forall data: seq<Byte> | |data| == RoundUp(size)
        ensures KeepsLive(m, Written(m, PushTop(esp, size), data), esp)
      {
        FittingPushKeepsLive(m, esp, size, data);
      }
    } else {
      var x := OverrunByte(esp, size);
      var other: Byte := if x in m && m[x] == 0 then 1 else 0;
      var data := seq(RoundUp(size), i => other);
      WrittenByte(m, PushTop(esp, size), data, x);
      assert !SameAt(m, Written(m, PushTop(esp, size), data), x);
    }
  }

  lemma PushedStringStays(m: Memory, top: Address, s: seq<Byte>, beyond: seq<Byte>)
    requires |s| <= 63 && |beyond| >= 3 && (forall i :: 0 <= i < |s| ==> s[i] != 0)
    ensures HoldsString(Written(m, top, (s + [0] + beyond)[..RoundUp(|s| + 1)]), top, s)
  {
    var after := Written(m, top, (s + [0] + beyond)[..RoundUp(|s| + 1)]);
    forall i | 0 <= i <= |s| ensures At(after, top, i) == (s + [0] + beyond)[i] {
      WrittenByte(m, top, (s + [0] + beyond)[..RoundUp(|s| + 1)], Wrap(top + i));
      WrapOffset(top, i, Wrap(top + i));
    }
  }
}
