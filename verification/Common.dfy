/** The optional values and the few facts about collections used throughout the model. */
module Common {
  datatype Option<+T> = None | Some(value: T)

  newtype Byte = x: int | 0 <= x < 256

  /** The unsigned number in four bytes, least significant first. */
  function LittleEndian(w: seq<Byte>): (u: int)
    requires |w| == 4
    ensures 0 <= u < 0x1_0000_0000
  {
    w[0] as int + 0x100 * w[1] as int + 0x1_0000 * w[2] as int + 0x100_0000 * w[3] as int
  }

  /** The four bytes of a number modulo 2^32, least significant first. */
  function Bytes32(x: int): (w: seq<Byte>)
    ensures |w| == 4
  {
    var u := x % 0x1_0000_0000;
    var q := u / 0x100;
    var r := q / 0x100;
    [(u % 0x100) as Byte, (q % 0x100) as Byte, (r % 0x100) as Byte, (r / 0x100 % 0x100) as Byte]
  }

  lemma Bytes32Unsigned(x: int)
    ensures LittleEndian(Bytes32(x)) == x % 0x1_0000_0000
  {
  }

  /** A 32-bit word read as a signed number. */
  function Signed32(w: int): int { if w < 0x8000_0000 then w else w - 0x1_0000_0000 }

  lemma HasMember<T>(s: set<T>)
    ensures s == {} || exists x :: x in s
  {
    if forall x :: x !in s {
      assert s == {};
    }
  }

  /** Some member of a set that is not empty. */
  ghost function Choose<T>(s: set<T>): (x: T)
    requires s != {}
    ensures x in s
  {
    HasMember(s);
    var x :| x in s;
    x
  }

  function Elements<T>(xs: seq<T>): set<T> { set x | x in xs }

  lemma ElementsAppend<T>(xs: seq<T>, x: T)
    ensures Elements(xs + [x]) == Elements(xs) + {x}
  {
  }

  lemma KeysUpdate<K, V>(m: map<K, V>, k: K, v: V)
    ensures m[k := v].Keys == m.Keys + {k}
    ensures k in m ==> m[k := v].Keys == m.Keys
  {
  }

  /** Maps with the same keys and values are the same. */
  lemma SameMap<K, V>(a: map<K, V>, b: map<K, V>)
    requires forall k :: k in a <==> k in b
    requires forall k :: k in a && k in b ==> a[k] == b[k]
    ensures a == b
  {
    assert a.Keys == b.Keys;
  }

  /** The sum of the values of a map. */
  ghost function Sum(m: map<int, int>): int
    decreases |m|
  {
    if m.Keys == {} then 0
    else
      var k := Choose(m.Keys);
      m[k] + Sum(m - {k})
  }

  lemma {:induction false} SumSplit(m: map<int, int>, k: int)
    requires k in m
    ensures Sum(m) == m[k] + Sum(m - {k})
    decreases |m|
  {
    var d := Choose(m.Keys);
    if d != k {
      assert (m - {d}).Keys == m.Keys - {d} && (m - {k}).Keys == m.Keys - {k};
      SumSplit(m - {d}, k);
      SumSplit(m - {k}, d);
      assert m - {d} - {k} == m - {k} - {d};
    }
  }

  lemma SumUpdate(m: map<int, int>, k: int, v: int)
    ensures Sum(m[k := v]) == Sum(m) + v - (if k in m then m[k] else 0)
  {
    SumSplit(m[k := v], k);
    if k in m {
      SumSplit(m, k);
      assert m[k := v] - {k} == m - {k};
    } else {
      assert m[k := v] - {k} == m;
    }
  }
}
