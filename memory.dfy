/**
 * The target process's memory, seen byte by byte, and the little-endian
 * 32-bit packing that `struct.pack('<I', …)` performs.
 */
module Memory {
  import opened Outcomes
  import opened A64

  type Byte = b: int | 0 <= b < 256

  /** Process memory: address to byte. */
  type Memory = map<int, Byte>

  /** The four addresses an instruction word at `addr` occupies. */
  function Window(addr: int): set<int> {
    {addr, addr + 1, addr + 2, addr + 3}
  }

  /**
   * `struct.pack('<I', insn)`: the four bytes of an unsigned 32-bit value,
   * least significant first. Values outside [0, 2^32) make it raise, modelled
   * as None.
   */
  function PackLE32(insn: int): (r: Option<seq<Byte>>)
    ensures r.Some? <==> 0 <= insn < WordLimit
    ensures r.Some? ==> |r.value| == 4 && UnpackLE32(r.value) == insn
  {
    if 0 <= insn < WordLimit then
      var bs: seq<Byte> := [insn % 0x100, (insn / 0x100) % 0x100, (insn / 0x1_0000) % 0x100, insn / 0x100_0000];
      PackedBytesSum(insn);
      Some(bs)
    else
      None
  }

  lemma PackedBytesSum(insn: int)
    requires 0 <= insn < WordLimit
    ensures insn == insn % 0x100 + 0x100 * ((insn / 0x100) % 0x100)
                    + 0x1_0000 * ((insn / 0x1_0000) % 0x100) + 0x100_0000 * (insn / 0x100_0000)
  {
    var q1 := insn / 0x100;
    var q2 := q1 / 0x100;
    var q3 := q2 / 0x100;
    assert insn == insn % 0x100 + 0x100 * q1;
    assert q1 == q1 % 0x100 + 0x100 * q2;
    assert q2 == q2 % 0x100 + 0x100 * q3;
    DivModUnique(insn, 0x1_0000, q2, insn % 0x100 + 0x100 * (q1 % 0x100));
    DivModUnique(insn, 0x100_0000, q3, insn % 0x100 + 0x100 * (q1 % 0x100) + 0x1_0000 * (q2 % 0x100));
  }

  /** The unsigned 32-bit value of four little-endian bytes. */
  function UnpackLE32(bs: seq<Byte>): nat
    requires |bs| == 4
  {
    var b0, b1, b2, b3: int := bs[0], bs[1], bs[2], bs[3];
    b0 + 0x100 * b1 + 0x1_0000 * b2 + 0x100_0000 * b3
  }

  /** Packing is injective on four-byte sequences: unpacking and packing again gives the same bytes. */
  lemma UnpackPack(bs: seq<Byte>)
    requires |bs| == 4
    ensures UnpackLE32(bs) < WordLimit
    ensures PackLE32(UnpackLE32(bs)) == Some(bs)
  {
    var w := UnpackLE32(bs);
    var b0, b1, b2, b3: int := bs[0], bs[1], bs[2], bs[3];
    DivModUnique(w, 0x100, b1 + 0x100 * b2 + 0x1_0000 * b3, b0);
    DivModUnique(w, 0x1_0000, b2 + 0x100 * b3, b0 + 0x100 * b1);
    DivModUnique(w, 0x100_0000, b3, b0 + 0x100 * b1 + 0x1_0000 * b2);
    DivModUnique(w / 0x100, 0x100, b2 + 0x100 * b3, b1);
    DivModUnique(w / 0x1_0000, 0x100, b3, b2);
    assert [w % 0x100, (w / 0x100) % 0x100, (w / 0x1_0000) % 0x100, w / 0x100_0000] == bs;
  }

  /** Memory `m` with the four bytes `bs` stored from `addr` upwards. */
  function Store(m: Memory, addr: int, bs: seq<Byte>): Memory
    requires |bs| == 4
  {
    m[addr := bs[0]][addr + 1 := bs[1]][addr + 2 := bs[2]][addr + 3 := bs[3]]
  }

  /** The 32-bit little-endian word at `addr`, if all four bytes are mapped. */
  function ReadWord(m: Memory, addr: int): Option<nat> {
    if Window(addr) <= m.Keys
    then Some(UnpackLE32([m[addr], m[addr + 1], m[addr + 2], m[addr + 3]]))
    else None
  }

  /** Address `a` holds the same thing (or nothing) in both memories. */
  predicate SameAt(m: Memory, m': Memory, a: int) {
    (a in m <==> a in m') && (a in m ==> m[a] == m'[a])
  }

  /** `m'` differs from `m` at most at the addresses in `touched`. */
  ghost predicate UnchangedOutside(m: Memory, m': Memory, touched: set<int>) {
    forall a :: a !in touched ==> SameAt(m, m', a)
  }

  /** Storing a word changes only its window, and reading it back gives the stored bytes. */
  lemma StoreEffect(m: Memory, addr: int, bs: seq<Byte>)
    requires |bs| == 4
    ensures UnchangedOutside(m, Store(m, addr, bs), Window(addr))
    ensures Store(m, addr, bs).Keys == m.Keys + Window(addr)
    ensures ReadWord(Store(m, addr, bs), addr) == Some(UnpackLE32(bs))
  {
    var m' := Store(m, addr, bs);
    assert [m'[addr], m'[addr + 1], m'[addr + 2], m'[addr + 3]] == bs;
  }

  lemma UnchangedOutsideTrans(m1: Memory, m2: Memory, m3: Memory, t1: set<int>, t2: set<int>)
    requires UnchangedOutside(m1, m2, t1) && UnchangedOutside(m2, m3, t2)
    ensures UnchangedOutside(m1, m3, t1 + t2)
  {
    forall a | a !in t1 + t2 ensures SameAt(m1, m3, a) {
      assert SameAt(m1, m2, a) && SameAt(m2, m3, a);
    }
  }

  /** A word whose window was not touched reads the same afterwards. */
  lemma ReadWordUnchanged(m: Memory, m': Memory, touched: set<int>, addr: int)
    requires UnchangedOutside(m, m', touched) && touched !! Window(addr)
    ensures ReadWord(m', addr) == ReadWord(m, addr)
  {
    assert SameAt(m, m', addr) && SameAt(m, m', addr + 1) && SameAt(m, m', addr + 2) && SameAt(m, m', addr + 3);
  }
}
