/** Messages of the threaded queue and their XOR hash (message.c, message.h). */
module MessageHash {

  type byte = bv8

  /** data holds the padded payload; the payload proper is data[0..size] inclusive. */
  datatype Message = Message(kind: byte, hash: bv16, size: byte, data: seq<byte>)

  // ----- sizes

  /** The two low bits cleared. */
  function ClearLowTwoBits(x: nat): (y: nat) {
    x - x % 4
  }

  /** PADDED_DATA_SIZE: size + 1 bytes of payload, rounded up to a multiple of four. */
  function PaddedDataSize(size: byte): (n: nat) {
    ClearLowTwoBits((size as nat + 1) + 3)
  }

  const MESSAGE_HEADER_SIZE: nat := 4

  /** Offset of `data` in the struct: type, one byte of alignment, hash, size. */
  const DATA_OFFSET: nat := 5

  /** What create_message allocates. */
  function AllocatedSize(size: byte): (n: nat) {
    MESSAGE_HEADER_SIZE + PaddedDataSize(size) + 1
  }

  /** The padded size is the multiple of four that just covers size + 1 bytes, and the
      allocation has room for exactly that many data bytes behind the real header. */
  lemma PaddedSize(size: byte)
    ensures PaddedDataSize(size) % 4 == 0
    ensures size as nat + 1 <= PaddedDataSize(size) <= size as nat + 4
    ensures DATA_OFFSET + PaddedDataSize(size) == AllocatedSize(size)
  {
    assert (size as nat + 4) % 4 <= 3;
  }

  // ----- the hash

  function Swap(h: bv16): (r: bv16) {
    (h << 8) | (h >> 8)
  }

  /** One byte goes into the running XOR. */
  function Mix(acc: bv16, b: byte): (h: bv16) {
    acc ^ b as bv16
  }

  function Xor(a: byte, b: byte): (x: byte) {
    a ^ b
  }

  /** The hash loop from index i on, with its out-of-bounds guard. */
  function HashFrom(size: byte, data: seq<byte>, i: nat, acc: bv16): (h: bv16)
    decreases size as nat + 1 - i
  {
    if i >= size as nat + 1 then Swap(acc)
    else if i >= PaddedDataSize(size) || i >= |data| then 0xFFFF
    else HashFrom(size, data, i + 1, Mix(acc, data[i]))
  }

  /** calculate_hash: the value stored in, and later compared with, the hash field. */
  function CalculateHash(m: Message): (h: bv16) {
    HashFrom(m.size, m.data, 0, Mix(Mix(0, m.kind), m.size))
  }

  /** A message whose data has the padded length: its bytes 0..size are all inside. */
  ghost predicate WellSized(m: Message) {
    |m.data| == PaddedDataSize(m.size)
  }

  /** XOR of all the bytes. */
  function XorAll(s: seq<byte>): (x: byte) {
    if s == [] then 0 else s[0] ^ XorAll(s[1..])
  }

  lemma XorAllSteps(s: seq<byte>)
    ensures XorAll([]) == 0
    ensures s != [] ==> XorAll(s) == Xor(s[0], XorAll(s[1..]))
  {
  }

  lemma MixMix(acc: bv16, b: byte, c: byte)
    ensures Mix(Mix(acc, b), c) == Mix(acc, Xor(b, c)) && Mix(acc, 0) == acc
  {
  }

  lemma {:induction false} HashFromIs(size: byte, data: seq<byte>, i: nat, acc: bv16)
    requires |data| == PaddedDataSize(size) && i <= size as nat + 1
    ensures size as nat + 1 <= |data|
    ensures HashFrom(size, data, i, acc) == Swap(Mix(acc, XorAll(data[i..size as nat + 1])))
    decreases size as nat + 1 - i
  {
    PaddedSize(size);
    hide PaddedDataSize, Swap, Mix, Xor, XorAll;
    var n := size as nat + 1;
    if i < n {
      var s := data[i..n];
      XorAllSteps(s);
      assert s[1..] == data[i + 1..n];
      MixMix(acc, s[0], XorAll(s[1..]));
      HashFromIs(size, data, i + 1, Mix(acc, data[i]));
    } else {
      assert data[i..n] == [];
      XorAllSteps([]);
      MixMix(acc, 0, 0);
    }
  }

  /** The byte-swapped XOR of type, size and the XOR of the payload. */
  function Folded(kind: byte, size: byte, payload: byte): (h: bv16) {
    Swap(Mix(0, Xor(Xor(kind, size), payload)))
  }

  /** Neither out-of-bounds guard is ever taken: the hash of every message of proper size is
      the byte-swapped XOR of type, size and the size + 1 payload bytes. */
  lemma HashIsXor(m: Message)
    requires WellSized(m)
    ensures m.size as nat + 1 <= |m.data|
    ensures CalculateHash(m) == Folded(m.kind, m.size, XorAll(m.data[..m.size as nat + 1]))
  {
    hide Swap, Mix, Xor, XorAll, HashFrom;
    HashFromIs(m.size, m.data, 0, Mix(Mix(0, m.kind), m.size));
    assert m.data[0..m.size as nat + 1] == m.data[..m.size as nat + 1];
    MixMix(0, m.kind, m.size);
    MixMix(0, Xor(m.kind, m.size), XorAll(m.data[..m.size as nat + 1]));
  }

  lemma FoldedShifts(kind: byte, size: byte, payload: byte)
    ensures Folded(kind, size, payload) == ((kind ^ size ^ payload) as bv16) << 8
  {
  }

  lemma ShiftValue(x: byte)
    ensures ((x as bv16) << 8) as nat == 256 * (x as nat)
  {
  }

  lemma FoldedValue(kind: byte, size: byte, payload: byte)
    ensures Folded(kind, size, payload) as nat == 256 * ((kind ^ size ^ payload) as nat)
  {
    hide Folded;
    FoldedShifts(kind, size, payload);
    ShiftValue(kind ^ size ^ payload);
  }

  /** The value of the hash: the XOR of type, size and payload in the high byte, and a low byte
      of zero. */
  lemma HashValue(m: Message)
    requires WellSized(m)
    ensures m.size as nat + 1 <= |m.data|
    ensures CalculateHash(m) as nat == 256 * ((m.kind ^ m.size ^ XorAll(m.data[..m.size as nat + 1])) as nat)
  {
    HashIsXor(m);
    hide CalculateHash, XorAll, Folded, PaddedDataSize;
    FoldedValue(m.kind, m.size, XorAll(m.data[..m.size as nat + 1]));
  }

  /** calculate_hash, reading only inside the padded data. */
  method ComputeHash(m: Message) returns (h: bv16)
    requires |m.data| == PaddedDataSize(m.size)
    ensures h == CalculateHash(m) && m.size as nat + 1 <= |m.data|
    ensures h as nat == 256 * ((m.kind ^ m.size ^ XorAll(m.data[..m.size as nat + 1])) as nat)
  {
    HashValue(m);
    hide PaddedDataSize, Mix, Swap, XorAll;
    var dataLen, padded := m.size as nat + 1, PaddedDataSize(m.size);
    h := 0;
    h := Mix(h, m.kind);
    h := Mix(h, m.size);
    var i := 0;
    while i < dataLen
      invariant i <= dataLen
      invariant HashFrom(m.size, m.data, i, h) == CalculateHash(m)
    {
      if i >= padded {
        return 0xFFFF;
      }
      h := Mix(h, m.data[i]);
      i := i + 1;
    }
    h := Swap(h);
  }

  lemma FoldedInjective(kind: byte, size: byte, x: byte, kind': byte, x': byte)
    ensures Folded(kind, size, x) == Folded(kind', size, x) <==> kind == kind'
    ensures Folded(kind, size, x) == Folded(kind, size, x') <==> x == x'
  {
  }

  // ----- creation

  /** The stored hash recomputes equal. */
  ghost predicate WellMade(m: Message) {
    WellSized(m) && m.hash == CalculateHash(m)
  }

  /** create_message for a given size, type and stream of random bytes. */
  method CreateMessage(kind: byte, size: byte, random: nat -> byte) returns (m: Message)
    ensures WellMade(m) && m.kind == kind && m.size == size && m.hash == CalculateHash(m)
    ensures |m.data| % 4 == 0 && size as nat + 1 <= |m.data| <= size as nat + 4
    ensures forall i :: 0 <= i < |m.data| ==> m.data[i] == if i <= size as nat then random(i) else 0
  {
    PaddedSize(size);
    hide PaddedDataSize, HashFrom;
    var padded, n := PaddedDataSize(size), size as nat + 1;
    var data := new byte[padded](_ => 0);
    for i := 0 to n
      invariant forall k :: 0 <= k < padded ==> data[k] == if k < i then random(k) else 0
    {
      data[i] := random(i);
    }
    var bare := Message(kind, 0, size, data[..]);
    var h := ComputeHash(bare);
    m := bare.(hash := h);
  }

  lemma SomeMessage() returns (m: Message)
    ensures WellMade(m)
  {
    var bare := Message(0, 0, 0, seq(PaddedDataSize(0), _ => 0));
    m := bare.(hash := CalculateHash(bare));
    assert CalculateHash(m) == CalculateHash(bare);
  }

  // ----- what the hash detects

  lemma XorCancel(a: byte, b: byte, x: byte)
    ensures Xor(a, x) == Xor(b, x) <==> a == b
    ensures Xor(x, a) == Xor(x, b) <==> a == b
  {
  }

  lemma {:induction false} XorUpdate(s: seq<byte>, k: nat, v: byte)
    requires k < |s|
    ensures XorAll(s[k := v]) == XorAll(s) <==> v == s[k]
  {
    hide Xor, XorAll;
    XorAllSteps(s);
    XorAllSteps(s[k := v]);
    if k == 0 {
      assert s[k := v][1..] == s[1..];
      XorCancel(v, s[0], XorAll(s[1..]));
    } else {
      assert s[k := v][1..] == s[1..][k - 1 := v];
      XorUpdate(s[1..], k - 1, v);
      XorCancel(XorAll(s[1..][k - 1 := v]), XorAll(s[1..]), s[0]);
    }
  }

  /** Changing the type byte changes the hash. */
  lemma HashDetectsKind(m: Message, kind: byte)
    requires WellSized(m)
    ensures CalculateHash(m.(kind := kind)) == CalculateHash(m) <==> kind == m.kind
  {
    hide CalculateHash, Folded, XorAll, PaddedDataSize;
    HashIsXor(m);
    HashIsXor(m.(kind := kind));
    FoldedInjective(m.kind, m.size, XorAll(m.data[..m.size as nat + 1]), kind, 0);
  }

  /** Changing one data byte changes the hash exactly when the byte is payload, not padding. */
  lemma HashDetectsData(m: Message, k: nat, v: byte)
    requires WellSized(m) && k < |m.data| && v != m.data[k]
    ensures CalculateHash(m.(data := m.data[k := v])) != CalculateHash(m) <==> k <= m.size as nat
  {
    hide CalculateHash, Folded, XorAll, PaddedDataSize;
    var n, d := m.size as nat + 1, m.data[k := v];
    HashIsXor(m);
    HashIsXor(m.(data := d));
    var x, y := XorAll(m.data[..n]), XorAll(d[..n]);
    if k < n {
      assert d[..n] == m.data[..n][k := v];
      XorUpdate(m.data[..n], k, v);
    } else {
      assert d[..n] == m.data[..n];
    }
    FoldedInjective(m.kind, m.size, x, 0, y);
  }
}
