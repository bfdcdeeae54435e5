/** The polynomial checksum over the raw bytes of a shared-buffer message: how it is computed,
    how a producer seals a message with it and how a consumer checks it
    (shared_buffer_types.c, producer_functions.c, consumer_functions.c). */
module Checksum {

  type byte = b: nat | b < 256

  const WORD32: nat := 0x1_0000_0000
  const WORD16: nat := 0x1_0000

  // Layout of MsgPayload: type, one byte of alignment, hash, length, payload, alignment.
  const HASH_OFFSET: nat := 2
  const LENGTH_OFFSET: nat := 4
  const PAYLOAD_OFFSET: nat := 5
  const MESSAGE_SIZE: nat := 262

  /** The bytes of one MsgPayload. */
  type Image = m: seq<byte> | |m| == MESSAGE_SIZE witness seq(MESSAGE_SIZE, _ => 0)

  function Length(m: Image): (n: byte) {
    m[LENGTH_OFFSET]
  }

  function StoredHash(m: Image): (h: nat)
    ensures h < WORD16
  {
    m[HASH_OFFSET] as nat + 256 * (m[HASH_OFFSET + 1] as nat)
  }

  /** The checksum walks the sizes of type, length and payload, counted from the first byte. */
  function Walked(m: Image): (n: nat)
    ensures 2 <= n <= 257
  {
    1 + 1 + Length(m) as nat
  }

  /** The walked bytes before index i, without the hash field. */
  function HashedUpTo(m: Image, i: nat): (s: seq<byte>)
    requires i <= MESSAGE_SIZE
  {
    if i <= HASH_OFFSET then m[..i]
    else if i <= LENGTH_OFFSET then m[..HASH_OFFSET]
    else m[..HASH_OFFSET] + m[LENGTH_OFFSET..i]
  }

  function Hashed(m: Image): (s: seq<byte>) {
    HashedUpTo(m, Walked(m))
  }

  /** The bytes as coefficients of a polynomial at 33 below a leading 5381: no overflow. */
  function Polynomial(s: seq<byte>): (v: nat) {
    if s == [] then 5381 else 33 * Polynomial(s[..|s| - 1]) + s[|s| - 1]
  }

  function ChecksumOf(m: Image): (c: nat)
    ensures c < WORD16
  {
    Polynomial(Hashed(m)) % WORD16
  }

  /** What process_and_verify_message looks for. */
  predicate Genuine(m: Image) {
    StoredHash(m) == ChecksumOf(m)
  }

  // ----- the loop

  /** One turn of the loop on 32-bit words: five places to the left, once more, and the byte. */
  function Step(h: nat, b: byte): (r: nat)
    ensures r < WORD32
  {
    (((h * 32) % WORD32 + h) % WORD32 + b) % WORD32
  }

  lemma StepIsExact(h: nat, b: byte)
    ensures Step(h, b) == (33 * h + b) % WORD32
  {
    var x := (h * 32) % WORD32;
    assert (x + h) % WORD32 == (33 * h) % WORD32 by {
      assert h * 32 == (h * 32) / WORD32 * WORD32 + x;
      SameRemainder(x + h, 33 * h, 0 - (h * 32) / WORD32);
    }
    var y := (x + h) % WORD32;
    assert 33 * h == (33 * h) / WORD32 * WORD32 + y;
    SameRemainder(y + b, 33 * h + b, 0 - (33 * h) / WORD32);
  }

  lemma SameRemainder(a: int, b: int, q: int)
    requires a == b + q * WORD32
    ensures a % WORD32 == b % WORD32
  {
  }

  lemma SameLowWord(a: int, b: int, q: int)
    requires a == b + q * WORD16
    ensures a % WORD16 == b % WORD16
  {
  }

  /** Cutting to 16 bits may wait until the end: one step agrees with the exact polynomial
      modulo 2^16 whenever its input does. */
  lemma StepKeepsLowWord(h: nat, p: nat, b: byte)
    requires h % WORD16 == p % WORD16
    ensures Step(h, b) % WORD16 == (33 * p + b) % WORD16
  {
    hide Step;
    StepIsExact(h, b);
    var x, y := 33 * h + b, 33 * p + b;
    SameLowWord(x % WORD32, x, 0 - 0x1_0000 * (x / WORD32));
    SameLowWord(x, y, 33 * (h / WORD16 - p / WORD16));
  }

  lemma HashedGrows(m: Image, i: nat)
    requires i < MESSAGE_SIZE
    ensures HashedUpTo(m, i + 1) == if HASH_OFFSET <= i < HASH_OFFSET + 2 then HashedUpTo(m, i) else HashedUpTo(m, i) + [m[i]]
  {
  }

  lemma PolynomialAppend(s: seq<byte>, b: byte)
    ensures Polynomial(s + [b]) == 33 * Polynomial(s) + b
  {
    assert (s + [b])[..|s|] == s;
  }

  // ----- the value

  function Power(x: nat, n: nat): (p: nat) {
    if n == 0 then 1 else x * Power(x, n - 1)
  }

  /** The sum of b[i] * 33^(n-1-i) over the n bytes of b. */
  function Weighted(b: seq<byte>): (v: nat) {
    if b == [] then 0 else b[0] * Power(33, |b| - 1) + Weighted(b[1..])
  }

  lemma {:induction false} WeightedAppend(b: seq<byte>, x: byte)
    ensures Weighted(b + [x]) == 33 * Weighted(b) + x
  {
    if b == [] {
      assert b + [x] == [x] && [x][1..] == [];
      assert Power(33, 0) == 1;
    } else {
      WeightedAppend(b[1..], x);
      assert (b + [x])[1..] == b[1..] + [x];
      assert Power(33, |b|) == 33 * Power(33, |b| - 1);
      Regroup(b[0], Power(33, |b| - 1));
    }
  }

  lemma Regroup(x: nat, p: nat)
    ensures x * (33 * p) == 33 * (x * p)
  {
  }

  lemma {:induction false} PolynomialIsSum(b: seq<byte>)
    ensures Polynomial(b) == 5381 * Power(33, |b|) + Weighted(b)
  {
    if b == [] {
    } else {
      var n := |b| - 1;
      PolynomialIsSum(b[..n]);
      WeightedAppend(b[..n], b[n]);
      assert b[..n] + [b[n]] == b;
    }
  }

  lemma HashedEnds(m: Image)
    ensures Polynomial(HashedUpTo(m, 0)) == 5381 && HashedUpTo(m, Walked(m)) == Hashed(m)
  {
    assert HashedUpTo(m, 0) == [];
  }

  lemma HashedBytes(m: Image)
    ensures Hashed(m) == m[..2] + m[4..if m[4] <= 2 then 4 else m[4] as nat + 2]
  {
  }

  /** The wrapping 32-bit loop cut to 16 bits computes
      5381 * 33^n + b[0] * 33^(n-1) + ... + b[n-1] modulo 2^16, where b are the first two bytes
      followed by the bytes from the length on, up to three before the end of the payload. */
  method ComputeChecksum(msg: array<byte>) returns (c: nat)
    requires msg.Length == MESSAGE_SIZE
    ensures c == ChecksumOf(msg[..])
    ensures var end := if msg[LENGTH_OFFSET] <= 2 then 4 else msg[LENGTH_OFFSET] as nat + 2;
            var b := msg[..2] + msg[4..end];
            c == (5381 * Power(33, |b|) + Weighted(b)) % 0x1_0000
  {
    hide Polynomial, Hashed, HashedUpTo, Step, Power, Weighted;
    ghost var m: Image := msg[..];
    HashedEnds(m);
    var hashVal: nat := 5381;
    var size: nat := 1 + 1 + msg[LENGTH_OFFSET] as nat;
    var i: nat := 0;
    while i < size
      invariant i <= size == Walked(m) && hashVal < WORD32
      invariant hashVal % WORD16 == Polynomial(HashedUpTo(m, i)) % WORD16
    {
      HashedGrows(m, i);
      if !(HASH_OFFSET <= i < HASH_OFFSET + 2) {
        PolynomialAppend(HashedUpTo(m, i), m[i]);
        StepKeepsLowWord(hashVal, Polynomial(HashedUpTo(m, i)), msg[i]);
        hashVal := Step(hashVal, msg[i]);
      }
      i := i + 1;
    }
    c := hashVal % WORD16;
    HashedBytes(m);
    PolynomialIsSum(Hashed(m));
  }

  /** So a message is genuine if and only if bytes 2 and 3, low byte first, hold that sum modulo
      2^16. */
  lemma GenuineIff(m: Image)
    ensures var b := m[..2] + m[4..if m[4] <= 2 then 4 else m[4] as nat + 2];
            Genuine(m) <==> m[2] as nat + 256 * (m[3] as nat) == (5381 * Power(33, |b|) + Weighted(b)) % 0x1_0000
  {
    HashedBytes(m);
    PolynomialIsSum(Hashed(m));
    hide Hashed, Polynomial, Power, Weighted;
  }

  // ----- sealing and checking

  function WithHash(m: Image, h: nat): (m': Image)
    requires h < WORD16
    ensures StoredHash(m') == h
    ensures forall i :: 0 <= i < MESSAGE_SIZE && !(HASH_OFFSET <= i < HASH_OFFSET + 2) ==> m'[i] == m[i]
  {
    m[HASH_OFFSET := h % 256][HASH_OFFSET + 1 := h / 256]
  }

  /** The checksum does not depend on what the hash field holds. */
  lemma HashFieldIgnored(m: Image, m': Image)
    requires forall i :: 0 <= i < MESSAGE_SIZE && !(HASH_OFFSET <= i < HASH_OFFSET + 2) ==> m'[i] == m[i]
    ensures ChecksumOf(m') == ChecksumOf(m)
  {
    assert Hashed(m') == Hashed(m);
  }

  method StoreHash(msg: array<byte>, h: nat)
    requires msg.Length == MESSAGE_SIZE && h < WORD16
    modifies msg
    ensures msg[..] == WithHash(old(msg[..]), h)
  {
    msg[HASH_OFFSET] := h % 256;
    msg[HASH_OFFSET + 1] := h / 256;
  }

  method FillPayload(msg: array<byte>, n: nat, draw: nat -> byte)
    requires msg.Length == MESSAGE_SIZE && n < 256
    modifies msg
    ensures forall i :: 0 <= i < n ==> msg[PAYLOAD_OFFSET + i] == draw(i)
    ensures forall k :: 0 <= k < MESSAGE_SIZE && !(PAYLOAD_OFFSET <= k < PAYLOAD_OFFSET + n) ==> msg[k] == old(msg[k])
  {
    var i: nat := 0;
    while i < n
      invariant i <= n
      invariant forall k :: 0 <= k < i ==> msg[PAYLOAD_OFFSET + k] == draw(k)
      invariant forall k :: 0 <= k < MESSAGE_SIZE && !(PAYLOAD_OFFSET <= k < PAYLOAD_OFFSET + i) ==> msg[k] == old(msg[k])
    {
      msg[PAYLOAD_OFFSET + i] := draw(i);
      i := i + 1;
    }
  }

  /** generate_and_fill_message, given the drawn size and the drawn payload bytes: whatever is
      drawn, the message comes out genuine, with the drawn payload in place. */
  method GenerateAndFill(msg: array<byte>, size: nat, draw: nat -> byte)
    requires msg.Length == MESSAGE_SIZE && size <= 256
    modifies msg
    ensures Genuine(msg[..])
    ensures size == 256 ==> msg[0] == 255 && msg[LENGTH_OFFSET] == 0
    ensures size < 256 ==> msg[0] == 0 && msg[LENGTH_OFFSET] == size
    ensures forall i :: 0 <= i < msg[LENGTH_OFFSET] ==> msg[PAYLOAD_OFFSET + i] == draw(i)
    ensures msg[1] == old(msg[1])
    ensures forall k :: PAYLOAD_OFFSET + msg[LENGTH_OFFSET] <= k < MESSAGE_SIZE ==> msg[k] == old(msg[k])
  {
    hide Hashed, Power, Weighted;
    if size == 256 {
      msg[0] := 255;
      msg[LENGTH_OFFSET] := 0;
    } else {
      msg[0] := 0;
      msg[LENGTH_OFFSET] := size;
    }
    FillPayload(msg, msg[LENGTH_OFFSET], draw);
    StoreHash(msg, 0);
    ghost var zeroed: Image := msg[..];
    var c := ComputeChecksum(msg);
    StoreHash(msg, c);
    HashFieldIgnored(zeroed, msg[..]);
  }

  /** process_and_verify_message: reports exactly the messages that are not genuine, and puts
      the hash field back. */
  method ProcessAndVerify(msg: array<byte>) returns (ok: bool)
    requires msg.Length == MESSAGE_SIZE
    modifies msg
    ensures ok <==> Genuine(old(msg[..]))
    ensures msg[..] == old(msg[..])
  {
    hide Hashed, Power, Weighted;
    ghost var before: Image := msg[..];
    var original: nat := msg[HASH_OFFSET] as nat + 256 * (msg[HASH_OFFSET + 1] as nat);
    StoreHash(msg, 0);
    HashFieldIgnored(before, msg[..]);
    var calculated := ComputeChecksum(msg);
    ok := original == calculated;
    StoreHash(msg, original);
    assert msg[..] == before;
  }

  // ----- what the checksum detects

  /** 33 is invertible modulo 2^16: 33 * 33761 == 1 + 17 * 2^16. */
  lemma Invertible(x: int)
    requires 33 * x % WORD16 == 0
    ensures x % WORD16 == 0
  {
    var q := 33 * x / WORD16;
    assert 33 * x == WORD16 * q;
    assert x == WORD16 * (33761 * q - 17 * x);
  }

  /** Changing one coefficient always changes the polynomial modulo 2^16. */
  lemma {:induction false} OneByteMatters(s: seq<byte>, i: nat, b: byte)
    requires i < |s| && b != s[i]
    ensures (Polynomial(s) - Polynomial(s[i := b])) % WORD16 != 0
  {
    var s' := s[i := b];
    var n := |s| - 1;
    if i == n {
      assert s'[..n] == s[..n];
    } else {
      OneByteMatters(s[..n], i, b);
      assert s'[..n] == s[..n][i := b];
      var d := Polynomial(s[..n]) - Polynomial(s'[..n]);
      assert Polynomial(s) - Polynomial(s') == 33 * d;
      if 33 * d % WORD16 == 0 {
        Invertible(d);
      }
    }
  }

  predicate Covered(m: Image, p: nat) {
    p < Walked(m) && !(HASH_OFFSET <= p < HASH_OFFSET + 2)
  }

  /** The hash input as two slices, the header bytes and the bytes from the length on. */
  lemma HashedSlices(m: Image)
    ensures Hashed(m) == m[..HASH_OFFSET] + (if Walked(m) > LENGTH_OFFSET then m[LENGTH_OFFSET..Walked(m)] else [])
  {
  }

  lemma CoveredIndex(m: Image, p: nat, b: byte) returns (i: nat)
    requires Covered(m, p) && p != LENGTH_OFFSET
    ensures i < |Hashed(m)| && Hashed(m)[i] == m[p] && Hashed(m[p := b]) == Hashed(m)[i := b]
  {
    hide Hashed;
    var m' := m[p := b];
    var n := Walked(m);
    HashedSlices(m);
    HashedSlices(m');
    if p < HASH_OFFSET {
      i := p;
      assert m'[..HASH_OFFSET] == m[..HASH_OFFSET][p := b];
      if n > LENGTH_OFFSET {
        assert m'[LENGTH_OFFSET..n] == m[LENGTH_OFFSET..n];
      }
    } else {
      i := p - 2;
      assert m'[..HASH_OFFSET] == m[..HASH_OFFSET];
      assert m'[LENGTH_OFFSET..n] == m[LENGTH_OFFSET..n][p - LENGTH_OFFSET := b];
    }
  }

  lemma UncoveredIgnored(m: Image, p: nat, b: byte)
    requires p < MESSAGE_SIZE && p != LENGTH_OFFSET && !Covered(m, p)
    ensures Hashed(m[p := b]) == Hashed(m)
  {
    hide Hashed;
    var n := Walked(m);
    HashedSlices(m);
    HashedSlices(m[p := b]);
    assert m[p := b][..HASH_OFFSET] == m[..HASH_OFFSET];
    if n > LENGTH_OFFSET {
      assert m[p := b][LENGTH_OFFSET..n] == m[LENGTH_OFFSET..n];
    }
  }

  /** Overwriting one byte other than the length changes the checksum exactly when the byte is
      covered. */
  lemma ChecksumChangesIff(m: Image, p: nat, b: byte)
    requires p < MESSAGE_SIZE && p != LENGTH_OFFSET && b != m[p]
    ensures ChecksumOf(m[p := b]) != ChecksumOf(m) <==> Covered(m, p)
  {
    hide Hashed, Polynomial;
    if Covered(m, p) {
      var i := CoveredIndex(m, p, b);
      OneByteMatters(Hashed(m), i, b);
    } else {
      UncoveredIgnored(m, p, b);
    }
  }

  /** A consumer notices a corrupted byte of a genuine message, the length byte apart, exactly
      when it lies in the header or more than three bytes before the end of the payload. */
  lemma CorruptionDetectedIff(m: Image, p: nat, b: byte)
    requires Genuine(m) && p < MESSAGE_SIZE && p != LENGTH_OFFSET && b != m[p]
    ensures !Genuine(m[p := b]) <==> p < PAYLOAD_OFFSET || p + 3 < PAYLOAD_OFFSET + Length(m)
  {
    ChecksumChangesIff(m, p, b);
    if HASH_OFFSET <= p < HASH_OFFSET + 2 {
      assert StoredHash(m[p := b]) != StoredHash(m);
    } else {
      assert StoredHash(m[p := b]) == StoredHash(m);
    }
  }

  /** So the last bytes of every non-empty payload can be altered unnoticed. */
  lemma LastBytesUnprotected(m: Image, j: nat, b: byte)
    requires Genuine(m) && j < Length(m) <= j + 3
    ensures Genuine(m[PAYLOAD_OFFSET + j := b])
  {
    if b != m[PAYLOAD_OFFSET + j] {
      CorruptionDetectedIff(m, PAYLOAD_OFFSET + j, b);
    } else {
      assert m[PAYLOAD_OFFSET + j := b] == m;
    }
  }

  /** Up to length 2 the length byte itself is not hashed, so these lengths can be exchanged
      unnoticed. */
  lemma ShortLengthsUnprotected(m: Image, b: byte)
    requires Genuine(m) && Length(m) <= 2 && b <= 2
    ensures Genuine(m[LENGTH_OFFSET := b])
  {
    hide Polynomial, Hashed;
    var m' := m[LENGTH_OFFSET := b];
    HashedSlices(m);
    HashedSlices(m');
    assert m'[..HASH_OFFSET] == m[..HASH_OFFSET];
  }
}
