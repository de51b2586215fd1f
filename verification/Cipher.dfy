/** The ciphers of a connection as functions on their keys, and the laws that keep two peers in step. */
module Cipher {
  import opened Bytes

  datatype CipherMode = Server | Client

  datatype RawKey = RawKey(cells: seq<byte>, offset: byte)

  predicate IsKey(k: RawKey) {
    |k.cells| == 8 && k.offset < 8
  }

  /** The key of one direction: eight cells and the cell in use. */
  type Key = k: RawKey | IsKey(k) witness RawKey([0, 0, 0, 0, 0, 0, 0, 0], 0)

  function Cell(k: Key): byte {
    k.cells[k.offset]
  }

  /** The bits selected by the mask 7. */
  function Low(b: byte): (r: byte)
    ensures r < 8
  {
    b % 8
  }

  /** After a byte has passed, its plain value is in the cell that hid it, and its low three bits move the offset. */
  function Advance(k: Key, plain: byte): Key {
    XorBelow8(k.offset, Low(plain));
    RawKey(k.cells[k.offset := plain], Xor(k.offset, Low(plain)))
  }

  /** The key after a plain text has passed, in either direction. */
  function KeyAfter(k: Key, plain: seq<byte>): Key
    decreases |plain|
  {
    if plain == [] then k else KeyAfter(Advance(k, plain[0]), plain[1..])
  }

  function Mask(k: Key, b: byte): byte {
    Xor(b, Cell(k))
  }

  function Encrypted(k: Key, plain: seq<byte>): (r: seq<byte>)
    ensures |r| == |plain|
    decreases |plain|
  {
    if plain == [] then [] else [Mask(k, plain[0])] + Encrypted(Advance(k, plain[0]), plain[1..])
  }

  function Decrypted(k: Key, cipher: seq<byte>): (r: seq<byte>)
    ensures |r| == |cipher|
    decreases |cipher|
  {
    if cipher == [] then []
    else
      var plain := Mask(k, cipher[0]);
      [plain] + Decrypted(Advance(k, plain), cipher[1..])
  }

  // ---------------------------------------------------------------- lock-step

  lemma MaskTwice(k: Key, b: byte)
    ensures Mask(k, Mask(k, b)) == b
  {
    XorTwice(b, Cell(k));
  }

  /** Decrypting what was encrypted restores the text. */
  lemma {:induction false} DecryptInvertsEncrypt(k: Key, s: seq<byte>)
    ensures Decrypted(k, Encrypted(k, s)) == s
    decreases |s|
  {
    if s != [] {
      MaskTwice(k, s[0]);
      assert Encrypted(k, s)[1..] == Encrypted(Advance(k, s[0]), s[1..]);
      DecryptInvertsEncrypt(Advance(k, s[0]), s[1..]);
      assert [s[0]] + s[1..] == s;
    }
  }

  /** Encryption is onto: every received text is the encryption of what it decrypts to. */
  lemma {:induction false} EncryptInvertsDecrypt(k: Key, s: seq<byte>)
    ensures Encrypted(k, Decrypted(k, s)) == s
    decreases |s|
  {
    if s != [] {
      var plain := Mask(k, s[0]);
      MaskTwice(k, s[0]);
      assert Decrypted(k, s)[1..] == Decrypted(Advance(k, plain), s[1..]);
      EncryptInvertsDecrypt(Advance(k, plain), s[1..]);
      assert [s[0]] + s[1..] == s;
    }
  }

  /** Splitting a buffer over several calls changes nothing. */
  lemma {:induction false} EncryptSplits(k: Key, a: seq<byte>, b: seq<byte>)
    ensures Encrypted(k, a + b) == Encrypted(k, a) + Encrypted(KeyAfter(k, a), b)
    ensures KeyAfter(k, a + b) == KeyAfter(KeyAfter(k, a), b)
    decreases |a|
  {
    if a == [] {
      assert a + b == b;
    } else {
      EncryptSplits(Advance(k, a[0]), a[1..], b);
      assert (a + b)[1..] == a[1..] + b;
    }
  }

  /** The same for decryption, which follows from encryption being one-to-one. */
  lemma DecryptSplits(k: Key, a: seq<byte>, b: seq<byte>)
    ensures Decrypted(k, a + b) == Decrypted(k, a) + Decrypted(KeyAfter(k, Decrypted(k, a)), b)
  {
    var x := Decrypted(k, a);
    var y := Decrypted(KeyAfter(k, x), b);
    EncryptSplits(k, x, y);
    EncryptInvertsDecrypt(k, a);
    EncryptInvertsDecrypt(KeyAfter(k, x), b);
    DecryptInvertsEncrypt(k, x + y);
  }

  // ---------------------------------------------------------------- what the key holds

  /** The offset reached after `s`: the start offset and the low bits of every byte, xor-ed together. */
  function OffsetAfter(offset: byte, s: seq<byte>): byte {
    if s == [] then offset else Xor(OffsetAfter(offset, s[..|s| - 1]), Low(s[|s| - 1]))
  }

  /** The plain text byte last written to cell `i`, or its initial content if the offset never rested there. */
  function LastWritten(k: Key, s: seq<byte>, i: byte): byte
    requires i < 8
  {
    if s == [] then k.cells[i]
    else if OffsetAfter(k.offset, s[..|s| - 1]) == i then s[|s| - 1]
    else LastWritten(k, s[..|s| - 1], i)
  }

  /** The key after a text, without following it byte by byte. */
  lemma {:induction false} KeyHoldsLastWritten(k: Key, s: seq<byte>)
    ensures KeyAfter(k, s).offset == OffsetAfter(k.offset, s)
    ensures forall i: byte :: i < 8 ==> KeyAfter(k, s).cells[i] == LastWritten(k, s, i)
  {
    if s != [] {
      var init, last := s[..|s| - 1], s[|s| - 1];
      KeyHoldsLastWritten(k, init);
      EncryptSplits(k, init, [last]);
      assert s == init + [last];
      var k' := KeyAfter(k, init);
      AdvanceWritesOneCell(k', last);
    }
  }

  lemma AdvanceWritesOneCell(k: Key, v: byte)
    ensures KeyAfter(k, [v]) == Advance(k, v)
    ensures Encrypted(k, [v]) == [Mask(k, v)]
    ensures forall i: byte :: i < 8 ==> Advance(k, v).cells[i] == if k.offset == i then v else k.cells[i]
  {
    assert [v][1..] == [];
  }

  /** Byte `n` of the cipher text is byte `n` of the plain text hidden by the plain text byte last written to its cell. */
  lemma KeyStream(k: Key, s: seq<byte>, n: nat)
    requires n < |s|
    ensures OffsetAfter(k.offset, s[..n]) < 8
    ensures Encrypted(k, s)[n] == Xor(s[n], LastWritten(k, s[..n], OffsetAfter(k.offset, s[..n])))
  {
    var before, after := s[..n], s[n..];
    KeyHoldsLastWritten(k, before);
    EncryptSplits(k, before, after);
    assert s == before + after;
  }

  // ---------------------------------------------------------------- keys and ciphers

  function Fold(key: seq<byte>): byte {
    if key == [] then 0 else Xor(Fold(key[..|key| - 1]), key[|key| - 1])
  }

  /** Cell `i` of a start key: the seed, the cell number shifted left by three, and the mark of the direction. */
  function StartCell(key: seq<byte>, mark: byte, i: nat): byte
    requires i < 8
  {
    Xor(Xor(Fold(key), (8 * i) as byte), mark)
  }

  /** The direction from server to client carries the mark 0, the other one 87. */
  function StartKey(key: seq<byte>, mark: byte): Key {
    RawKey(seq(8, i requires 0 <= i < 8 => StartCell(key, mark, i)), 0)
  }

  /** The seed does not depend on the order of the key bytes in its two halves: it is their exclusive or. */
  lemma {:induction false} FoldAppends(a: seq<byte>, b: seq<byte>)
    ensures Fold(a + b) == Xor(Fold(a), Fold(b))
  {
    if b == [] {
      assert a + b == a;
      XorZero(Fold(a));
    } else {
      var init, last := b[..|b| - 1], b[|b| - 1];
      FoldAppends(a, init);
      assert (a + b)[..|a + b| - 1] == a + init;
      XorAssociates(Fold(a), Fold(init), last);
    }
  }

  /** How many of the bytes have digit `i` set. */
  function CountSet(key: seq<byte>, i: nat): nat {
    if key == [] then 0 else CountSet(key[..|key| - 1], i) + (if Bit(key[|key| - 1] as nat, i) then 1 else 0)
  }

  lemma {:induction false} FoldDigits(key: seq<byte>, i: nat)
    ensures Bit(Fold(key) as nat, i) <==> CountSet(key, i) % 2 == 1
  {
    if key == [] {
      ZeroHasNoDigits(i);
    } else {
      FoldDigits(key[..|key| - 1], i);
      XorBitsIsDigitwise(Fold(key[..|key| - 1]) as nat, key[|key| - 1] as nat, i);
    }
  }

  /** Every digit of every start cell: whether an odd number of key bytes has it, flipped by the cell and the mark. */
  lemma StartDigits(key: seq<byte>, mark: byte, cell: nat, i: nat)
    requires cell < 8
    ensures Bit(StartKey(key, mark).cells[cell] as nat, i) <==>
              ((CountSet(key, i) % 2 == 1) != Bit(8 * cell, i)) != Bit(mark as nat, i)
  {
    FoldDigits(key, i);
    XorBitsIsDigitwise(Fold(key) as nat, 8 * cell, i);
    XorBitsIsDigitwise(Xor(Fold(key), (8 * cell) as byte) as nat, mark as nat, i);
  }

  lemma XorIsInjective(a: byte, b: byte, c: byte)
    requires Xor(a, b) == Xor(a, c)
    ensures b == c
  {
    XorCommutes(a, b);
    XorCommutes(a, c);
    XorTwice(b, a);
    XorTwice(c, a);
  }

  /** What tells cells and directions apart: the cell number in the middle bits, and 87 between the directions. */
  lemma StartCells(key: seq<byte>, i: nat)
    requires i < 8
    ensures StartKey(key, 87).cells[i] == Xor(StartKey(key, 0).cells[i], 87)
    ensures StartKey(key, 0).cells[i] == Xor(StartKey(key, 0).cells[0], (8 * i) as byte)
    ensures StartKey(key, 0).cells[0] == Fold(key) && StartKey(key, 0).offset == 0
  {
    XorZero(Fold(key));
    XorZero(Xor(Fold(key), (8 * i) as byte));
  }

  /** Whatever the key, the cells of one direction are all different, and so are the two directions in every cell. */
  lemma StartKeysDiffer(key: seq<byte>, mark: byte, i: nat, j: nat)
    requires i < 8 && j < 8
    ensures StartKey(key, mark).cells[i] == StartKey(key, mark).cells[j] <==> i == j
    ensures StartKey(key, 0).cells[i] != StartKey(key, 87).cells[i]
  {
    var seed := Fold(key);
    if StartCell(key, mark, i) == StartCell(key, mark, j) {
      XorTwice(Xor(seed, (8 * i) as byte), mark);
      XorTwice(Xor(seed, (8 * j) as byte), mark);
      XorIsInjective(seed, (8 * i) as byte, (8 * j) as byte);
    }
    StartCells(key, i);
    var cell := StartKey(key, 0).cells[i];
    XorZero(cell);
    if cell == StartKey(key, 87).cells[i] {
      XorIsInjective(cell, 0, 87);
    }
  }

  /** The mask 7 keeps the three low bits and no others. */
  lemma LowIsMask(b: byte, i: nat)
    ensures Bit(Low(b) as nat, i) <==> i < 3 && Bit(b as nat, i)
  {
    var n, m := b as nat, Low(b) as nat;
    if i >= 3 {
      HighDigitsOfSmall(m, i);
    } else {
      SameLowDigits(n, m, n / 8);
      LowDigits(m);
      LowDigits(n);
    }
  }

  lemma SameLowDigits(n: nat, m: nat, q: nat)
    requires n == 8 * q + m
    ensures n % 2 == m % 2 && (n / 2) % 2 == (m / 2) % 2 && (n / 2 / 2) % 2 == (m / 2 / 2) % 2
  {
    assert n / 2 == 4 * q + m / 2;
    assert n / 2 / 2 == 2 * q + m / 2 / 2;
  }

  lemma LowDigits(n: nat)
    ensures Bit(n, 0) == (n % 2 == 1) && Bit(n, 1) == ((n / 2) % 2 == 1) && Bit(n, 2) == ((n / 2 / 2) % 2 == 1)
  {
    assert Bit(n, 2) == Bit(n / 2, 1) == Bit(n / 2 / 2, 0);
  }

  lemma {:induction false} HighDigitsOfSmall(n: nat, i: nat)
    requires n < 8 && i >= 3
    ensures !Bit(n, i)
  {
    assert n / 2 / 2 / 2 == 0;
    ZeroHasNoDigits(i - 3);
    assert Bit(n, i) == Bit(n / 2, i - 1) == Bit(n / 2 / 2, i - 2) == Bit(n / 2 / 2 / 2, i - 3);
  }

  /** One direction of a connection: sent as it is, or through the XOR cipher. */
  datatype Lane = PlainLane | XorLane(key: Key)

  function EncryptLane(lane: Lane, s: seq<byte>): (r: (seq<byte>, Lane))
    ensures |r.0| == |s|
  {
    match lane
    case PlainLane => (s, lane)
    case XorLane(key) => (Encrypted(key, s), XorLane(KeyAfter(key, s)))
  }

  function DecryptLane(lane: Lane, s: seq<byte>): (r: (seq<byte>, Lane))
    ensures |r.0| == |s|
  {
    match lane
    case PlainLane => (s, lane)
    case XorLane(key) =>
      var plain := Decrypted(key, s);
      (plain, XorLane(KeyAfter(key, plain)))
  }

  datatype CipherState = CipherState(encrypt: Lane, decrypt: Lane)

  const PLAIN := CipherState(PlainLane, PlainLane)

  function NewXor(mode: CipherMode, key: seq<byte>): CipherState {
    match mode
    case Server => CipherState(XorLane(StartKey(key, 0)), XorLane(StartKey(key, 87)))
    case Client => CipherState(XorLane(StartKey(key, 87)), XorLane(StartKey(key, 0)))
  }

  /** Ciphers of opposite modes made from one key mirror each other, and the two directions start with different keys. */
  lemma OppositeModesMirror(key: seq<byte>)
    ensures NewXor(Server, key).encrypt == NewXor(Client, key).decrypt
    ensures NewXor(Client, key).encrypt == NewXor(Server, key).decrypt
    ensures NewXor(Server, key).encrypt != NewXor(Server, key).decrypt
  {
    var seed := Xor(Fold(key), 0);
    var s2c, c2s := StartKey(key, 0), StartKey(key, 87);
    assert s2c.cells[0] == Xor(seed, 0) && c2s.cells[0] == Xor(seed, 87);
    if s2c == c2s {
      XorIsInjective(seed, 0, 87);
    }
  }

  /**
    The keys of a new cipher, digit by digit: what goes from server to client is hidden by the parity of the key bytes
    and the cell number, what goes the other way by 87 as well; both start at their first cell.
   */
  lemma NewXorDigits(key: seq<byte>, cell: nat, i: nat)
    requires cell < 8
    ensures var parity := CountSet(key, i) % 2 == 1;
            var (server, client) := (NewXor(Server, key), NewXor(Client, key));
            && (Bit(server.encrypt.key.cells[cell] as nat, i) <==> parity != Bit(8 * cell, i))
            && (Bit(client.decrypt.key.cells[cell] as nat, i) <==> parity != Bit(8 * cell, i))
            && (Bit(server.decrypt.key.cells[cell] as nat, i) <==> (parity != Bit(8 * cell, i)) != Bit(87, i))
            && (Bit(client.encrypt.key.cells[cell] as nat, i) <==> (parity != Bit(8 * cell, i)) != Bit(87, i))
    ensures forall mode :: NewXor(mode, key).encrypt.key.offset == 0 == NewXor(mode, key).decrypt.key.offset
  {
    ZeroHasNoDigits(i);
    StartDigits(key, 0, cell, i);
    StartDigits(key, 87, cell, i);
  }

  /** What one side encrypts, the other decrypts, and both ends of the lane stay equal. */
  lemma LaneStep(lane: Lane, s: seq<byte>)
    ensures DecryptLane(lane, EncryptLane(lane, s).0) == (s, EncryptLane(lane, s).1)
  {
    if lane.XorLane? {
      DecryptInvertsEncrypt(lane.key, s);
    }
  }

  /** The messages of a conversation, each encrypted where the previous one left the lane. */
  function EncryptMessages(lane: Lane, messages: seq<seq<byte>>): (seq<seq<byte>>, Lane)
    decreases |messages|
  {
    if messages == [] then ([], lane)
    else
      var (head, lane') := EncryptLane(lane, messages[0]);
      var (tail, lane'') := EncryptMessages(lane', messages[1..]);
      ([head] + tail, lane'')
  }

  function DecryptMessages(lane: Lane, messages: seq<seq<byte>>): (seq<seq<byte>>, Lane)
    decreases |messages|
  {
    if messages == [] then ([], lane)
    else
      var (head, lane') := DecryptLane(lane, messages[0]);
      var (tail, lane'') := DecryptMessages(lane', messages[1..]);
      ([head] + tail, lane'')
  }

  /** Lock-step over a whole conversation. */
  lemma {:induction false} LaneRun(lane: Lane, messages: seq<seq<byte>>)
    ensures DecryptMessages(lane, EncryptMessages(lane, messages).0) == (messages, EncryptMessages(lane, messages).1)
    decreases |messages|
  {
    if messages != [] {
      var (head, lane') := EncryptLane(lane, messages[0]);
      var sent := EncryptMessages(lane, messages).0;
      LaneStep(lane, messages[0]);
      assert sent[0] == head && sent[1..] == EncryptMessages(lane', messages[1..]).0;
      LaneRun(lane', messages[1..]);
      assert [messages[0]] + messages[1..] == messages;
    }
  }
}
