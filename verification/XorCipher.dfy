/** The XOR stream cipher as it runs: over slices of a buffer, rewriting the buffer, the keys and the offsets. */
module XorCiphers {
  import opened Bytes
  import opened Cipher

  class XorCipher {
    const mode: CipherMode
    const decryptKey: array<byte>
    var decryptKeyOffset: byte
    const encryptKey: array<byte>
    var encryptKeyOffset: byte

    ghost predicate Valid()
      reads this
    {
      && decryptKey != encryptKey
      && decryptKey.Length == 8 && encryptKey.Length == 8
      && decryptKeyOffset < 8 && encryptKeyOffset < 8
    }

    ghost function EncryptState(): Key
      requires Valid()
      reads this, encryptKey
    {
      RawKey(encryptKey[..], encryptKeyOffset)
    }

    ghost function DecryptState(): Key
      requires Valid()
      reads this, decryptKey
    {
      RawKey(decryptKey[..], decryptKeyOffset)
    }

    ghost function State(): CipherState
      requires Valid()
      reads this, encryptKey, decryptKey
    {
      CipherState(XorLane(EncryptState()), XorLane(DecryptState()))
    }

    constructor (mode: CipherMode, key: seq<byte>)
      ensures Valid() && fresh(encryptKey) && fresh(decryptKey)
      ensures this.mode == mode && State() == NewXor(mode, key)
    {
      this.mode := mode;
      decryptKeyOffset := 0;
      encryptKeyOffset := 0;
      decryptKey := new byte[8];
      encryptKey := new byte[8];
      new;
      var seed := FoldKey(key);
      for index := 0 to 8
        invariant decryptKeyOffset == 0 && encryptKeyOffset == 0
        invariant forall i :: 0 <= i < index ==> encryptKey[i] == StartCell(key, if mode.Server? then 0 else 87, i)
        invariant forall i :: 0 <= i < index ==> decryptKey[i] == StartCell(key, if mode.Server? then 87 else 0, i)
      {
        var shifted := (8 * index) as byte;
        XorZero(Xor(seed, shifted));
        match mode {
          case Server =>
            encryptKey[index] := Xor(seed, shifted);
            decryptKey[index] := Xor(Xor(seed, shifted), 87);
          case Client =>
            decryptKey[index] := Xor(seed, shifted);
            encryptKey[index] := Xor(Xor(seed, shifted), 87);
        }
      }
      assert encryptKey[..] == NewXor(mode, key).encrypt.key.cells;
      assert decryptKey[..] == NewXor(mode, key).decrypt.key.cells;
    }

    method EncryptByte(value: byte) returns (cipher: byte)
      requires Valid()
      modifies this`encryptKeyOffset, encryptKey
      ensures Valid()
      ensures cipher == Mask(old(EncryptState()), value)
      ensures EncryptState() == Advance(old(EncryptState()), value)
      ensures DecryptState() == old(DecryptState())
    {
      XorBelow8(encryptKeyOffset, Low(value));
      cipher := Xor(value, encryptKey[encryptKeyOffset]);
      encryptKey[encryptKeyOffset] := value;
      encryptKeyOffset := Xor(encryptKeyOffset, Low(value));
    }

    method DecryptByte(value: byte) returns (plain: byte)
      requires Valid()
      modifies this`decryptKeyOffset, decryptKey
      ensures Valid()
      ensures plain == Mask(old(DecryptState()), value)
      ensures DecryptState() == Advance(old(DecryptState()), plain)
      ensures EncryptState() == old(EncryptState())
    {
      decryptKey[decryptKeyOffset] := Xor(value, decryptKey[decryptKeyOffset]);
      plain := decryptKey[decryptKeyOffset];
      XorBelow8(decryptKeyOffset, Low(plain));
      decryptKeyOffset := Xor(decryptKeyOffset, Low(decryptKey[decryptKeyOffset]));
    }

    /** Encrypts `buffer[from..to]` in place. */
    method Encrypt(buffer: array<byte>, from: nat, to: nat)
      requires Valid() && from <= to <= buffer.Length
      requires buffer != encryptKey && buffer != decryptKey
      modifies this`encryptKeyOffset, encryptKey, buffer
      ensures Valid()
      ensures buffer[from..to] == Encrypted(old(EncryptState()), old(buffer[from..to]))
      ensures buffer[..from] == old(buffer[..from]) && buffer[to..] == old(buffer[to..])
      ensures EncryptState() == KeyAfter(old(EncryptState()), old(buffer[from..to]))
      ensures DecryptState() == old(DecryptState())
    {
      hide Encrypted, KeyAfter, Mask, Advance;
      ghost var text := buffer[from..to];
      ghost var done, rest := [], text;
      NothingEncrypts();
      for index := from to to
        invariant Valid() && |done| == index - from && |rest| == to - index
        invariant forall j :: from <= j < index ==> buffer[j] == done[j - from]
        invariant forall j :: index <= j < to ==> buffer[j] == text[j - from]
        invariant rest == text[index - from..]
        invariant buffer[..from] == old(buffer[..from]) && buffer[to..] == old(buffer[to..])
        invariant done + Encrypted(EncryptState(), rest) == Encrypted(old(EncryptState()), text)
        invariant KeyAfter(EncryptState(), rest) == KeyAfter(old(EncryptState()), text)
        invariant DecryptState() == old(DecryptState())
      {
        assert buffer[index] == rest[0];
        EncryptedHead(EncryptState(), rest);
        var value := EncryptByte(buffer[index]);
        buffer[index] := value;
        Shift(done, value, Encrypted(EncryptState(), rest[1..]));
        done, rest := done + [value], rest[1..];
      }
    }

    /** Decrypts `buffer[from..to]` in place. */
    method Decrypt(buffer: array<byte>, from: nat, to: nat)
      requires Valid() && from <= to <= buffer.Length
      requires buffer != encryptKey && buffer != decryptKey
      modifies this`decryptKeyOffset, decryptKey, buffer
      ensures Valid()
      ensures buffer[from..to] == Decrypted(old(DecryptState()), old(buffer[from..to]))
      ensures buffer[..from] == old(buffer[..from]) && buffer[to..] == old(buffer[to..])
      ensures DecryptState() == KeyAfter(old(DecryptState()), buffer[from..to])
      ensures EncryptState() == old(EncryptState())
    {
      hide Encrypted, Decrypted, KeyAfter, Mask, Advance;
      ghost var text := buffer[from..to];
      ghost var plain := Decrypted(DecryptState(), text);
      EncryptInvertsDecrypt(DecryptState(), text);
      ghost var done, rest, tail := [], text, plain;
      NothingEncrypts();
      for index := from to to
        invariant Valid() && |done| == index - from && |rest| == to - index
        invariant forall j :: from <= j < index ==> buffer[j] == done[j - from]
        invariant forall j :: index <= j < to ==> buffer[j] == text[j - from]
        invariant rest == text[index - from..]
        invariant buffer[..from] == old(buffer[..from]) && buffer[to..] == old(buffer[to..])
        invariant rest == Encrypted(DecryptState(), tail) && done + tail == plain
        invariant KeyAfter(DecryptState(), tail) == KeyAfter(old(DecryptState()), plain)
        invariant EncryptState() == old(EncryptState())
      {
        assert buffer[index] == rest[0];
        EncryptedHead(DecryptState(), tail);
        MaskTwice(DecryptState(), tail[0]);
        var value := DecryptByte(buffer[index]);
        buffer[index] := value;
        Shift(done, value, tail[1..]);
        assert tail == [value] + tail[1..];
        done, rest, tail := done + [value], rest[1..], tail[1..];
      }
      assert done == plain;
    }
  }

  lemma EncryptedHead(k: Key, s: seq<byte>)
    requires s != []
    ensures Encrypted(k, s) == [Mask(k, s[0])] + Encrypted(Advance(k, s[0]), s[1..])
    ensures Encrypted(k, s)[0] == Mask(k, s[0]) && Encrypted(k, s)[1..] == Encrypted(Advance(k, s[0]), s[1..])
    ensures KeyAfter(k, s) == KeyAfter(Advance(k, s[0]), s[1..])
  {
  }

  lemma NothingEncrypts()
    ensures forall k: Key :: Encrypted(k, []) == [] && KeyAfter(k, []) == k
  {
  }

  lemma Shift(a: seq<byte>, b: byte, c: seq<byte>)
    ensures a + ([b] + c) == a + [b] + c
  {
  }

  method FoldKey(key: seq<byte>) returns (seed: byte)
    ensures seed == Fold(key)
    ensures forall i: nat :: Bit(seed as nat, i) <==> CountSet(key, i) % 2 == 1
  {
    seed := 0;
    for i := 0 to |key|
      invariant seed == Fold(key[..i])
    {
      seed := Xor(seed, key[i]);
      assert key[..i + 1][..i] == key[..i];
    }
    assert key[..|key|] == key;
    forall i: nat
      ensures Bit(seed as nat, i) <==> CountSet(key, i) % 2 == 1
    {
      FoldDigits(key, i);
    }
  }
}
