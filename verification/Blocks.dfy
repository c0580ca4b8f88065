/** include/block.h and src/block.cpp: a block is one buffer of `blockSize` bytes with two readings,
    the encrypted bytes as they are, or a little-endian id followed by the data. */
module Blocks {
  import opened Bytes
  import opened Configuration

  /** The decrypted reading of a block. */
  datatype Plain = Plain(id: nat, data: Data)

  predicate Sized(cfg: Config, p: Plain)
    requires cfg.Legal()
  {
    p.id < cfg.IdSpace() && |p.data| == cfg.DataBytes()
  }

  function Encode(cfg: Config, p: Plain): (s: seq<byte>)
    requires cfg.Legal() && Sized(cfg, p)
    ensures |s| == cfg.blockSize
  {
    ToLE(p.id, cfg.IdBytes()) + p.data
  }

  function Decode(cfg: Config, s: seq<byte>): (p: Plain)
    requires cfg.Legal() && |s| == cfg.blockSize
    ensures Sized(cfg, p)
  {
    Plain(OfLE(s[..cfg.IdBytes()]), s[cfg.IdBytes()..])
  }

  /** Encryption of whole blocks, as far as the program relies on it. */
  datatype Cipher = Cipher(enc: seq<byte> -> seq<byte>, dec: seq<byte> -> seq<byte>) {
    ghost predicate Inverts(blockSize: nat) {
      && (forall s :: |s| == blockSize ==> |enc(s)| == blockSize && dec(enc(s)) == s)
      && (forall s :: |s| == blockSize ==> |dec(s)| == blockSize)
    }
  }

  function Seal(cfg: Config, cipher: Cipher, p: Plain): seq<byte>
    requires cfg.Legal() && Sized(cfg, p)
  {
    cipher.enc(Encode(cfg, p))
  }

  function Open(cfg: Config, cipher: Cipher, s: seq<byte>): Plain
    requires cfg.Legal() && |cipher.dec(s)| == cfg.blockSize
  {
    Decode(cfg, cipher.dec(s))
  }

  /** A block is its id, least significant byte first, and then its data. */
  lemma Layout(cfg: Config, p: Plain, i: nat)
    requires cfg.Legal() && Sized(cfg, p) && i < cfg.blockSize
    ensures Encode(cfg, p)[i] == if i < cfg.IdBytes() then ByteAt(p.id, i) else p.data[i - cfg.IdBytes()]
  {
    if i < cfg.IdBytes() {
      ToLEAt(p.id, cfg.IdBytes(), i);
    }
  }

  lemma DecodeEncode(cfg: Config, p: Plain)
    requires cfg.Legal() && Sized(cfg, p)
    ensures Decode(cfg, Encode(cfg, p)) == p
  {
    OfToLE(p.id, cfg.IdBytes());
    assert Encode(cfg, p)[..cfg.IdBytes()] == ToLE(p.id, cfg.IdBytes());
    assert Encode(cfg, p)[cfg.IdBytes()..] == p.data;
  }

  /** A block survives the way to the server and back. */
  lemma OpenSeal(cfg: Config, cipher: Cipher, p: Plain)
    requires cfg.Legal() && Sized(cfg, p) && cipher.Inverts(cfg.blockSize)
    ensures |Seal(cfg, cipher, p)| == cfg.blockSize && Open(cfg, cipher, Seal(cfg, cipher, p)) == p
  {
    DecodeEncode(cfg, p);
  }

  /** `memcpy(dst + at, src, |src|)` */
  method CopyInto(dst: array<byte>, at: nat, src: seq<byte>)
    requires at + |src| <= dst.Length
    modifies dst
    ensures dst[..] == old(dst[..at]) + src + old(dst[at + |src|..])
  {
    var i := 0;
    while i < |src|
      invariant 0 <= i <= |src|
      invariant dst[..at] == old(dst[..at])
      invariant dst[at..at + i] == src[..i]
      invariant dst[at + i..] == old(dst[at + i..])
    {
      dst[at + i] := src[i];
      i := i + 1;
    }
    assert dst[..] == dst[..at] + dst[at..at + |src|] + dst[at + |src|..];
  }

  /** `memcpy` over a whole buffer */
  method Overwrite(dst: array<byte>, src: seq<byte>)
    requires dst.Length == |src|
    modifies dst
    ensures dst[..] == src
  {
    CopyInto(dst, 0, src);
  }

  class Block {
    const cfg: Config
    const bytes: array<byte>
    var isEncrypted: bool

    ghost predicate Valid() {
      cfg.Legal() && bytes.Length == cfg.blockSize
    }

    ghost function View(): Plain
      requires Valid()
      reads bytes
    {
      Decode(cfg, bytes[..])
    }

    function GetBlockId(): (id: nat)
      requires Valid()
      reads bytes
      ensures id == View().id
    {
      assert bytes[..][..cfg.IdBytes()] == bytes[..cfg.IdBytes()];
      OfLE(bytes[..cfg.IdBytes()])
    }

    function GetDecryptedData(): (data: Data)
      requires Valid()
      reads bytes
      ensures data == View().data
    {
      assert bytes[..][cfg.IdBytes()..] == bytes[cfg.IdBytes()..];
      bytes[cfg.IdBytes()..]
    }

    constructor (cfg: Config)
      requires cfg.Legal()
      ensures Valid() && this.cfg == cfg && fresh(bytes) && !isEncrypted
      ensures View().id == 0 && View().data == Fit([], cfg.DataBytes())
    {
      this.cfg := cfg;
      bytes := new byte[cfg.blockSize](_ => 0);
      isEncrypted := false;
      new;
      ZerosAreZero(bytes[..cfg.IdBytes()]);
    }

    constructor Copy(block: Block)
      requires block.Valid()
      ensures Valid() && cfg == block.cfg && fresh(bytes) && isEncrypted == block.isEncrypted
      ensures bytes[..] == block.bytes[..]
    {
      cfg := block.cfg;
      bytes := new byte[block.bytes.Length];
      isEncrypted := block.isEncrypted;
      new;
      Overwrite(bytes, block.bytes[..]);
    }

    constructor FromData(cfg: Config, id: nat, data: seq<byte>)
      requires cfg.Legal() && id < cfg.IdSpace()
      ensures Valid() && this.cfg == cfg && fresh(bytes) && !isEncrypted
      ensures View() == Plain(id, Fit(data, cfg.DataBytes()))
    {
      this.cfg := cfg;
      bytes := new byte[cfg.blockSize];
      isEncrypted := false;
      new;
      SetBlockId(id);
      SetDecryptedData(data);
    }

    method SetBlockId(id: nat)
      requires Valid() && id < cfg.IdSpace()
      modifies bytes
      ensures View() == old(View()).(id := id)
    {
      CopyInto(bytes, 0, ToLE(id, cfg.IdBytes()));
      OfToLE(id, cfg.IdBytes());
      assert bytes[..cfg.IdBytes()] == ToLE(id, cfg.IdBytes());
      assert bytes[cfg.IdBytes()..] == old(bytes[..])[cfg.IdBytes()..];
      assert bytes[..][..cfg.IdBytes()] == bytes[..cfg.IdBytes()];
      assert bytes[..][cfg.IdBytes()..] == bytes[cfg.IdBytes()..];
    }

    method SetDecryptedData(data: seq<byte>)
      requires Valid()
      modifies bytes
      ensures View() == old(View()).(data := Fit(data, cfg.DataBytes()))
    {
      CopyInto(bytes, cfg.IdBytes(), Fit(data, cfg.DataBytes()));
      assert bytes[..][..cfg.IdBytes()] == old(bytes[..])[..cfg.IdBytes()];
      assert bytes[..][cfg.IdBytes()..] == Fit(data, cfg.DataBytes());
    }

    /** The random bytes are those that the caller draws. */
    method SetDecryptedRandomData(random: Data)
      requires Valid() && |random| == cfg.DataBytes()
      modifies bytes
      ensures View() == old(View()).(data := random)
    {
      FitExact(random, cfg.DataBytes());
      SetDecryptedData(random);
    }

    method SetEncryptedData(data: seq<byte>)
      requires Valid()
      modifies bytes
      ensures bytes[..] == Fit(data, cfg.blockSize)
    {
      Overwrite(bytes, Fit(data, cfg.blockSize));
    }

    /** The implicit copy assignment */
    method Assign(block: Block)
      requires Valid() && block.Valid() && block.cfg == cfg
      modifies this`isEncrypted, bytes
      ensures View() == old(block.View()) && isEncrypted == old(block.isEncrypted)
    {
      Overwrite(bytes, block.bytes[..]);
      isEncrypted := block.isEncrypted;
    }

    /** Exchanges the bytes of two blocks, also when they are the same block. */
    method Swap(block: Block)
      requires Valid() && block.Valid() && block.cfg == cfg
      modifies bytes, block.bytes
      ensures View() == old(block.View()) && block.View() == old(View())
    {
      var temp := bytes[..];
      Overwrite(bytes, block.bytes[..]);
      Overwrite(block.bytes, temp);
    }

    method Encrypt(cipher: Cipher)
      requires Valid() && cipher.Inverts(cfg.blockSize)
      modifies this`isEncrypted, bytes
      ensures isEncrypted && bytes[..] == Seal(cfg, cipher, old(View()))
    {
      EncodeDecode(cfg, bytes[..]);
      Overwrite(bytes, cipher.enc(bytes[..]));
      isEncrypted := true;
    }

    method Decrypt(cipher: Cipher)
      requires Valid() && cipher.Inverts(cfg.blockSize)
      modifies this`isEncrypted, bytes
      ensures !isEncrypted && View() == Open(cfg, cipher, old(bytes[..]))
    {
      Overwrite(bytes, cipher.dec(bytes[..]));
      isEncrypted := false;
    }
  }

  lemma {:induction false} ZerosAreZero(s: seq<byte>)
    requires forall i :: 0 <= i < |s| ==> s[i] == 0
    ensures OfLE(s) == 0
  {
    if s != [] {
      ZerosAreZero(s[1..]);
    }
  }

  /** The two readings are two views of the same bytes. */
  lemma EncodeDecode(cfg: Config, s: seq<byte>)
    requires cfg.Legal() && |s| == cfg.blockSize
    ensures Encode(cfg, Decode(cfg, s)) == s
  {
    ToOfLE(s[..cfg.IdBytes()]);
  }
}
