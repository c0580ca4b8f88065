/** The client's branch, a vector of blocks that are rewritten in place. */
module Branches {
  import opened Bytes
  import opened Configuration
  import opened Blocks

  class Branch {
    const cfg: Config
    const blocks: array<Block>

    /** The blocks and their buffers */
    ghost const boxes: set<Block>
    ghost const buffers: set<array<byte>>

    /** No two blocks share a buffer. */
    ghost predicate Valid()
      reads blocks
    {
      && cfg.Legal()
      && (forall i :: 0 <= i < blocks.Length ==> blocks[i].Valid() && blocks[i].cfg == cfg)
      && (forall i :: 0 <= i < blocks.Length ==> blocks[i] in boxes && blocks[i].bytes in buffers)
      && (forall i, j :: 0 <= i < j < blocks.Length ==> blocks[i] != blocks[j] && blocks[i].bytes != blocks[j].bytes)
    }

    ghost function ViewUpTo(n: nat): (p: seq<Plain>)
      requires Valid() && n <= blocks.Length
      reads blocks, buffers
      ensures |p| == n && forall i :: 0 <= i < n ==> p[i] == blocks[i].View()
    {
      if n == 0 then [] else ViewUpTo(n - 1) + [blocks[n - 1].View()]
    }

    /** The decrypted reading of all blocks */
    ghost function View(): (p: seq<Plain>)
      requires Valid()
      reads blocks, buffers
      ensures |p| == blocks.Length && forall i :: 0 <= i < |p| ==> p[i] == blocks[i].View() && Sized(cfg, p[i])
    {
      ViewUpTo(blocks.Length)
    }

    function Length(): (n: nat)
      ensures n == blocks.Length
    {
      blocks.Length
    }

    function Id(i: nat): (id: nat)
      requires Valid() && i < Length()
      reads blocks, buffers
      ensures id == View()[i].id
    {
      blocks[i].GetBlockId()
    }

    function Data(i: nat): (data: Data)
      requires Valid() && i < Length()
      reads blocks, buffers
      ensures data == View()[i].data
    {
      blocks[i].GetDecryptedData()
    }

    /** `branch.resize(n)` on an empty branch */
    constructor (cfg: Config, n: nat)
      requires cfg.Legal()
      ensures Valid() && this.cfg == cfg && Length() == n && fresh(blocks) && fresh(boxes) && fresh(buffers)
    {
      hide Config.Legal, Decode, Fit;
      var filler := new Block(cfg);
      var vector := new Block[n](_ => filler);
      ghost var all: set<Block>, bytes: set<array<byte>> := {}, {};
      var i := 0;
      while i < n
        invariant 0 <= i <= n && fresh(all) && fresh(bytes)
        invariant forall k :: 0 <= k < i ==>
                  vector[k] in all && vector[k].bytes in bytes && vector[k].Valid() && vector[k].cfg == cfg
        invariant forall k, l :: 0 <= k < l < i ==> vector[k] != vector[l] && vector[k].bytes != vector[l].bytes
      {
        vector[i] := new Block(cfg);
        all, bytes := all + {vector[i]}, bytes + {vector[i].bytes};
        i := i + 1;
      }
      this.cfg, blocks, boxes, buffers := cfg, vector, all, bytes;
    }

    method Swap(i: nat, j: nat)
      requires Valid() && i < Length() && j < Length()
      modifies buffers, boxes
      ensures Valid()
      ensures View() == old(View()[i := View()[j]][j := View()[i]])
    {
      blocks[i].Swap(blocks[j]);
      forall k | 0 <= k < blocks.Length && k != i && k != j
        ensures blocks[k].View() == old(blocks[k].View())
      {
      }
    }

    /** The block is freed and overwritten. */
    method Free(i: nat, random: Data)
      requires Valid() && i < Length() && |random| == cfg.DataBytes()
      modifies buffers, boxes
      ensures Valid()
      ensures View() == old(View())[i := Plain(0, random)]
    {
      blocks[i].SetBlockId(0);
      blocks[i].SetDecryptedRandomData(random);
    }

    method SetBlockId(i: nat, id: nat)
      requires Valid() && i < Length() && id < cfg.IdSpace()
      modifies buffers, boxes
      ensures Valid()
      ensures View() == old(View()[i := View()[i].(id := id)])
    {
      blocks[i].SetBlockId(id);
    }

    /** `memcpy` over the data */
    method SetData(i: nat, data: Data)
      requires Valid() && i < Length() && |data| == cfg.DataBytes()
      modifies buffers, boxes
      ensures Valid()
      ensures View() == old(View()[i := View()[i].(data := data)])
    {
      hide Config.Legal, Decode, Fit;
      FitExact(data, cfg.DataBytes());
      blocks[i].SetDecryptedData(data);
    }

    /** `branch[i] = Block(id, data)` */
    method Set(i: nat, id: nat, data: Data)
      requires Valid() && i < Length() && id < cfg.IdSpace() && |data| == cfg.DataBytes()
      modifies buffers, boxes
      ensures Valid()
      ensures View() == old(View())[i := Plain(id, data)]
    {
      hide Config.Legal, Decode, Fit;
      FitExact(data, cfg.DataBytes());
      var block := new Block.FromData(cfg, id, data);
      blocks[i].Assign(block);
    }

    /** A received block is decrypted in place. */
    method Receive(i: nat, wire: seq<byte>, cipher: Cipher)
      requires Valid() && i < Length() && |wire| == cfg.blockSize && cipher.Inverts(cfg.blockSize)
      modifies buffers, boxes
      ensures Valid()
      ensures View() == old(View())[i := Open(cfg, cipher, wire)]
    {
      hide Config.Legal, Decode, Fit, Open, Cipher.Inverts;
      FitExact(wire, cfg.blockSize);
      blocks[i].SetEncryptedData(wire);
      blocks[i].Decrypt(cipher);
    }

    /** A block is encrypted in place and sent. */
    method Send(i: nat, cipher: Cipher) returns (wire: seq<byte>)
      requires Valid() && i < Length() && cipher.Inverts(cfg.blockSize)
      modifies buffers, boxes
      ensures Valid()
      ensures wire == Seal(cfg, cipher, old(View()[i]))
      ensures forall k :: 0 <= k < Length() && k != i ==> View()[k] == old(View()[k])
    {
      hide Config.Legal, Decode, Seal, Cipher.Inverts;
      blocks[i].Encrypt(cipher);
      wire := blocks[i].bytes[..];
    }
  }
}
