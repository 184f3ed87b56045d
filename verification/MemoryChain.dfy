/** The growing chain, and the store that builds its own blocks. */
module MemoryChain {
  import opened Common
  import opened ChainBlocks
  import opened SoulValidation

  class MemoryChain {
    const kernel: Kernel
    const name: string
    var blocks: seq<Block>

    /** Whatever was appended, strictly or not, the chain validates from its genesis on. */
    ghost predicate Valid()
      reads this
    {
      ValidChain(kernel, blocks)
    }

    constructor (kernel: Kernel, name: string)
      ensures Valid() && blocks == [] && this.kernel == kernel && this.name == name
    {
      this.kernel := kernel;
      this.name := name;
      blocks := [];
    }

    method Append(block: Block) returns (r: Result<(), seq<Complaint>>)
      requires Valid()
      modifies this
      ensures Valid()
      ensures r.Ok? <==> old(Accepts(kernel, block, Last(blocks), false))
      ensures blocks == if r.Ok? then old(blocks) + [block] else old(blocks)
      ensures r.Err? ==> r.error == Complaints(kernel, block, Last(blocks), false)
    {
      r := ValidateBlock(kernel, block, Last(blocks));
      if r.Ok? {
        ValidChainExtends(kernel, blocks, block);
        blocks := blocks + [block];
      }
    }

    method AppendStrict(block: Block) returns (r: Result<(), seq<Complaint>>)
      requires Valid()
      modifies this
      ensures Valid()
      ensures r.Ok? <==> old(Accepts(kernel, block, Last(blocks), true))
      ensures blocks == if r.Ok? then old(blocks) + [block] else old(blocks)
      ensures r.Err? ==> r.error == Complaints(kernel, block, Last(blocks), true)
    {
      r := ValidateBlockStrict(kernel, block, Last(blocks));
      if r.Ok? {
        StrictAddsSignature(kernel, block, Last(blocks));
        ValidChainExtends(kernel, blocks, block);
        blocks := blocks + [block];
      }
    }
  }

  /** The block `append_entry` builds on top of `blocks`. */
  function EntryBlock(k: Kernel, name: string, blocks: seq<Block>, blockType: BlockType, content: string,
                      tags: seq<string>, timestamp: string): Block
  {
    var prevHash := match Last(blocks) case None => ZERO_HASH case Some(b) => b.hash;
    var draft := Block(|blocks| % U64_SIZE, timestamp, name, BlockData(blockType, content, tags), prevHash, "", None,
        None);
    draft.(hash := k.digest(draft.Covered()))
  }

  /** The block carries what the caller gave, in the place behind `blocks`, unsigned, under the hash of just that. */
  predicate IsEntry(b: Block, k: Kernel, name: string, blocks: seq<Block>, blockType: BlockType, content: string,
                    tags: seq<string>, timestamp: string)
  {
    && b.data.blockType == blockType && b.data.content == content && b.data.tags == tags
    && b.chain == name && b.timestamp == timestamp && b.index == |blocks| % U64_SIZE
    && (if blocks == [] then b.prevHash == seq(64, _ => '0') else b.prevHash == blocks[|blocks| - 1].hash)
    && b.signer.None? && b.signature.None?
    && b.hash == k.digest(Payload(b.index, timestamp, name, BlockData(blockType, content, tags), b.prevHash))
  }

  /** A chain grown by entries only: numbered from 0 without a gap. */
  ghost predicate Numbered(blocks: seq<Block>) {
    forall i :: 0 <= i < |blocks| ==> blocks[i].index == i % U64_SIZE
  }

  /** The caller's part of the bargain: a usable chain name, some content, and a clock that reads and does not run
      back. */
  ghost predicate CallerOk(k: Kernel, name: string, blocks: seq<Block>, content: string, timestamp: string) {
    && !IsBlank(name) && '\0' !in name && !HasPathPart(name)
    && !IsBlank(content)
    && k.instant(timestamp).Some?
    && (blocks != [] && k.instant(blocks[|blocks| - 1].timestamp).Some? ==>
          k.instant(blocks[|blocks| - 1].timestamp).value <= k.instant(timestamp).value)
  }

  /** The complaints that are about what the caller supplied. */
  predicate CallerFault(c: Complaint) {
    || c == ChainEmpty || c == ChainNullByte || c == ChainPath || c == ContentEmpty
    || c == TimestampFormat || c == TimestampBeforePrevious
  }

  /** An entry is never refused for its index, its link, its hash or its signature. */
  lemma EntryFaultsAreTheCallers(k: Kernel, name: string, blocks: seq<Block>, blockType: BlockType, content: string,
                                 tags: seq<string>, timestamp: string, c: Complaint)
    requires ValidChain(k, blocks) && Numbered(blocks)
    ensures var b := EntryBlock(k, name, blocks, blockType, content, tags, timestamp);
            && (Deserves(k, b, Last(blocks), false, c) ==> CallerFault(c))
            && (CallerOk(k, name, blocks, content, timestamp) ==> !Deserves(k, b, Last(blocks), false, c))
  {
    if blocks != [] {
      ValidLink(k, blocks, |blocks| - 1);
      LengthIsNext(|blocks|);
    }
  }

  lemma LengthIsNext(n: nat)
    requires n > 0
    ensures n % U64_SIZE == Next((n - 1) % U64_SIZE)
  {
  }

  lemma EntryAcceptedIff(k: Kernel, name: string, blocks: seq<Block>, blockType: BlockType, content: string,
                         tags: seq<string>, timestamp: string)
    requires ValidChain(k, blocks) && Numbered(blocks)
    ensures var b := EntryBlock(k, name, blocks, blockType, content, tags, timestamp);
            && (Accepts(k, b, Last(blocks), false) <==> CallerOk(k, name, blocks, content, timestamp))
            && IsEntry(b, k, name, blocks, blockType, content, tags, timestamp)
  {
    var b := EntryBlock(k, name, blocks, blockType, content, tags, timestamp);
    var prev := Last(blocks);
    forall c: Complaint ensures Deserves(k, b, prev, false, c) ==> !CallerOk(k, name, blocks, content, timestamp) {
      EntryFaultsAreTheCallers(k, name, blocks, blockType, content, tags, timestamp, c);
    }
    if Accepts(k, b, prev, false) {
      assert !Deserves(k, b, prev, false, ChainEmpty) && !Deserves(k, b, prev, false, ChainNullByte);
      assert !Deserves(k, b, prev, false, ChainPath) && !Deserves(k, b, prev, false, ContentEmpty);
      assert !Deserves(k, b, prev, false, TimestampFormat) && !Deserves(k, b, prev, false, TimestampBeforePrevious);
    }
  }

  class MemoryStore {
    const chain: MemoryChain

    ghost predicate Valid()
      reads this, chain
    {
      chain.Valid() && Numbered(chain.blocks)
    }

    constructor (kernel: Kernel, name: string)
      ensures Valid() && fresh(chain) && chain.blocks == [] && chain.kernel == kernel && chain.name == name
    {
      chain := new MemoryChain(kernel, name);
    }

    method AppendEntry(blockType: BlockType, content: string, tags: seq<string>, timestamp: string)
      returns (r: Result<Block, seq<Complaint>>)
      requires Valid()
      modifies chain
      ensures Valid()
      ensures r.Ok? <==> CallerOk(chain.kernel, chain.name, old(chain.blocks), content, timestamp)
      ensures r.Ok? ==> chain.blocks == old(chain.blocks) + [r.value]
                        && IsEntry(r.value, chain.kernel, chain.name, old(chain.blocks), blockType, content, tags,
                                   timestamp)
      ensures r.Err? ==> chain.blocks == old(chain.blocks) && r.error != [] && forall c :: c in r.error ==>
          CallerFault(c)
    {
      var block := EntryBlock(chain.kernel, chain.name, chain.blocks, blockType, content, tags, timestamp);
      EntryAcceptedIff(chain.kernel, chain.name, chain.blocks, blockType, content, tags, timestamp);
      ghost var before := chain.blocks;
      var appended := chain.Append(block);
      if appended.Err? {
        ComplaintsExact(chain.kernel, block, Last(before), false);
        forall c | c in appended.error ensures CallerFault(c) {
          EntryFaultsAreTheCallers(chain.kernel, chain.name, before, blockType, content, tags, timestamp, c);
        }
        return Err(appended.error);
      }
      r := Ok(block);
    }
  }
}
