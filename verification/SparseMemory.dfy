/** The block list of testmain.c: memory blocks that are allocated on the first write and kept in a linked
    list, against one total map from addresses to words. */
module SparseMemory {

  const BLOCK_SIZE: nat := 0x100_0000

  const ADDRESS_LIMIT: nat := 0x1_0000_0000_0000_0000

  /** The address with its lower 24 bits cleared, and the lower 24 bits. */
  function Base(address: nat): nat {
    address - address % BLOCK_SIZE
  }

  function Offset(address: nat): (o: nat)
    ensures o < BLOCK_SIZE
  {
    address % BLOCK_SIZE
  }

  /** The total map: zero where nothing was written. */
  function Value(contents: map<nat, nat>, address: nat): nat {
    if address in contents then contents[address] else 0
  }

  lemma ValueAfter(contents: map<nat, nat>, address: nat, value: nat, a: nat)
    ensures Value(contents[address := value], a) == if a == address then value else Value(contents, a)
  {
  }

  lemma BaseOffset(id: nat, o: nat)
    requires id % BLOCK_SIZE == 0 && o < BLOCK_SIZE
    ensures Base(id + o) == id && Offset(id + o) == o
  {
  }

  lemma Splits(address: nat)
    ensures address == Base(address) + Offset(address) && Base(address) % BLOCK_SIZE == 0
    ensures Base(address) <= address
  {
  }

  /** One write of a program: an address and a word. */
  datatype Write = Write(address: nat, value: nat)

  function Written(writes: seq<Write>): map<nat, nat> {
    if writes == [] then map[]
    else
      var w := writes[|writes| - 1];
      Written(writes[..|writes| - 1])[w.address := w.value]
  }

  /** The total map after some writes holds, at every address, the last word written there, or zero. */
  lemma {:induction false} HoldsLastWrite(writes: seq<Write>, a: nat, k: nat)
    requires k <= |writes| && forall i :: k <= i < |writes| ==> writes[i].address != a
    requires k > 0 ==> writes[k - 1].address == a
    ensures Value(Written(writes), a) == if k > 0 then writes[k - 1].value else 0
    decreases |writes|
  {
    if |writes| > k {
      HoldsLastWrite(writes[..|writes| - 1], a, k);
    }
  }

  class Block {
    const id: nat
    const mem: array<nat>
    const next: Block?

    constructor (id: nat, next: Block?)
      ensures this.id == id && this.next == next && fresh(mem)
      ensures mem.Length == BLOCK_SIZE && forall o :: 0 <= o < BLOCK_SIZE ==> mem[o] == 0
    {
      this.id, this.next := id, next;
      mem := new nat[BLOCK_SIZE](_ => 0);
    }
  }

  /** A block holds its part of the map. */
  ghost predicate Holds(b: Block, contents: map<nat, nat>)
    reads b.mem
    requires b.mem.Length == BLOCK_SIZE
  {
    forall o :: 0 <= o < BLOCK_SIZE ==> b.mem[o] == Value(contents, b.id + o)
  }

  /** A write outside a block does not concern it. */
  lemma HoldsElsewhere(b: Block, contents: map<nat, nat>, address: nat, value: nat)
    requires b.mem.Length == BLOCK_SIZE && Holds(b, contents)
    requires b.id % BLOCK_SIZE == 0 && b.id != Base(address)
    ensures Holds(b, contents[address := value])
  {
    hide Base, Offset;
    forall o | 0 <= o < BLOCK_SIZE ensures b.mem[o] == Value(contents[address := value], b.id + o) {
      BaseOffset(b.id, o);
    }
  }

  /** The first block with an id; the number of blocks when there is none. */
  ghost function Find(blocks: seq<Block>, id: nat): (i: nat)
    ensures i <= |blocks|
    ensures i < |blocks| ==> blocks[i].id == id
    ensures forall j :: 0 <= j < i ==> blocks[j].id != id
  {
    if blocks == [] || blocks[0].id == id then 0 else 1 + Find(blocks[1..], id)
  }

  /** The linked list that starts at a block, or is empty, has these blocks. */
  ghost predicate Linked(first: Block?, blocks: seq<Block>) {
    first == At(blocks, 0) && forall i :: 0 <= i < |blocks| ==> blocks[i].next == At(blocks, i + 1)
  }

  ghost function At(blocks: seq<Block>, i: nat): Block? {
    if i < |blocks| then blocks[i] else null
  }

  /** The blocks are aligned, and no two have the same id or share their memory. */
  ghost predicate Separate(blocks: seq<Block>) {
    && (forall i :: 0 <= i < |blocks| ==>
          blocks[i].mem.Length == BLOCK_SIZE && blocks[i].id % BLOCK_SIZE == 0 && blocks[i].id < ADDRESS_LIMIT)
    && (forall i, j :: 0 <= i < j < |blocks| ==> blocks[i].id != blocks[j].id && blocks[i].mem != blocks[j].mem)
  }

  lemma PrependLinks(first: Block?, blocks: seq<Block>, b: Block)
    requires Linked(first, blocks) && b.next == first
    ensures Linked(b, [b] + blocks)
  {
    var r := [b] + blocks;
    forall i | 0 <= i < |r| ensures r[i].next == At(r, i + 1) {
      if i > 0 {
        assert r[i] == blocks[i - 1] && At(r, i + 1) == At(blocks, i);
      }
    }
  }

  lemma PrependSeparates(blocks: seq<Block>, b: Block)
    requires Separate(blocks) && Find(blocks, b.id) == |blocks|
    requires b.mem.Length == BLOCK_SIZE && b.id % BLOCK_SIZE == 0 && b.id < ADDRESS_LIMIT
    requires forall c :: c in blocks ==> c.mem != b.mem
    ensures Separate([b] + blocks)
  {
    hide Find;
    var r := [b] + blocks;
    assert forall i :: 0 < i < |r| ==> r[i] == blocks[i - 1];
  }

  class Memory {
    var firstBlock: Block?
    ghost var blocks: seq<Block>
    ghost var contents: map<nat, nat>

    /** Every block holds its part of the map, and everything outside the blocks is zero. */
    ghost predicate Agrees()
      reads this, set b | b in blocks :: b.mem
      requires Separate(blocks)
    {
      && (forall i :: 0 <= i < |blocks| ==> Holds(blocks[i], contents))
      && (forall a :: a in contents ==> Find(blocks, Base(a)) < |blocks|)
    }

    ghost predicate Valid()
      reads this, set b | b in blocks :: b.mem
    {
      Linked(firstBlock, blocks) && Separate(blocks) && Agrees()
    }

    constructor ()
      ensures Valid() && contents == map[] && blocks == []
    {
      firstBlock, blocks, contents := null, [], map[];
    }

    /** The walk along the list that both accesses begin with. */
    method FindBlock(mask: nat) returns (current: Block?, ghost i: nat)
      requires Valid()
      ensures i == Find(blocks, mask) && current == At(blocks, Find(blocks, mask))
    {
      current, i := firstBlock, 0;
      while current != null
        invariant i <= |blocks| && current == At(blocks, i)
        invariant i <= Find(blocks, mask)
        decreases |blocks| - i
      {
        if current.id == mask {
          return;
        }
        current, i := current.next, i + 1;
      }
    }

    /** read_mem: what the total map holds; the size plays no part. */
    method ReadMem(address: nat, size: int) returns (value: nat)
      requires Valid() && address < ADDRESS_LIMIT
      ensures value == Value(contents, address)
    {
      hide Find, Base, Offset, Value, Linked, Separate, Agrees;
      var mask, offset := Base(address), Offset(address);
      var current, i := FindBlock(mask);
      if current != null {
        WordOf(i, address);
        return current.mem[offset];
      }
      NoWord(address);
      return 0;
    }

    lemma WordOf(i: nat, address: nat)
      requires Valid() && address < ADDRESS_LIMIT && i < |blocks| && blocks[i].id == Base(address)
      ensures Offset(address) < blocks[i].mem.Length && blocks[i].mem[Offset(address)] == Value(contents, address)
    {
      hide Find, Base, Offset, Value, Linked;
      Splits(address);
      assert Holds(blocks[i], contents);
    }

    lemma NoWord(address: nat)
      requires Valid() && Find(blocks, Base(address)) == |blocks|
      ensures Value(contents, address) == 0
    {
      hide Find, Base, Linked, Separate;
    }

    /** The write into a block of the list. */
    method Overwrite(current: Block, ghost i: nat, address: nat, value: nat)
      requires Valid() && i < |blocks| && current == blocks[i] && current.id == Base(address)
      modifies `contents, current.mem
      ensures Valid() && contents == old(contents)[address := value]
    {
      hide Find, Base, Offset, Linked, Value;
      Splits(address);
      ghost var after := contents[address := value];
      forall k | 0 <= k < |blocks| && k != i ensures Holds(blocks[k], after) {
        HoldsElsewhere(blocks[k], contents, address, value);
      }
      forall o | 0 <= o < BLOCK_SIZE
        ensures Value(after, current.id + o) == if o == Offset(address) then value else current.mem[o]
      {
        ValueAfter(contents, address, value, current.id + o);
      }
      current.mem[Offset(address)] := value;
      contents := after;
      assert forall k :: 0 <= k < |blocks| && k != i ==> Holds(blocks[k], contents);
      assert Holds(current, contents);
      assert Find(blocks, Base(address)) <= i;
    }

    /** A new block, cleared but for one word. */
    method Allocate(address: nat, value: nat) returns (b: Block)
      requires Valid() && Find(blocks, Base(address)) == |blocks|
      ensures fresh(b) && fresh(b.mem) && b.id == Base(address) && b.next == firstBlock
      ensures b.mem.Length == BLOCK_SIZE && Holds(b, contents[address := value])
    {
      hide Find, Base, Offset, Linked, Separate;
      Splits(address);
      b := new Block(Base(address), firstBlock);
      forall o | 0 <= o < BLOCK_SIZE ensures b.mem[o] == Value(contents, b.id + o) {
        NothingThere(blocks, contents, address, o);
      }
      b.mem[Offset(address)] := value;
    }

    /** The new block goes in front of the list. */
    method Prepend(address: nat, value: nat)
      requires Valid() && address < ADDRESS_LIMIT && Find(blocks, Base(address)) == |blocks|
      modifies this
      ensures Valid() && contents == old(contents)[address := value]
      ensures |blocks| == old(|blocks|) + 1 && blocks[1..] == old(blocks) && fresh(blocks[0].mem)
    {
      hide Find, Base, Offset, Linked;
      Splits(address);
      forall k | 0 <= k < |blocks| ensures Holds(blocks[k], contents[address := value]) {
        HoldsElsewhere(blocks[k], contents, address, value);
      }
      ghost var before, before' := blocks, firstBlock;
      var newBlock := Allocate(address, value);
      firstBlock := newBlock;
      blocks := [newBlock] + blocks;
      contents := contents[address := value];
      forall a | a in contents ensures Find(blocks, Base(a)) < |blocks| {
        PrependFinds(before, newBlock, Base(a));
      }
      PrependLinks(before', before, newBlock);
      PrependSeparates(before, newBlock);
      forall k | 0 <= k < |blocks| ensures Holds(blocks[k], contents) {
        assert k > 0 ==> blocks[k] == before[k - 1];
      }
    }

    /** write_mem: the total map is updated at one address, and at most one block is added to the list. */
    method WriteMem(address: nat, size: int, value: nat)
      requires Valid() && address < ADDRESS_LIMIT
      modifies this, set b | b in blocks :: b.mem
      ensures Valid() && contents == old(contents)[address := value]
      ensures blocks == old(blocks) || (|blocks| == old(|blocks|) + 1 && blocks[1..] == old(blocks))
      ensures forall b :: b in blocks && b !in old(blocks) ==> fresh(b.mem)
    {
      hide Find, Base, Offset, Linked, Separate, Agrees;
      var mask := Base(address);
      var current, i := FindBlock(mask);
      if current != null {
        Overwrite(current, i, address, value);
      } else {
        Prepend(address, value);
        assert blocks == [blocks[0]] + blocks[1..];
      }
    }

    /** Any sequence of writes to a fresh memory, and one read. */
    static method WritesThenRead(writes: seq<Write>, address: nat) returns (value: nat)
      requires address < ADDRESS_LIMIT && forall w :: w in writes ==> w.address < ADDRESS_LIMIT
      ensures value == Value(Written(writes), address)
    {
      hide Find, Base, Offset;
      var m := new Memory();
      var i := 0;
      while i < |writes|
        invariant i <= |writes| && fresh(m) && m.Valid() && m.contents == Written(writes[..i])
        invariant forall b :: b in m.blocks ==> fresh(b.mem)
      {
        assert writes[..i + 1][..i] == writes[..i];
        m.WriteMem(writes[i].address, 8, writes[i].value);
        i := i + 1;
      }
      assert writes[..i] == writes;
      value := m.ReadMem(address, 8);
    }
  }

  /** Where no block is, nothing was written. */
  lemma NothingThere(blocks: seq<Block>, contents: map<nat, nat>, address: nat, o: nat)
    requires forall a :: a in contents ==> Find(blocks, Base(a)) < |blocks|
    requires Find(blocks, Base(address)) == |blocks| && o < BLOCK_SIZE
    ensures Value(contents, Base(address) + o) == 0
  {
    hide Find, Base, Offset;
    Splits(address);
    BaseOffset(Base(address), o);
  }

  /** A new block in front hides no other. */
  lemma PrependFinds(blocks: seq<Block>, b: Block, id: nat)
    ensures Find([b] + blocks, id) == if b.id == id then 0 else Find(blocks, id) + 1
  {
    assert ([b] + blocks)[1..] == blocks;
  }
}
