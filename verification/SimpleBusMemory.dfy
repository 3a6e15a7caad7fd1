/** The slaves of simple_bus together behave as one flat word memory. */
module SimpleBusMemory {
  import opened SimpleBus
  import opened SimpleBusTiming

  /** The value last written to an address, 0 if there is none. */
  function LastWrite(log: seq<Transfer>, address: nat): int {
    if log == [] then 0
    else
      var t := log[|log| - 1];
      if t.write && t.address == address then t.value else LastWrite(log[..|log| - 1], address)
  }

  ghost predicate ReadsLast(log: seq<Transfer>) {
    forall k :: 0 <= k < |log| && !log[k].write ==> log[k].value == LastWrite(log[..k], log[k].address)
  }

  ghost predicate Coherent(slaves: seq<Slave>, log: seq<Transfer>) {
    forall a: nat :: a % 4 == 0 && GetSlave(slaves, a) < |slaves| ==> Word(slaves, a) == LastWrite(log, a)
  }

  ghost predicate AllSlavesOk(slaves: seq<Slave>) {
    forall i :: 0 <= i < |slaves| ==> |slaves[i].mem| * 4 == slaves[i].end - slaves[i].start + 1
  }

  ghost predicate MemoryOk(slaves: seq<Slave>, log: seq<Transfer>) {
    AllSlavesOk(slaves) && Coherent(slaves, log) && ReadsLast(log)
  }

  /** Same contents as well as same layout. */
  lemma MemorySame(s: seq<Slave>, t: seq<Slave>, log: seq<Transfer>)
    requires SameLayout(s, t) && MemoryOk(s, log)
    requires forall i :: 0 <= i < |s| ==> s[i].mem == t[i].mem
    ensures MemoryOk(t, log)
  {
    hide GetSlave;
    forall a: nat | a % 4 == 0 && GetSlave(t, a) < |t| ensures Word(t, a) == LastWrite(log, a) {
      GetSlaveSame(s, t, a);
      assert Word(s, a) == LastWrite(log, a);
    }
  }

  /** From b to r one word has moved, as t records it: a write takes the word from the masters' memory to the
      slaves, a read the other way, and nothing else has changed in either. */
  ghost predicate WordMoved(b: Bus, r: Bus, t: Transfer) {
    && Word(r.slaves, t.address) == t.value == HostWord(r.host, t.data)
    && (if t.write then r.host == b.host else SameWords(b, r))
    && (forall p :: p != t.data ==> HostWord(r.host, p) == HostWord(b.host, p))
    && (forall a: nat :: a != t.address && a % 4 == 0 ==> Word(r.slaves, a) == Word(b.slaves, a))
  }

  ghost predicate SameWords(b: Bus, r: Bus) {
    forall a: nat :: Word(r.slaves, a) == Word(b.slaves, a)
  }

  /** A direct access moves its word in the direction asked for, or is refused and changes nothing. */
  lemma DirectExactly(b: Bus, write: bool, data: nat, address: nat)
    requires AllSlavesOk(b.slaves)
    ensures var r := Direct(b, write, data, address);
            if address % 4 != 0 || GetSlave(b.slaves, address) == |b.slaves| then r == b
            else
              && |r.log| == |b.log| + 1 && r.log[..|b.log|] == b.log
              && r.log[|b.log|] == Transfer(0, write, address, data, r.log[|b.log|].value, 0)
              && WordMoved(b, r, r.log[|b.log|])
  {
    hide GetSlave, Move, WordMoved;
    var i := GetSlave(b.slaves, address);
    if address % 4 == 0 && i < |b.slaves| {
      MoveExactly(b, i, 0, write, address, data, 0);
    }
  }

  lemma MoveExactly(b: Bus, i: nat, sub: nat, write: bool, address: nat, data: nat, waited: nat)
    requires AllSlavesOk(b.slaves) && address % 4 == 0 && i == GetSlave(b.slaves, address) < |b.slaves|
    ensures var r := Move(b, i, sub, write, address, data, waited);
            && SameLayout(b.slaves, r.slaves)
            && |r.log| == |b.log| + 1 && r.log[..|b.log|] == b.log
            && r.log[|b.log|] == Transfer(sub, write, address, data, r.log[|b.log|].value, waited)
            && WordMoved(b, r, r.log[|b.log|])
  {
    hide GetSlave;
    var r := Move(b, i, sub, write, address, data, waited);
    var k := Index(b.slaves[i], address);
    assert k < |b.slaves[i].mem|;
    assert SameLayout(b.slaves, r.slaves);
    GetSlaveSame(b.slaves, r.slaves, address);
    assert r.log[..|b.log|] == b.log;
    forall a: nat | a != address && a % 4 == 0 ensures Word(r.slaves, a) == Word(b.slaves, a) {
      GetSlaveSame(b.slaves, r.slaves, a);
      var j := GetSlave(b.slaves, a);
      if j == i {
        IndexDiffers(b.slaves[i], a, address);
      }
    }
  }

  lemma MoveMemory(b: Bus, i: nat, sub: nat, write: bool, address: nat, data: nat, waited: nat)
    requires MemoryOk(b.slaves, b.log) && address % 4 == 0
    requires i == GetSlave(b.slaves, address) < |b.slaves|
    ensures var r := Move(b, i, sub, write, address, data, waited);
            && SameLayout(b.slaves, r.slaves) && MemoryOk(r.slaves, r.log)
            && |r.log| == |b.log| + 1 && r.log[..|b.log|] == b.log
            && r.log[|b.log|] == Transfer(sub, write, address, data, HostWord(r.host, data), waited)
            && WordMoved(b, r, r.log[|b.log|])
  {
    hide GetSlave, LastWrite, Move;
    MoveExactly(b, i, sub, write, address, data, waited);
    var r := Move(b, i, sub, write, address, data, waited);
    assert Word(b.slaves, address) == LastWrite(b.log, address);
    forall a: nat | a % 4 == 0 && GetSlave(r.slaves, a) < |r.slaves|
      ensures Word(r.slaves, a) == LastWrite(r.log, a)
    {
      GetSlaveSame(b.slaves, r.slaves, a);
      LastWriteAppend(b.log, r.log[|b.log|], a);
      assert Word(b.slaves, a) == LastWrite(b.log, a);
      assert r.log == b.log + [r.log[|b.log|]];
    }
    ReadsLastAppend(b.log, r.log[|b.log|]);
    assert r.log == b.log + [r.log[|b.log|]];
  }

  lemma IndexDiffers(s: Slave, a: nat, c: nat)
    requires Covers(s, a) && Covers(s, c) && a != c && a % 4 == 0 && c % 4 == 0
    ensures Index(s, a) != Index(s, c)
  {
  }

  lemma LastWriteAppend(log: seq<Transfer>, t: Transfer, a: nat)
    ensures LastWrite(log + [t], a) == if t.write && t.address == a then t.value else LastWrite(log, a)
  {
    assert (log + [t])[..|log|] == log;
  }

  lemma ReadsLastAppend(log: seq<Transfer>, t: Transfer)
    requires ReadsLast(log) && (!t.write ==> t.value == LastWrite(log, t.address))
    ensures ReadsLast(log + [t])
  {
    hide LastWrite;
    forall k | 0 <= k < |log| + 1 && !(log + [t])[k].write
      ensures (log + [t])[k].value == LastWrite((log + [t])[..k], (log + [t])[k].address)
    {
      assert (log + [t])[..k] == log[..k];
      assert k == |log| ==> log[..k] == log;
    }
  }
}
