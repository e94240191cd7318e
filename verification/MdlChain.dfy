/** SkeletonI2C, the byte accessors of a transfer: a chain of memory descriptors
    read and written as one flat buffer. */
module MdlChain {
  import opened CaseFold
  import opened BitArithmetic

  /** A memory descriptor; it has no buffer when mapping it fails. */
  class Mdl {
    const byteCount: nat
    const buffer: array?<Byte>
    const next: Mdl?

    constructor (byteCount: nat, buffer: array?<Byte>, next: Mdl?)
      ensures this.byteCount == byteCount && this.buffer == buffer && this.next == next
    {
      this.byteCount, this.buffer, this.next := byteCount, buffer, next;
    }
  }

  /** A byte of the flat buffer, or nothing where it cannot be reached. */
  type Cell = Option<Byte>

  /** The descriptors from the first to the last, and their buffers apart. */
  ghost predicate IsChain(first: Mdl?, chain: seq<Mdl>) {
    && (forall i | 0 <= i < |chain| :: chain[i].buffer != null ==> chain[i].buffer.Length == chain[i].byteCount)
    && (forall i, j | 0 <= i < j < |chain| :: chain[i].buffer != null ==> chain[i].buffer != chain[j].buffer)
    && first == NodeAt(chain, 0)
    && forall i | 0 <= i < |chain| :: chain[i].next == NodeAt(chain, i + 1)
  }

  ghost function NodeAt(chain: seq<Mdl>, i: nat): Mdl? {
    if i < |chain| then chain[i] else null
  }

  ghost function Buffers(chain: seq<Mdl>): set<object> {
    set m | m in chain && m.buffer != null :: m.buffer
  }

  ghost function Segment(m: Mdl): seq<Cell>
    requires m.buffer != null ==> m.buffer.Length == m.byteCount
    reads m.buffer
  {
    seq(m.byteCount, i requires 0 <= i < m.byteCount reads m.buffer =>
      if m.buffer != null then Some(m.buffer[i]) else None)
  }

  /** What the chain holds, one sequence for each descriptor. */
  ghost function Segments(first: Mdl?, chain: seq<Mdl>): seq<seq<Cell>>
    requires IsChain(first, chain)
    reads Buffers(chain)
  {
    seq(|chain|, i requires 0 <= i < |chain| reads Buffers(chain) =>
      assert chain[i] in chain;
      Segment(chain[i]))
  }

  /** One buffer after the other. */
  function Flat(segs: seq<seq<Cell>>): seq<Cell> {
    if segs == [] then [] else segs[0] + Flat(segs[1..])
  }

  /** The flat buffer of a chain. */
  ghost function FlatBuffer(first: Mdl?, chain: seq<Mdl>): seq<Cell>
    requires IsChain(first, chain)
    reads Buffers(chain)
  {
    Flat(Segments(first, chain))
  }

  lemma {:induction false} FlatConcat(a: seq<seq<Cell>>, b: seq<seq<Cell>>)
    ensures Flat(a + b) == Flat(a) + Flat(b)
  {
    if a == [] {
      assert a + b == b;
    } else {
      assert (a + b)[1..] == a[1..] + b;
      FlatConcat(a[1..], b);
    }
  }

  lemma FlatOne(seg: seq<Cell>)
    ensures Flat([seg]) == seg
  {
    assert [seg][1..] == [];
  }

  lemma SplitAt(segs: seq<seq<Cell>>, i: nat)
    requires i < |segs|
    ensures segs == segs[..i] + [segs[i]] + segs[i + 1..]
  {
  }

  /** Where segment i is in the flat buffer. */
  lemma FlatAt(segs: seq<seq<Cell>>, i: nat)
    requires i < |segs|
    ensures Flat(segs) == Flat(segs[..i]) + segs[i] + Flat(segs[i + 1..])
  {
    SplitAt(segs, i);
    FlatAround(segs[..i], segs[i], segs[i + 1..]);
  }

  lemma FlatAround(a: seq<seq<Cell>>, seg: seq<Cell>, b: seq<seq<Cell>>)
    ensures Flat(a + [seg] + b) == Flat(a) + seg + Flat(b)
  {
    FlatConcat(a + [seg], b);
    FlatConcat(a, [seg]);
    FlatOne(seg);
  }

  /** Writing into a segment is writing into the flat buffer. */
  lemma FlatUpdate(segs: seq<seq<Cell>>, i: nat, k: nat, c: Cell)
    requires i < |segs| && k < |segs[i]|
    ensures |Flat(segs[..i])| + k < |Flat(segs)|
    ensures Flat(segs[i := segs[i][k := c]]) == Flat(segs)[|Flat(segs[..i])| + k := c]
  {
    var segs' := segs[i := segs[i][k := c]];
    FlatAt(segs, i);
    FlatAt(segs', i);
    assert segs'[..i] == segs[..i] && segs'[i + 1..] == segs[i + 1..];
  }

  /** The walk has passed i segments; offset is what is left of the index. */
  ghost predicate Walked(segs: seq<seq<Cell>>, i: nat, index: nat, offset: nat) {
    i <= |segs| && index == |Flat(segs[..i])| + offset
  }

  lemma WalkStep(segs: seq<seq<Cell>>, i: nat, index: nat, offset: nat)
    requires Walked(segs, i, index, offset) && i < |segs| && offset >= |segs[i]|
    ensures Walked(segs, i + 1, index, offset - |segs[i]|)
  {
    assert segs[..i + 1] == segs[..i] + [segs[i]];
    FlatConcat(segs[..i], [segs[i]]);
    FlatOne(segs[i]);
  }

  lemma WalkEnd(segs: seq<seq<Cell>>, i: nat, index: nat, offset: nat)
    requires Walked(segs, i, index, offset) && i == |segs|
    ensures index >= |Flat(segs)|
  {
    assert segs[..|segs|] == segs;
  }

  lemma WalkFound(segs: seq<seq<Cell>>, i: nat, index: nat, offset: nat)
    requires Walked(segs, i, index, offset) && i < |segs| && offset < |segs[i]|
    ensures index < |Flat(segs)| && Flat(segs)[index] == segs[i][offset]
  {
    FlatAt(segs, i);
  }

  /** The byte at an index of the transfer, or the length-mismatch status. */
  method GetByte(mdlChain: Mdl?, length: nat, index: nat, ghost chain: seq<Mdl>) returns (byte: Option<Byte>)
    requires IsChain(mdlChain, chain)
    ensures byte ==
            if index < length && index < |FlatBuffer(mdlChain, chain)| then FlatBuffer(mdlChain, chain)[index] else None
  {
    ghost var segs := Segments(mdlChain, chain);
    var mdl := mdlChain;
    var offset: nat := index;
    if index < length {
      ghost var i := 0;
      while mdl != null
        invariant mdl == NodeAt(chain, i) && Walked(segs, i, index, offset)
        invariant segs == Segments(mdlChain, chain)
        decreases |chain| - i
      {
        if offset < mdl.byteCount {
          WalkFound(segs, i, index, offset);
          assert segs[i] == Segment(mdl);
          return if mdl.buffer != null then Some(mdl.buffer[offset]) else None;
        }
        WalkStep(segs, i, index, offset);
        offset := offset - mdl.byteCount;
        mdl := mdl.next;
        i := i + 1;
      }
      WalkEnd(segs, i, index, offset);
    }
    return None;
  }

  /** The store itself: one byte of one segment. */
  method Store(ghost first: Mdl?, ghost chain: seq<Mdl>, ghost i: nat, mdl: Mdl, offset: nat, byte: Byte)
    requires IsChain(first, chain) && i < |chain| && mdl == chain[i]
    requires mdl.buffer != null && offset < mdl.byteCount
    modifies Buffers(chain)
    ensures var segs := old(Segments(first, chain));
            Segments(first, chain) == segs[i := segs[i][offset := Some(byte)]]
  {
    ghost var segs := Segments(first, chain);
    assert mdl in chain;
    mdl.buffer[offset] := byte;
    ghost var segs' := segs[i := segs[i][offset := Some(byte)]];
    forall j | 0 <= j < |chain|
      ensures Segments(first, chain)[j] == segs'[j]
    {
      if j == i {
        assert Segment(chain[i]) == segs[i][offset := Some(byte)];
      } else {
        assert chain[j].buffer == null || chain[j].buffer != mdl.buffer;
        assert Segment(chain[j]) == segs[j];
      }
    }
  }

  /** One byte of the flat buffer changes, or none does. */
  method SetByte(mdlChain: Mdl?, length: nat, index: nat, byte: Byte, ghost chain: seq<Mdl>) returns (success: bool)
    requires IsChain(mdlChain, chain)
    modifies Buffers(chain)
    ensures success <==>
            index < length && index < |old(FlatBuffer(mdlChain, chain))|
            && old(FlatBuffer(mdlChain, chain))[index].Some?
    ensures FlatBuffer(mdlChain, chain) ==
            if success then old(FlatBuffer(mdlChain, chain))[index := Some(byte)] else old(FlatBuffer(mdlChain, chain))
  {
    ghost var segs := Segments(mdlChain, chain);
    var mdl := mdlChain;
    var offset: nat := index;
    if index < length {
      ghost var i := 0;
      while mdl != null
        invariant mdl == NodeAt(chain, i) && Walked(segs, i, index, offset)
        invariant segs == Segments(mdlChain, chain)
        decreases |chain| - i
      {
        if offset < mdl.byteCount {
          WalkFound(segs, i, index, offset);
          if mdl.buffer == null {
            return false;
          }
          Store(mdlChain, chain, i, mdl, offset, byte);
          FlatUpdate(segs, i, offset, Some(byte));
          return true;
        }
        WalkStep(segs, i, index, offset);
        offset := offset - mdl.byteCount;
        mdl := mdl.next;
        i := i + 1;
      }
      WalkEnd(segs, i, index, offset);
    }
    return false;
  }
}
