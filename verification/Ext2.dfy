/** fs/ext2.c: finding, reading and writing the logical blocks of a file. */
module Ext2 {
  import opened Common
  import opened Radix
  import opened Ext2Shape

  datatype Result<T> = Ok(value: T) | Err(error: Error)

  datatype Error = EINVAL | ENOENT | ENOSPC

  class Inode {
    /** The block pointers of the inode, the disk, and the blocks that are free on it. */
    var block: seq<nat>
    var disk: Disk
    var free: seq<nat>
    const n: nat
    ghost var height: map<nat, nat>
    ghost var edges: Edges

    ghost function File(): File
      reads this`block, this`disk, this`height, this`edges
    {
      Ext2Shape.File(n, block, disk, height, edges)
    }

    ghost predicate Valid()
      reads this
    {
      && Shaped(File())
      && (forall i :: 0 <= i < |free| ==> free[i] != INODE && free[i] !in height)
      && (forall i, j :: 0 <= i < j < |free| ==> free[i] != free[j])
    }

    /** ext2_alloc_block followed by the store of the new number: a zeroed block is hung into
        an empty slot. The allocator's bitmap and lock are outside this model. */
    method AllocInto(b: nat, i: nat) returns (g: nat)
      requires Valid() && LinkSlot(File(), b, i) && Word(File(), b, i) == 0 && free != []
      modifies this
      ensures Valid() && g == old(free[0]) && free == old(free[1..])
      ensures NewBlock(old(File()), b, i, g) && File() == WithBlock(old(File()), b, i, g)
    {
      g := free[0];
      NewBlockShape(File(), b, i, g);
      ghost var f := WithBlock(File(), b, i, g);
      free := free[1..];
      disk := disk[g := Zeros(n)];
      if b == INODE {
        block := block[i := g];
      } else {
        var words: seq<nat> := disk[b];
        words := words[i := g];
        disk := disk[b := words];
      }
      height, edges := f.height, f.edges;
    }

    /** One level of ext2_ino_get_blocknum: the word in a slot, or a new block if it is empty. */
    method Step(b: nat, i: nat, alloc: bool, ghost p: seq<nat>, ghost k: nat) returns (r: Result<nat>)
      requires Valid() && DataPath(n, p) && k < |p| && p[k] == i && BlockAt(File(), p[..k]) == Some(b)
      modifies this
      ensures Valid() && Kept(old(File()), File(), p)
      ensures Grows(old(File()), old(free), File(), free)
      ensures !alloc || r.Err? ==> unchanged(this)
      ensures r.Ok? ==> BlockAt(File(), p[..k + 1]) == Some(r.value)
      ensures r.Err? ==> BlockAt(File(), p[..k + 1]) == None && r.error == (if alloc then ENOSPC else ENOENT)
      ensures r.Err? && alloc ==> free == []
      ensures |free| >= |old(free)| - 1
    {
      SlotOnPath(File(), p, k);
      PathSnoc(File(), p, k);
      var ret := if b == INODE then block[i] else disk[b][i];
      if ret == 0 {
        if !alloc {
          return Err(ENOENT);
        }
        if free == [] {
          return Err(ENOSPC);
        }
        ghost var f, pool := File(), free;
        ret := AllocInto(b, i);
        NewBlockGrows(f, b, i, ret, pool);
        NewBlockKeeps(f, b, i, ret, p, k);
        PathSnoc(File(), p, k);
      }
      return Ok(ret);
    }

    /** ext2_ino_get_blocknum: the disk block of a logical block, allocated on demand. The index
        formulas stay inside the tables exactly as InTableExactly says; where they do not, the
        source reads past its buffer. */
    method GetBlockNum(b: nat, alloc: bool) returns (r: Result<nat>)
      requires Valid() && (BlockIdx(n, b).Some? ==> DataPath(n, BlockIdx(n, b).value))
      modifies this
      ensures Valid() && Grows(old(File()), old(free), File(), free)
      ensures BlockIdx(n, b).None? ==> r == Err(EINVAL)
      ensures !alloc || BlockIdx(n, b).None? ==> unchanged(this)
      ensures BlockIdx(n, b).Some? ==>
                var p := BlockIdx(n, b).value;
                && Kept(old(File()), File(), p)
                && (r.Ok? ==> BlockAt(File(), p) == Some(r.value))
                && (r.Err? ==> BlockAt(old(File()), p) == None && BlockAt(File(), p) == None)
                && (r.Err? ==> r.error == if alloc then ENOSPC else ENOENT)
                && (alloc && |old(free)| >= |p| ==> r.Ok?)
    {
      var idx := BlockIdx(n, b);
      if idx.None? {
        return Err(EINVAL);
      }
      var p := idx.value;
      ghost var f0, free0 := File(), free;
      r := Step(INODE, p[0], alloc, p, 0);
      if r.Err? {
        MissingPrefix(f0, p, 1);
        return;
      }
      var ret := r.value;
      var i := 1;
      while i < |p|
        invariant Valid() && 1 <= i <= |p| && (!alloc ==> unchanged(this))
        invariant Got(f0, free0, File(), free, p, i, ret)
      {
        ghost var f, free1 := File(), free;
        r := Step(ret, p[i], alloc, p, i);
        GrowsOn(f0, free0, f, free1, File(), free);
        if r.Err? {
          MissingPrefix(File(), p, i + 1);
          MissingData(f0, f, p, i + 1);
          return;
        }
        GotOn(f0, free0, f, free1, File(), free, p, i, ret, r.value);
        ret := r.value;
        i := i + 1;
      }
      assert p[..|p|] == p;
      return Ok(ret);
    }

    /** ext2_ino_read_block. */
    method ReadBlock(b: nat) returns (r: Result<seq<nat>>)
      requires Valid() && (BlockIdx(n, b).Some? ==> DataPath(n, BlockIdx(n, b).value))
      modifies this
      ensures unchanged(this)
      ensures r == Read(File(), b)
    {
      var d := GetBlockNum(b, false);
      if d.Err? {
        return Err(d.error);
      }
      DataHeight(File(), BlockIdx(n, b).value);
      return Ok(disk[d.value]);
    }

    /** ext2_ino_write_block. */
    method WriteBlock(b: nat, buf: seq<nat>) returns (r: Result<()>)
      requires Valid() && |buf| == n && (BlockIdx(n, b).Some? ==> DataPath(n, BlockIdx(n, b).value))
      modifies this
      ensures Valid() && Grows(old(File()), old(free), File(), free)
      ensures r.Ok? ==> Read(File(), b) == Ok(buf)
      ensures r.Err? ==> Read(File(), b) == Read(old(File()), b)
      ensures forall c :: c != b && InTables(n, c) ==> Read(File(), c) == Read(old(File()), c)
      ensures r.Err? ==> r.error == EINVAL || r.error == ENOSPC
      ensures BlockIdx(n, b).Some? && |old(free)| >= 4 ==> r.Ok?
    {
      var d := GetBlockNum(b, true);
      if BlockIdx(n, b).Some? { KeptReads(old(File()), File(), b); }
      if d.Err? {
        return Err(d.error);
      }
      ghost var f, p := File(), BlockIdx(n, b).value;
      DataHeight(f, p);
      WriteDataShape(f, d.value, buf);
      WriteReads(f, b, d.value, buf);
      disk := disk[d.value := buf];
      return Ok(());
    }
  }

  /** The index formulas keep block c inside the tables (or refuse it). */
  predicate InTables(n: nat, c: nat)
    requires 0 < n < 65536
  {
    BlockIdx(n, c).Some? ==> DataPath(n, BlockIdx(n, c).value)
  }

  /** What reading logical block b gives. */
  ghost function Read(f: File, b: nat): Result<seq<nat>>
    requires 0 < f.n < 65536
  {
    var idx := BlockIdx(f.n, b);
    if idx.None? then Err(EINVAL)
    else if Data(f, idx.value).None? then Err(ENOENT)
    else Ok(Data(f, idx.value).value)
  }

  /** The slot that comes next on a data path can hold a link. */
  lemma SlotOnPath(f: File, p: seq<nat>, k: nat)
    requires Shaped(f) && DataPath(f.n, p) && k < |p| && BlockAt(f, p[..k]).Some?
    ensures LinkSlot(f, BlockAt(f, p[..k]).value, p[k])
    ensures Linked(f, BlockAt(f, p[..k]).value, p[k])
  {
    if k > 0 { WalkHeight(f, p[..k]); }
  }

  lemma PathSnoc(f: File, p: seq<nat>, k: nat)
    requires k < |p|
    ensures BlockAt(f, p[..k + 1]) == Follow(f.edges, BlockAt(f, p[..k]), p[k])
  {
    assert p[..k + 1] == p[..k] + [p[k]];
    WalkSnoc(f.edges, INODE, p[..k], p[k]);
  }

  /** Every other data path keeps its data; the path p itself keeps it too, or was missing
      and now leads to a zeroed block. */
  ghost predicate Kept(f: File, f': File, p: seq<nat>) {
    f'.n == f.n && forall q :: DataPath(f.n, q) ==>
      || Data(f', q) == Data(f, q)
      || (q == p && Data(f, q) == None && Data(f', q) == Some(Zeros(f.n)))
  }

  /** The file takes blocks from the free ones only, and writes to no block outside itself and them. */
  ghost predicate Grows(f: File, free: seq<nat>, f': File, free': seq<nat>) {
    && (forall g :: g in f'.height ==> g in f.height || g in free)
    && (forall g :: g in free' ==> g in free)
    && (forall g :: g in f.disk && g !in f.height && g !in free ==> g in f'.disk && f'.disk[g] == f.disk[g])
  }

  lemma GrowsOn(f: File, free: seq<nat>, f1: File, free1: seq<nat>, f2: File, free2: seq<nat>)
    requires Grows(f, free, f1, free1) && Grows(f1, free1, f2, free2)
    ensures Grows(f, free, f2, free2)
  {}

  lemma NewBlockGrows(f: File, b: nat, i: nat, g: nat, free: seq<nat>)
    requires NewBlock(f, b, i, g) && free != [] && g == free[0]
    ensures Grows(f, free, WithBlock(f, b, i, g), free[1..])
  {
    assert b == INODE || b in f.height;
    assert forall h :: h in free[1..] ==> h in free;
  }

  /** After i steps down the path p: the block there, and what has been done to the file so far. */
  ghost predicate Got(f0: File, free0: seq<nat>, f: File, free: seq<nat>, p: seq<nat>, i: nat, ret: nat) {
    && i <= |p| && BlockAt(f, p[..i]) == Some(ret) && Kept(f0, f, p) && Grows(f0, free0, f, free)
    && |free| >= |free0| - i
  }

  lemma GotOn(f0: File, free0: seq<nat>, f: File, free: seq<nat>, f': File, free': seq<nat>,
              p: seq<nat>, i: nat, ret: nat, ret': nat)
    requires Got(f0, free0, f, free, p, i, ret) && i < |p| && Kept(f, f', p) && Grows(f, free, f', free')
    requires BlockAt(f', p[..i + 1]) == Some(ret') && |free'| >= |free| - 1
    ensures Got(f0, free0, f', free', p, i + 1, ret')
  {
    GrowsOn(f0, free0, f, free, f', free');
    forall q | DataPath(f0.n, q)
      ensures Data(f', q) == Data(f0, q) || (q == p && Data(f0, q) == None && Data(f', q) == Some(Zeros(f0.n)))
    {
      assert Data(f, q) == Data(f0, q) || (q == p && Data(f0, q) == None && Data(f, q) == Some(Zeros(f0.n)));
    }
  }

  /** Another file on the same disk shares no block with this one or with the free ones. */
  ghost predicate Apart(f: File, free: seq<nat>, other: File) {
    && other.disk == f.disk
    && forall g :: g in other.height ==> g !in f.height && g !in free
  }

  /** What one file does leaves every other file alone, and still apart. */
  lemma OtherFileKept(f: File, free: seq<nat>, f': File, free': seq<nat>, other: File)
    requires Grows(f, free, f', free') && Shaped(other) && Apart(f, free, other)
    ensures var other' := other.(disk := f'.disk);
            && Shaped(other') && Apart(f', free', other')
            && forall c :: InTables(other.n, c) ==> Read(other', c) == Read(other, c)
  {
    var other' := other.(disk := f'.disk);
    assert forall g :: g in other.height ==> g in other'.disk && other'.disk[g] == other.disk[g];
    forall b: nat, i: nat | LinkSlot(other', b, i) ensures Linked(other', b, i) {
      assert LinkSlot(other, b, i) && Linked(other, b, i);
    }
    forall c | InTables(other.n, c) ensures Read(other', c) == Read(other, c) {
      var idx := BlockIdx(other.n, c);
      if idx.Some? && BlockAt(other, idx.value).Some? { DataHeight(other, idx.value); }
    }
  }

  lemma NewBlockKeeps(f: File, b: nat, i: nat, g: nat, p: seq<nat>, k: nat)
    requires NewBlock(f, b, i, g) && DataPath(f.n, p) && k < |p| && p[k] == i && BlockAt(f, p[..k]) == Some(b)
    ensures Kept(f, WithBlock(f, b, i, g), p)
    ensures BlockAt(WithBlock(f, b, i, g), p[..k]) == Some(b)
  {
    var f' := WithBlock(f, b, i, g);
    assert p[..k] + [i] == p[..k + 1];
    forall q | DataPath(f.n, q)
      ensures Data(f', q) == Data(f, q) || (q == p && Data(f, q) == None && Data(f', q) == Some(Zeros(f.n)))
    {
      NewBlockData(f, b, i, g, p[..k], q);
      if q == p[..k + 1] { assert q[0] == p[0] && |q| == |p|; }
    }
    NewBlockFresh(f, b, i, g);
    WalkAdd(f.edges, INODE, b, i, g, p[..k]);
    if k > 0 && BlockAt(f, p[..k][..|p[..k]| - 1]) == Some(b) {
      UniquePath(f.edges, INODE, p[..k], p[..k][..|p[..k]| - 1]);
    }
  }

  lemma {:induction false} MissingPrefix(f: File, p: seq<nat>, k: nat)
    requires k <= |p| && BlockAt(f, p[..k]) == None
    ensures BlockAt(f, p) == None
    decreases |p| - k
  {
    if k < |p| {
      PathSnoc(f, p, k);
      MissingPrefix(f, p, k + 1);
    } else {
      assert p[..k] == p;
    }
  }

  /** A failed step means that the path was missing from the start: nothing but zeroed
      pointer blocks has been added to it. */
  lemma MissingData(f0: File, f: File, p: seq<nat>, k: nat)
    requires Shaped(f0) && Shaped(f) && Kept(f0, f, p) && DataPath(f0.n, p) && k <= |p| && BlockAt(f, p[..k]) == None
    ensures BlockAt(f0, p) == None
  {
    MissingPrefix(f, p, k);
    if BlockAt(f0, p).Some? { DataHeight(f0, p); }
  }

  /** Allocating on demand changes what no other block reads; the block itself reads as before,
      or was missing. */
  lemma KeptReads(f: File, f': File, b: nat)
    requires 0 < f.n < 65536 && BlockIdx(f.n, b).Some? && Kept(f, f', BlockIdx(f.n, b).value)
    ensures forall c :: c != b && InTables(f.n, c) ==> Read(f', c) == Read(f, c)
  {
    forall c | c != b && InTables(f.n, c) ensures Read(f', c) == Read(f, c) {
      if BlockIdx(f.n, c) == BlockIdx(f.n, b) { BlockIdxInjective(f.n, b, c); }
    }
  }

  lemma WriteReads(f: File, b: nat, d: nat, buf: seq<nat>)
    requires Shaped(f) && BlockIdx(f.n, b).Some? && BlockAt(f, BlockIdx(f.n, b).value) == Some(d)
    ensures var f' := f.(disk := f.disk[d := buf]);
            && Read(f', b) == Ok(buf)
            && forall c :: c != b ==> Read(f', c) == Read(f, c)
  {
    var p := BlockIdx(f.n, b).value;
    WriteDataReads(f, p, d, buf, p);
    forall c | c != b ensures Read(f.(disk := f.disk[d := buf]), c) == Read(f, c) {
      var q := BlockIdx(f.n, c);
      if q.Some? {
        WriteDataReads(f, p, d, buf, q.value);
        if q.value == p { BlockIdxInjective(f.n, b, c); }
      }
    }
  }
}
