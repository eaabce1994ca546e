/** The allocator of a growing memory-mapped file (block/file_serializer.cc,
    31-283). Calls to the operating system may fail, and mremap may refuse, at any
    time. */
module FileSerializers {
  import opened Arithmetic

  const PAGE_SIZE: nat := 4096

  datatype MappedArena = MappedArena(addr: nat, startOffset: nat, length: nat, currentOffset: nat)

  /** Bytes given out, by their place in the file. */
  datatype Block = Block(arena: nat, start: nat, length: nat)

  function End(a: MappedArena): nat {
    a.startOffset + a.length
  }

  function BlockEnd(b: Block): nat {
    b.start + b.length
  }

  // -------------------------------------------------------------- alignment

  predicate Aligned(x: nat, alignment: nat)
    requires alignment > 0
  {
    x % alignment == 0
  }

  lemma ModOfMultiple(q: nat, a: nat)
    requires a > 0
    ensures (q * a) % a == 0
  {
    Place(a, q, 0);
  }

  lemma SumAligned(x: nat, y: nat, a: nat)
    requires a > 0 && Aligned(x, a) && Aligned(y, a)
    ensures Aligned(x + y, a)
  {
    var p, q := x / a, y / a;
    assert x == p * a && y == q * a;
    assert x + y == (p + q) * a;
    ModOfMultiple(p + q, a);
  }

  /** Adding a multiple changes nothing. */
  lemma OffsetAligned(x: nat, y: nat, a: nat)
    requires a > 0 && Aligned(y, a)
    ensures Aligned(x + y, a) <==> Aligned(x, a)
  {
    if Aligned(x, a) { SumAligned(x, y, a); }
    if Aligned(x + y, a) {
      var p, q := (x + y) / a, y / a;
      assert x + y == p * a && y == q * a;
      assert x == (p - q) * a;
      if p < q { MulMono(p, q, a); }
      ModOfMultiple(p - q, a);
    }
  }

  /** A multiple of the page size is a multiple of whatever divides it. */
  lemma PagesAligned(x: nat, a: nat)
    requires a > 0 && Aligned(x, PAGE_SIZE) && Aligned(PAGE_SIZE, a)
    ensures Aligned(x, a)
  {
    var p, q := x / PAGE_SIZE, PAGE_SIZE / a;
    assert x == p * PAGE_SIZE && PAGE_SIZE == q * a;
    assert x == (p * q) * a;
    ModOfMultiple(p * q, a);
  }

  /** The padding before a block. */
  function ExtraBytes(offset: nat, alignment: nat): (extra: nat)
    requires alignment > 0
    ensures extra < alignment
  {
    var rest := offset % alignment;
    if rest > 0 then alignment - rest else 0
  }

  lemma PaddedAligned(offset: nat, alignment: nat)
    requires alignment > 0
    ensures Aligned(offset + ExtraBytes(offset, alignment), alignment)
  {
    var q, r := offset / alignment, offset % alignment;
    assert offset == q * alignment + r;
    if r > 0 {
      assert offset + (alignment - r) == (q + 1) * alignment;
      ModOfMultiple(q + 1, alignment);
    }
  }

  // ------------------------------------------------------------------ growth

  /** Whole pages for so many bytes. */
  function Pages(bytes: nat): nat {
    (bytes + PAGE_SIZE - 1) / PAGE_SIZE
  }

  function Max(x: nat, y: nat): nat {
    if x >= y then x else y
  }

  /** The length of a new arena. */
  function NewLength(bytesRequired: nat, currentlyAllocated: nat): (length: nat)
    ensures bytesRequired <= length && Aligned(length, PAGE_SIZE)
    ensures length >= 1024 * PAGE_SIZE && 8 * length + 8 * PAGE_SIZE > currentlyAllocated
  {
    Max(Max(Pages(bytesRequired), 1024), Pages(currentlyAllocated) / 8) * PAGE_SIZE
  }

  /** What expanding adds to an arena, in bytes: the first operand is a number of
      pages. */
  function Growth(bytesRequired: nat): (growth: nat)
    ensures growth >= 10000 * PAGE_SIZE
  {
    Max(Pages(bytesRequired), 10000 * PAGE_SIZE)
  }

  /** Whole pages, and as few as can be. */
  lemma PagesAreFewest(bytes: nat, pages: nat)
    ensures bytes <= 4096 * Pages(bytes)
    ensures bytes <= 4096 * pages ==> Pages(bytes) <= pages
  {
  }

  /** A new arena has the fewest pages that hold what is asked for, are at least
      1024, and are an eighth of what there is already. */
  lemma NewLengthIsLeast(bytesRequired: nat, currentlyAllocated: nat, pages: nat)
    ensures var n := NewLength(bytesRequired, currentlyAllocated) / 4096;
      && NewLength(bytesRequired, currentlyAllocated) == n * 4096
      && bytesRequired <= n * 4096 && n >= 1024 && 8 * n + 7 >= Pages(currentlyAllocated)
      && (bytesRequired <= pages * 4096 && pages >= 1024 && 8 * pages + 7 >= Pages(currentlyAllocated) ==> n <= pages)
  {
    PagesAreFewest(bytesRequired, pages);
  }

  /** An expansion adds the number of pages asked for, as bytes, or 10000 pages if
      that is more. */
  lemma GrowthIs(bytesRequired: nat)
    ensures Growth(bytesRequired) == if Pages(bytesRequired) <= 40_960_000 then 40_960_000 else Pages(bytesRequired)
  {
  }

  /** So an expansion is of whole pages just when at most 10000 pages' worth of
      pages is asked for, or their number happens to be a multiple of the page size. */
  lemma GrowthInPages(bytesRequired: nat)
    ensures Aligned(Growth(bytesRequired), PAGE_SIZE) <==>
              Pages(bytesRequired) <= 10000 * PAGE_SIZE || Aligned(Pages(bytesRequired), PAGE_SIZE)
  {
  }

  // -------------------------------------------------------------- invariants

  /** The arenas tile the file from its start. */
  ghost predicate Tiling(arenas: seq<MappedArena>, total: nat) {
    && (arenas == [] ==> total == 0)
    && (arenas != [] ==> arenas[0].startOffset == 0 && End(arenas[|arenas| - 1]) == total)
    && (forall i :: 0 <= i < |arenas| - 1 ==> Abut(arenas, i))
    && (forall i :: 0 <= i < |arenas| ==> arenas[i].currentOffset <= arenas[i].length && Aligned(arenas[i].addr, PAGE_SIZE))
  }

  ghost predicate Abut(arenas: seq<MappedArena>, i: nat)
    requires i + 1 < |arenas|
  {
    End(arenas[i]) == arenas[i + 1].startOffset
  }

  /** Where the last arena's free space starts. */
  function Mark(arenas: seq<MappedArena>): nat {
    if arenas == [] then 0 else arenas[|arenas| - 1].startOffset + arenas[|arenas| - 1].currentOffset
  }

  /** Blocks do not overlap, and each is inside its arena and below the mark. */
  ghost predicate Placed(blocks: seq<Block>, arenas: seq<MappedArena>) {
    && (forall i :: 0 <= i < |blocks| ==> Inside(blocks[i], arenas))
    && (forall i, j :: 0 <= i < j < |blocks| ==> BlockEnd(blocks[i]) <= blocks[j].start)
  }

  ghost predicate Inside(b: Block, arenas: seq<MappedArena>) {
    && b.arena < |arenas| && b.length > 0
    && arenas[b.arena].startOffset <= b.start && BlockEnd(b) <= End(arenas[b.arena]) && BlockEnd(b) <= Mark(arenas)
  }

  lemma {:induction false} TilingOrdered(arenas: seq<MappedArena>, total: nat, i: nat)
    requires Tiling(arenas, total) && i < |arenas|
    ensures End(arenas[i]) <= total
    decreases |arenas| - i
  {
    if i + 1 < |arenas| {
      assert Abut(arenas, i);
      TilingOrdered(arenas, total, i + 1);
    }
  }

  /** A new arena, at the end of the file; moving the others into a bigger vector
      forgets how far they were filled. */
  function WithArena(arenas: seq<MappedArena>, fresh': MappedArena, moved: bool): (r: seq<MappedArena>)
    ensures |r| == |arenas| + 1 && r[|arenas|] == fresh'
    ensures forall i :: 0 <= i < |arenas| ==> r[i].(currentOffset := arenas[i].currentOffset) == arenas[i]
    ensures forall i :: 0 <= i < |arenas| ==> r[i].currentOffset == if moved then 0 else arenas[i].currentOffset
  {
    (if moved then seq(|arenas|, i requires 0 <= i < |arenas| => arenas[i].(currentOffset := 0)) else arenas) + [fresh']
  }

  lemma AddArena(arenas: seq<MappedArena>, total: nat, blocks: seq<Block>, addr: nat, length: nat, moved: bool)
    requires Tiling(arenas, total) && Placed(blocks, arenas) && Aligned(addr, PAGE_SIZE)
    ensures var arenas' := WithArena(arenas, MappedArena(addr, total, length, 0), moved);
            Tiling(arenas', total + length) && Placed(blocks, arenas') && Mark(arenas') == total
  {
    var arenas' := WithArena(arenas, MappedArena(addr, total, length, 0), moved);
    forall i | 0 <= i < |arenas'| - 1 ensures Abut(arenas', i) {
      if i + 1 < |arenas| { assert Abut(arenas, i); }
    }
    forall i | 0 <= i < |blocks| ensures Inside(blocks[i], arenas') {
      assert Inside(blocks[i], arenas);
      TilingOrdered(arenas, total, blocks[i].arena);
    }
  }

  /** The last arena, longer. */
  lemma GrowArena(arenas: seq<MappedArena>, total: nat, blocks: seq<Block>, more: nat)
    requires Tiling(arenas, total) && Placed(blocks, arenas) && arenas != []
    ensures var n := |arenas| - 1;
            var arenas' := arenas[n := arenas[n].(length := arenas[n].length + more)];
            Tiling(arenas', total + more) && Placed(blocks, arenas')
  {
    var n := |arenas| - 1;
    var arenas' := arenas[n := arenas[n].(length := arenas[n].length + more)];
    forall i | 0 <= i < |arenas'| - 1 ensures Abut(arenas', i) { assert Abut(arenas, i); }
    forall i | 0 <= i < |blocks| ensures Inside(blocks[i], arenas') { assert Inside(blocks[i], arenas); }
  }

  /** A block at or after the mark, and the mark moved to its end. */
  lemma TakeBlock(arenas: seq<MappedArena>, total: nat, blocks: seq<Block>, offset: nat, bytes: nat)
    requires Tiling(arenas, total) && Placed(blocks, arenas) && arenas != [] && bytes > 0
    requires var a := arenas[|arenas| - 1]; a.currentOffset <= offset && offset + bytes <= a.length
    ensures var n := |arenas| - 1;
            var arenas' := arenas[n := arenas[n].(currentOffset := offset + bytes)];
            var block := Block(n, arenas[n].startOffset + offset, bytes);
            Tiling(arenas', total) && Placed(blocks + [block], arenas') && Mark(arenas') == BlockEnd(block)
  {
    var n := |arenas| - 1;
    var arenas' := arenas[n := arenas[n].(currentOffset := offset + bytes)];
    var block := Block(n, arenas[n].startOffset + offset, bytes);
    forall i | 0 <= i < |arenas'| - 1 ensures Abut(arenas', i) { assert Abut(arenas, i); }
    forall i | 0 <= i < |blocks| + 1 ensures Inside((blocks + [block])[i], arenas') {
      if i < |blocks| { assert Inside(blocks[i], arenas); }
    }
    forall i | 0 <= i < |blocks| ensures BlockEnd(blocks[i]) <= block.start { assert Inside(blocks[i], arenas); }
  }

  // ---------------------------------------------------------- the serializer

  /** `Misaligned`: the assertion on the address fails, the space being taken. */
  datatype Outcome = Null | Failed | Allocated(block: Block, address: nat) | Misaligned(block: Block, address: nat)

  class FileSerializer {
    var fileSize: nat              // st_size
    var currentlyAllocated: nat
    var arenas: seq<MappedArena>
    ghost var blocks: seq<Block>   // what has been given out
    ghost var refusals: nat        // calls that the system has refused

    ghost predicate Valid()
      reads this
    {
      Tiling(arenas, currentlyAllocated) && Placed(blocks, arenas)
    }

    constructor ()
      ensures Valid() && blocks == [] && arenas == [] && fileSize == 0
    {
      fileSize, currentlyAllocated, arenas, blocks, refusals := 0, 0, [], [], 0;
    }

    /** MappedArena::allocate, in the last arena. */
    method AllocateInLast(bytes: nat, alignment: nat) returns (r: Outcome)
      requires Valid() && arenas != [] && bytes > 0 && alignment > 0
      modifies this`arenas, this`blocks
      ensures Valid() && |arenas| == |old(arenas)|
      ensures r == Null <==> var a := old(arenas)[|arenas| - 1]; a.currentOffset + bytes + ExtraBytes(a.currentOffset, alignment) > a.length
      ensures r == Null ==> arenas == old(arenas) && blocks == old(blocks)
      ensures r != Null ==> r.Allocated? && Given(old(blocks), old(Mark(arenas)), r.block, r.address, bytes, alignment)
    {
      var n := |arenas| - 1;
      var a := arenas[n];
      var extra := ExtraBytes(a.currentOffset, alignment);
      if a.currentOffset + bytes + extra > a.length { return Null; }
      var offset := extra + a.currentOffset;
      TakeBlock(arenas, currentlyAllocated, blocks, offset, bytes);
      PaddedAligned(a.currentOffset, alignment);
      var block := Block(n, a.startOffset + offset, bytes);
      OffsetAligned(a.addr, offset, alignment);
      if Aligned(PAGE_SIZE, alignment) { PagesAligned(a.addr, alignment); }
      arenas := arenas[n := a.(currentOffset := offset + bytes)];
      blocks := blocks + [block];
      return Allocated(block, a.addr + offset);
    }

    /** The block is new, of the size asked for, in the last arena and beyond all
        others; its address is aligned just when its arena's is, and so always if
        the alignment divides the page size. */
    ghost predicate Given(before: seq<Block>, mark: nat, block: Block, address: nat, bytes: nat, alignment: nat)
      requires alignment > 0
      reads this
    {
      && blocks == before + [block] && block.length == bytes && block.start >= mark && block.arena + 1 == |arenas|
      && (Aligned(address, alignment) <==> Aligned(arenas[block.arena].addr, alignment))
      && (Aligned(PAGE_SIZE, alignment) ==> Aligned(address, alignment))
    }

    /** The assertion on the file's size. */
    predicate LengthVerified()
      reads this
    {
      fileSize == currentlyAllocated
    }

    /** A new arena can be mapped if the system goes along. */
    predicate Growable()
      reads this
    {
      LengthVerified() && Aligned(currentlyAllocated, PAGE_SIZE)
    }

    /** createNewMappedArena; `!ok` is one of its exceptions.  The system does not map
        a file from inside a page, and the file has its new length by then. */
    method CreateNewMappedArena(bytesRequired: nat) returns (ok: bool)
      requires Valid()
      modifies this`fileSize, this`currentlyAllocated, this`arenas, this`refusals
      ensures old(refusals) <= refusals
      ensures ok <==> old(LengthVerified()) && Aligned(old(currentlyAllocated), PAGE_SIZE) && refusals == old(refusals)
      ensures Valid() && (old(Mark(arenas)) <= Mark(arenas) || !ok)
      ensures ok ==> LengthVerified() && |arenas| == |old(arenas)| + 1
      ensures ok ==> currentlyAllocated == old(currentlyAllocated) + NewLength(bytesRequired, old(currentlyAllocated))
      ensures ok ==> var a := arenas[|arenas| - 1];
                a.currentOffset == 0 && a.startOffset == old(currentlyAllocated) && a.length == NewLength(bytesRequired, old(currentlyAllocated))
      ensures ok ==> forall i :: 0 <= i < |old(arenas)| ==> arenas[i].(currentOffset := old(arenas)[i].currentOffset) == old(arenas)[i]
      ensures !ok ==> arenas == old(arenas) && currentlyAllocated == old(currentlyAllocated)
      ensures !old(LengthVerified()) ==> !ok && fileSize == old(fileSize)
      ensures ok ==> Growable()
      ensures !Aligned(old(currentlyAllocated), PAGE_SIZE) ==> !ok && (fileSize == old(fileSize) || !LengthVerified())
    {
      if !LengthVerified() { return false; }
      var newLength := NewLength(bytesRequired, currentlyAllocated);
      var truncated: bool := *;
      if !truncated { refusals := refusals + 1; return false; }
      fileSize := currentlyAllocated + newLength;
      var mapped: bool := *;
      if !mapped { refusals := refusals + 1; return false; }
      if !Aligned(currentlyAllocated, PAGE_SIZE) { return false; }
      var page :| 0 <= page;
      var addr := page * PAGE_SIZE;
      var moved: bool := *;   // whether the vector had to grow
      AddArena(arenas, currentlyAllocated, blocks, addr, newLength, moved);
      MarkBelow(arenas, currentlyAllocated);
      arenas := WithArena(arenas, MappedArena(addr, currentlyAllocated, newLength, 0), moved);
      SumAligned(currentlyAllocated, newLength, PAGE_SIZE);
      currentlyAllocated := currentlyAllocated + newLength;
      return true;
    }

    /** expandLastMappedArena: false if the mapping cannot grow where it is. */
    method ExpandLastMappedArena(bytesRequired: nat) returns (ok: bool, expanded: bool)
      requires Valid() && arenas != []
      modifies this`fileSize, this`currentlyAllocated, this`arenas, this`refusals
      ensures Valid() && Mark(arenas) == old(Mark(arenas)) && |arenas| == |old(arenas)|
      ensures old(refusals) <= refusals && (ok <==> old(LengthVerified()) && refusals == old(refusals))
      ensures var n := |arenas| - 1;
              arenas == if ok && expanded then old(arenas)[n := old(arenas)[n].(length := old(arenas)[n].length + Growth(bytesRequired))]
                        else old(arenas)
      ensures currentlyAllocated == old(currentlyAllocated) + if ok && expanded then Growth(bytesRequired) else 0
      ensures ok ==> LengthVerified()
      ensures !old(LengthVerified()) ==> !ok && fileSize == old(fileSize)
    {
      if !LengthVerified() { return false, false; }
      var n := |arenas| - 1;
      var newLength := arenas[n].length + Growth(bytesRequired);
      var truncated: bool := *;
      if !truncated { refusals := refusals + 1; return false, false; }
      fileSize := currentlyAllocated + newLength - arenas[n].length;
      var inPlace: bool := *;
      if !inPlace {
        var undone: bool := *;
        if !undone { refusals := refusals + 1; return false, false; }
        fileSize := currentlyAllocated;
        return true, false;
      }
      GrowArena(arenas, currentlyAllocated, blocks, Growth(bytesRequired));
      currentlyAllocated := currentlyAllocated + newLength - arenas[n].length;
      arenas := arenas[n := arenas[n].(length := newLength)];
      return true, true;
    }

    /** allocateWritable: the loop ends, since an expansion brings the free space
        closer to what is needed and a new arena has enough. */
    method AllocateWritable(bytesRequired: nat, alignment: nat) returns (r: Outcome)
      requires Valid() && alignment > 0
      modifies this
      ensures Valid() && old(blocks) <= blocks
      ensures r == Null <==> bytesRequired == 0
      ensures r.Null? || r.Failed? ==> blocks == old(blocks)
      ensures r.Allocated? || r.Misaligned? ==> Given(old(blocks), old(Mark(arenas)), r.block, r.address, bytesRequired, alignment)
      ensures r.Allocated? ==> Aligned(r.address, alignment)
      ensures r.Misaligned? ==> !Aligned(r.address, alignment)
      ensures old(arenas) != [] && FitsLast(old(arenas), bytesRequired, alignment) ==> !r.Failed?
      ensures r.Failed? && Aligned(Growth(bytesRequired + alignment), PAGE_SIZE) ==> refusals > old(refusals) || !old(Growable())
    {
      if bytesRequired == 0 { return Null; }
      if arenas == [] {
        var ok := CreateNewMappedArena(bytesRequired + alignment);
        if !ok { return Failed; }
      }
      r := AllocateInLast(bytesRequired, alignment);
      while r == Null
        invariant Valid() && (r.Null? || r.Allocated?)
        invariant r == Null ==> arenas != [] && old(Mark(arenas)) <= Mark(arenas)
        invariant r == Null ==> blocks == old(blocks) && Short(arenas, bytesRequired, alignment) > 0
        invariant r.Allocated? ==> Given(old(blocks), old(Mark(arenas)), r.block, r.address, bytesRequired, alignment)
        invariant old(refusals) <= refusals
        invariant r == Null && old(arenas) != [] ==> !FitsLast(old(arenas), bytesRequired, alignment)
        invariant Aligned(Growth(bytesRequired + alignment), PAGE_SIZE) && refusals == old(refusals) && old(Growable()) ==> Growable()
        decreases if r == Null then Short(arenas, bytesRequired, alignment) else 0
      {
        var ok := Grow(bytesRequired, alignment);
        if !ok { return Failed; }
        r := AllocateInLast(bytesRequired, alignment);
      }
      if !Aligned(r.address, alignment) { return Misaligned(r.block, r.address); }
    }

    /** More room: in the last arena, or in a new one. */
    method Grow(bytesRequired: nat, alignment: nat) returns (ok: bool)
      requires Valid() && arenas != [] && Short(arenas, bytesRequired, alignment) > 0
      modifies this`fileSize, this`currentlyAllocated, this`arenas, this`refusals
      ensures Valid() && arenas != [] && old(refusals) <= refusals
      ensures old(Growable()) && refusals == old(refusals) ==> ok && (Aligned(Growth(bytesRequired + alignment), PAGE_SIZE) ==> Growable())
      ensures ok ==> old(Mark(arenas)) <= Mark(arenas)
      ensures ok ==> Short(arenas, bytesRequired, alignment) < old(Short(arenas, bytesRequired, alignment))
    {
      var expanded;
      ok, expanded := ExpandLastMappedArena(bytesRequired + alignment);
      if Aligned(Growth(bytesRequired + alignment), PAGE_SIZE) && Aligned(old(currentlyAllocated), PAGE_SIZE) {
        SumAligned(old(currentlyAllocated), Growth(bytesRequired + alignment), PAGE_SIZE);
      }
      if ok && !expanded { ok := CreateNewMappedArena(bytesRequired + alignment); }
    }

    /** commit; the file then ends where the last block does, or after it. */
    method Commit() returns (ok: bool)
      requires Valid()
      modifies this`fileSize
      ensures Valid() && (!ok ==> fileSize == old(fileSize))
      ensures ok && arenas != [] ==> fileSize == Mark(arenas) && forall i :: 0 <= i < |blocks| ==> BlockEnd(blocks[i]) <= fileSize
    {
      if arenas == [] { return true; }
      var realLength := arenas[|arenas| - 1].startOffset + arenas[|arenas| - 1].currentOffset;
      var truncated: bool := *;
      if !truncated { return false; }
      fileSize := realLength;
      assert forall i :: 0 <= i < |blocks| ==> Inside(blocks[i], arenas);
      return true;
    }
  }

  /** The padded block fits into the last arena. */
  predicate FitsLast(arenas: seq<MappedArena>, bytes: nat, alignment: nat)
    requires arenas != [] && alignment > 0
  {
    var a := arenas[|arenas| - 1];
    a.currentOffset + ExtraBytes(a.currentOffset, alignment) + bytes <= a.length
  }

  /** What the last arena lacks for an allocation, at most. */
  function Short(arenas: seq<MappedArena>, bytes: nat, alignment: nat): int
    requires arenas != []
  {
    var a := arenas[|arenas| - 1];
    a.currentOffset + bytes + alignment - a.length
  }

  lemma MarkBelow(arenas: seq<MappedArena>, total: nat)
    requires Tiling(arenas, total)
    ensures Mark(arenas) <= total
  {
  }

  /** Two blocks given out are apart, whatever happened in between. */
  lemma BlocksApart(serializer: FileSerializer, i: nat, j: nat)
    requires serializer.Valid() && i < |serializer.blocks| && j < |serializer.blocks| && i != j
    ensures var a, b := serializer.blocks[i], serializer.blocks[j];
            a.length > 0 && b.length > 0 && (BlockEnd(a) <= b.start || BlockEnd(b) <= a.start)
  {
    assert Inside(serializer.blocks[i], serializer.arenas) && Inside(serializer.blocks[j], serializer.arenas);
  }

  /** What that costs: from a file of whole pages an expansion that succeeds leaves
      one of whole pages exactly when `GrowthInPages` says so, and otherwise no new
      arena can be mapped behind it, however willing the system is. */
  method ExpandThenCreate(serializer: FileSerializer, bytes: nat, more: nat) returns (expanded: bool, created: bool)
    requires serializer.Valid() && serializer.arenas != [] && Aligned(serializer.currentlyAllocated, PAGE_SIZE)
    modifies serializer
    ensures serializer.Valid()
    ensures expanded && !(Pages(bytes) <= 10000 * PAGE_SIZE || Aligned(Pages(bytes), PAGE_SIZE)) ==>
              !created && |serializer.arenas| == |old(serializer.arenas)|
    ensures expanded && created ==> Aligned(serializer.currentlyAllocated, PAGE_SIZE)
  {
    var ok;
    created := false;
    ghost var whole := serializer.currentlyAllocated;
    ok, expanded := serializer.ExpandLastMappedArena(bytes);
    expanded := ok && expanded;
    OffsetAligned(Growth(bytes), whole, PAGE_SIZE);
    GrowthInPages(bytes);
    if expanded {
      created := serializer.CreateNewMappedArena(more);
      if created { StaysWhole(serializer.currentlyAllocated, whole + Growth(bytes), more); }
    }
  }

  lemma StaysWhole(total: nat, before: nat, more: nat)
    requires total == before + NewLength(more, before) && Aligned(before, PAGE_SIZE)
    ensures Aligned(total, PAGE_SIZE)
  {
    SumAligned(before, NewLength(more, before), PAGE_SIZE);
  }

  /** And the attempt is the last: it may leave the file longer than what is
      allocated, and then the assertion on its length fails in every later growth. */
  method GrowAgain(serializer: FileSerializer, more: nat) returns (created: bool, ok: bool, expanded: bool)
    requires serializer.Valid() && serializer.arenas != [] && !serializer.LengthVerified()
    modifies serializer
    ensures !created && !ok && serializer.fileSize == old(serializer.fileSize) && serializer.currentlyAllocated == old(serializer.currentlyAllocated)
    ensures serializer.Valid() && !serializer.LengthVerified() && serializer.arenas == old(serializer.arenas)
  {
    created := serializer.CreateNewMappedArena(more);
    ok, expanded := serializer.ExpandLastMappedArena(more);
  }

  /** After a commit the last arena still gives out blocks, whenever it has room,
      and every one of them is wholly beyond the end of the file. */
  method AllocateAfterCommit(serializer: FileSerializer, bytes: nat, alignment: nat) returns (ok: bool, r: Outcome)
    requires serializer.Valid() && serializer.arenas != [] && bytes > 0 && alignment > 0
    modifies serializer
    ensures ok ==> var a := old(serializer.arenas)[|old(serializer.arenas)| - 1];
              if a.currentOffset + bytes + ExtraBytes(a.currentOffset, alignment) <= a.length
              then r.Allocated? && r.block.length == bytes && r.block.start >= serializer.fileSize
                   && serializer.blocks == old(serializer.blocks) + [r.block]
              else r.Null?
  {
    ok := serializer.Commit();
    r := serializer.AllocateInLast(bytes, alignment);
  }
}
