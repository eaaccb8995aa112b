/**
 Merging checkpoints into one: their memories are concatenated page by page, physical addresses
 are moved up by the pages before them, and the whole is padded to the requested size.
 */
module CheckpointAggregator {

  import opened Basics

  const PAGE: nat := 4096

  /** Pages in use, the memory image and the physical addresses in its configuration. */
  datatype Checkpoint = Checkpoint(pages: nat, mem: seq<Byte>, paddrs: seq<nat>, tick: nat)

  datatype Merged = Merged(mem: seq<Byte>, paddrs: seq<seq<nat>>, pagePtr: nat, nextPid: nat, rangeSize: nat, tick: nat)

  // ----- What is merged

  /** Pages before checkpoint `i`. */
  function Offset(cpts: seq<Checkpoint>, i: nat): nat
    requires i <= |cpts|
  {
    if i == 0 then 0 else Offset(cpts, i - 1) + cpts[i - 1].pages
  }

  /** Reading `n` pages gives less when the image ends early. */
  function Image(c: Checkpoint, n: nat): seq<Byte> {
    c.mem[..Min(PAGE * n, |c.mem|)]
  }

  function Images(cpts: seq<Checkpoint>, i: nat): seq<Byte>
    requires i <= |cpts|
  {
    if i == 0 then [] else Images(cpts, i - 1) + Image(cpts[i - 1], cpts[i - 1].pages)
  }

  /** The image holds all the pages in use. */
  predicate Full(c: Checkpoint) {
    |c.mem| >= PAGE * c.pages
  }

  function Relocated(paddrs: seq<nat>, pagePtr: nat): seq<nat> {
    if paddrs == [] then [] else Relocated(paddrs[..|paddrs| - 1], pagePtr) + [paddrs[|paddrs| - 1] + PAGE * pagePtr]
  }

  function AllRelocated(cpts: seq<Checkpoint>, i: nat): seq<seq<nat>>
    requires i <= |cpts|
  {
    if i == 0 then [] else AllRelocated(cpts, i - 1) + [Relocated(cpts[i - 1].paddrs, Offset(cpts, i - 1))]
  }

  /** Pages of padding, filled with the character zero. */
  function Padding(n: nat): seq<Byte> {
    seq(PAGE * n, _ => 48)
  }

  function PadPages(pages: nat, memorySize: int): nat {
    var missing := memorySize - PAGE * pages;
    if missing <= 0 then 0 else (missing + PAGE - 1) / PAGE
  }

  function LatestTick(cpts: seq<Checkpoint>, i: nat): nat
    requires i <= |cpts|
  {
    if i == 0 then 0
    else if cpts[i - 1].tick > LatestTick(cpts, i - 1) then cpts[i - 1].tick else LatestTick(cpts, i - 1)
  }

  /** The latest tick of the first `i` checkpoints, or zero. */
  lemma {:induction false} LatestTickIsMax(cpts: seq<Checkpoint>, i: nat)
    requires i <= |cpts|
    ensures forall j :: 0 <= j < i ==> cpts[j].tick <= LatestTick(cpts, i)
    ensures LatestTick(cpts, i) == 0 || exists j :: 0 <= j < i && cpts[j].tick == LatestTick(cpts, i)
  {
    if i > 0 {
      LatestTickIsMax(cpts, i - 1);
    }
  }

  // ----- Merging

  method ReadPages(c: Checkpoint) returns (read: seq<Byte>)
    ensures read == Image(c, c.pages)
  {
    read := [];
    var at, x := 0, 0;
    while x < c.pages
      invariant x <= c.pages && at == Min(PAGE * x, |c.mem|) && read == Image(c, x)
    {
      var n := Min(PAGE, |c.mem| - at);
      read := read + c.mem[at..at + n];
      at := at + n;
      x := x + 1;
    }
  }

  method Relocate(paddrs: seq<nat>, pagePtr: nat) returns (moved: seq<nat>)
    ensures moved == Relocated(paddrs, pagePtr)
  {
    moved := [];
    for k := 0 to |paddrs|
      invariant moved == Relocated(paddrs[..k], pagePtr)
    {
      assert paddrs[..k + 1][..k] == paddrs[..k];
      moved := moved + [paddrs[k] + PAGE * pagePtr];
    }
    assert paddrs[..|paddrs|] == paddrs;
  }

  method Collect(cpts: seq<Checkpoint>) returns (pagePtr: nat, mem: seq<Byte>, tick: nat, all: seq<seq<nat>>)
    ensures pagePtr == Offset(cpts, |cpts|) && mem == Images(cpts, |cpts|) && tick == LatestTick(cpts, |cpts|)
    ensures all == AllRelocated(cpts, |cpts|)
  {
    pagePtr, mem, tick, all := 0, [], 0, [];
    for i := 0 to |cpts|
      invariant pagePtr == Offset(cpts, i) && mem == Images(cpts, i) && tick == LatestTick(cpts, i)
      invariant all == AllRelocated(cpts, i)
    {
      var moved := Relocate(cpts[i].paddrs, pagePtr);
      all := all + [moved];
      if cpts[i].tick > tick {
        tick := cpts[i].tick;
      }
      pagePtr := pagePtr + cpts[i].pages;
      var read := ReadPages(cpts[i]);
      mem := mem + read;
    }
  }

  method Pad(images: seq<Byte>, pages: nat, memorySize: int) returns (mem: seq<Byte>, pagePtr: nat)
    ensures mem == images + Padding(PadPages(pages, memorySize)) && pagePtr == pages + PadPages(pages, memorySize)
  {
    mem, pagePtr := images, pages;
    var size := PAGE * pages;
    var added := 0;
    assert images + Padding(0) == images;
    while size < memorySize
      invariant pagePtr == pages + added && size == PAGE * pagePtr && added <= PadPages(pages, memorySize)
      invariant mem == images + Padding(added)
      decreases memorySize - size
    {
      PaddingGrows(images, added);
      mem := mem + Padding(1);
      size := size + PAGE;
      pagePtr := pagePtr + 1;
      added := added + 1;
    }
  }

  /** The configuration that the sizes are written to is that of the last checkpoint: there must be one. */
  method Aggregate(cpts: seq<Checkpoint>, memorySize: int) returns (r: Option<Merged>)
    ensures r.None? <==> cpts == []
    ensures r.Some? ==>
      var m, pad := r.value, PadPages(Offset(cpts, |cpts|), memorySize);
      && m.mem == Images(cpts, |cpts|) + Padding(pad)
      && m.pagePtr == Offset(cpts, |cpts|) && m.rangeSize == PAGE * (m.pagePtr + pad)
      && m.nextPid == |cpts| && m.tick == LatestTick(cpts, |cpts|)
      && m.paddrs == AllRelocated(cpts, |cpts|)
    ensures r.Some? ==> (forall c :: c in cpts ==> c.tick <= r.value.tick) &&
                        (r.value.tick == 0 || exists c :: c in cpts && c.tick == r.value.tick)
  {
    LatestTickIsMax(cpts, |cpts|);
    var used, images, tick, all := Collect(cpts);
    if cpts == [] {
      return None;
    }
    var mem, pagePtr := Pad(images, used, memorySize);
    return Some(Merged(mem, all, used, |cpts|, PAGE * pagePtr, tick));
  }

  lemma PaddingGrows(images: seq<Byte>, n: nat)
    ensures images + Padding(n) + Padding(1) == images + Padding(n + 1)
  {
    assert Padding(n) + Padding(1) == Padding(n + 1);
    assert images + Padding(n) + Padding(1) == images + (Padding(n) + Padding(1));
  }

  // ----- Where the bytes are

  ghost predicate FullBefore(cpts: seq<Checkpoint>, i: nat)
    requires i <= |cpts|
  {
    forall j :: 0 <= j < i ==> Full(cpts[j])
  }

  /** A region starts where its addresses were moved to exactly when all images before it are full. */
  lemma {:induction false} StartsIffFull(cpts: seq<Checkpoint>, i: nat)
    requires i <= |cpts|
    ensures |Images(cpts, i)| <= PAGE * Offset(cpts, i)
    ensures |Images(cpts, i)| == PAGE * Offset(cpts, i) <==> FullBefore(cpts, i)
  {
    if i > 0 {
      StartsIffFull(cpts, i - 1);
    }
  }

  lemma {:induction false} ImagesGrow(cpts: seq<Checkpoint>, i: nat, n: nat)
    requires i <= n <= |cpts|
    ensures Images(cpts, i) <= Images(cpts, n)
  {
    if i < n {
      ImagesGrow(cpts, i, n - 1);
    }
  }

  lemma ByteIsKept(cpts: seq<Checkpoint>, i: nat, a: nat, merged: seq<Byte>)
    requires i < |cpts| && FullBefore(cpts, i) && Images(cpts, |cpts|) <= merged
    requires a < |cpts[i].mem| && a < PAGE * cpts[i].pages
    ensures a + PAGE * Offset(cpts, i) < |merged| && merged[a + PAGE * Offset(cpts, i)] == cpts[i].mem[a]
  {
    StartsIffFull(cpts, i);
    ImagesGrow(cpts, i + 1, |cpts|);
    var images := Images(cpts, i + 1);
    assert images[a + PAGE * Offset(cpts, i)] == Image(cpts[i], cpts[i].pages)[a];
  }

  lemma {:induction false} RelocatedAt(paddrs: seq<nat>, pagePtr: nat, k: nat)
    requires k < |paddrs|
    ensures |Relocated(paddrs, pagePtr)| == |paddrs| && Relocated(paddrs, pagePtr)[k] == paddrs[k] + PAGE * pagePtr
  {
    if |paddrs| > 1 {
      RelocatedAt(paddrs[..|paddrs| - 1], pagePtr, if k < |paddrs| - 1 then k else 0);
    }
  }

  lemma {:induction false} AllRelocatedAt(cpts: seq<Checkpoint>, n: nat, i: nat)
    requires i < n <= |cpts|
    ensures |AllRelocated(cpts, n)| == n && AllRelocated(cpts, n)[i] == Relocated(cpts[i].paddrs, Offset(cpts, i))
  {
    if n > 1 {
      AllRelocatedAt(cpts, n - 1, if i < n - 1 then i else 0);
    }
  }

  /** The merged memory at a relocated address holds the byte the checkpoint had at the original one. */
  lemma ReadsBack(cpts: seq<Checkpoint>, i: nat, k: nat, merged: seq<Byte>)
    requires i < |cpts| && FullBefore(cpts, i) && Images(cpts, |cpts|) <= merged
    requires k < |cpts[i].paddrs| && cpts[i].paddrs[k] < |cpts[i].mem| && cpts[i].paddrs[k] < PAGE * cpts[i].pages
    ensures var all := AllRelocated(cpts, |cpts|);
      |all| == |cpts| && |all[i]| == |cpts[i].paddrs| && all[i][k] < |merged|
      && merged[all[i][k]] == cpts[i].mem[cpts[i].paddrs[k]]
  {
    AllRelocatedAt(cpts, |cpts|, i);
    RelocatedAt(cpts[i].paddrs, Offset(cpts, i), k);
    ByteIsKept(cpts, i, cpts[i].paddrs[k], merged);
  }

  /** Regions follow one another without overlap. */
  lemma {:induction false} RegionsDisjoint(cpts: seq<Checkpoint>, i: nat, j: nat)
    requires i < j <= |cpts|
    ensures Offset(cpts, i) + cpts[i].pages <= Offset(cpts, j)
  {
    if i < j - 1 {
      RegionsDisjoint(cpts, i, j - 1);
    }
  }

  /** The range covers the requested size, by less than a page if padded, and the file fills it if all images are full. */
  lemma RangeCovers(cpts: seq<Checkpoint>, memorySize: int)
    ensures var pages := Offset(cpts, |cpts|);
      var pad := PadPages(pages, memorySize);
      && PAGE * (pages + pad) >= memorySize
      && (pad > 0 ==> PAGE * (pages + pad) < memorySize + PAGE)
      && (|Images(cpts, |cpts|) + Padding(pad)| == PAGE * (pages + pad) <==> FullBefore(cpts, |cpts|))
  {
    StartsIffFull(cpts, |cpts|);
  }

  /**
   In bytes: an image is read up to 4096 bytes a page, addresses move up by 4096 a page, and what is
   added at the end is whole pages of the character `0`, as many as the size asks for.
   */
  lemma InBytes(cpts: seq<Checkpoint>, memorySize: int, i: nat, k: nat, n: nat)
    requires i < |cpts| && k < |cpts[i].paddrs|
    ensures |Image(cpts[i], cpts[i].pages)| == if |cpts[i].mem| < 4096 * cpts[i].pages then |cpts[i].mem| else 4096 * cpts[i].pages
    ensures Relocated(cpts[i].paddrs, n) != [] && |Relocated(cpts[i].paddrs, n)| == |cpts[i].paddrs|
    ensures Relocated(cpts[i].paddrs, n)[k] == cpts[i].paddrs[k] + 4096 * n
    ensures |Padding(n)| == 4096 * n && forall j :: 0 <= j < |Padding(n)| ==> Padding(n)[j] == '0' as int
    ensures PadPages(n, memorySize) == 0 <==> memorySize <= 4096 * n
    ensures PadPages(n, memorySize) > 0 ==> 4096 * (n + PadPages(n, memorySize) - 1) < memorySize <= 4096 * (n + PadPages(n, memorySize))
  {
    RelocatedAt(cpts[i].paddrs, n, k);
  }
}
