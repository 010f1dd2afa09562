/** Where `create` puts a new file: the scan over the directory sorted by starting block, and when it is the
    first fit it is meant to be. */
module BmfsPlacement {
  import opened Wrappers
  import opened Words
  import opened BmfsEntries

  // ---- the parts of the directory

  /** The number of entries before the end mark, 64 when there is none. */
  function UsedFrom(dir: seq<Entry>, i: nat): (n: nat)
    requires i <= |dir|
    ensures i <= n <= |dir|
    ensures forall j :: i <= j < n ==> !IsEnd(dir[j])
    ensures n < |dir| ==> IsEnd(dir[n])
    decreases |dir| - i
  {
    if i == |dir| || IsEnd(dir[i]) then i else UsedFrom(dir, i + 1)
  }

  function Used(dir: seq<Entry>): (n: nat)
    ensures n <= |dir|
    ensures forall j :: 0 <= j < n ==> !IsEnd(dir[j])
    ensures n < |dir| ==> IsEnd(dir[n])
  {
    UsedFrom(dir, 0)
  }

  predicate Live(dir: seq<Entry>, i: nat) {
    i < Used(dir) && !IsDeleted(dir[i])
  }

  /** The first block after the file. */
  function End(e: Entry): U64 {
    Add64(e.start, e.reserved)
  }

  // ---- the comparator and what qsort makes of it

  /** Narrowing of a 64-bit difference to `int`. */
  function ToInt32(v: U64): int {
    var w := v % 0x1_0000_0000;
    if w < 0x8000_0000 then w else w - 0x1_0000_0000
  }

  function StartingBlockCmp(a: Entry, b: Entry): int {
    if IsDeleted(a) then 1
    else if IsDeleted(b) then -1
    else ToInt32(Sub64(a.start, b.start))
  }

  /** Live entries come before deleted ones and by ascending start among themselves. */
  predicate Ordered(a: Entry, b: Entry) {
    IsDeleted(b) || (!IsDeleted(a) && a.start <= b.start)
  }

  /** The narrowing does no harm below 2^31 blocks. */
  lemma ComparatorOrders(a: Entry, b: Entry)
    requires a.start < 0x8000_0000 && b.start < 0x8000_0000
    requires !(IsDeleted(a) && IsDeleted(b))
    ensures StartingBlockCmp(a, b) <= 0 <==> Ordered(a, b)
    ensures StartingBlockCmp(a, b) < 0 <==> StartingBlockCmp(b, a) > 0
  {
  }

  /** Past it the comparator can order two files the wrong way round. */
  lemma ComparatorNarrows(a: Entry, b: Entry)
    requires !IsDeleted(a) && !IsDeleted(b) && a.start == 1 && b.start == 0x8000_0002
    ensures StartingBlockCmp(a, b) > 0 && a.start < b.start
  {
  }

  /** `order` lists every index below n once. */
  predicate IsPermutation(order: seq<nat>, n: nat) {
    && |order| == n
    && (forall i :: 0 <= i < n ==> order[i] < n)
    && (forall i, j :: 0 <= i < j < n ==> order[i] != order[j])
    && (forall x :: 0 <= x < n ==> x in order)
  }

  function Arranged(dir: seq<Entry>, order: seq<nat>): (s: seq<Entry>)
    requires forall i :: 0 <= i < |order| ==> order[i] < |dir|
    ensures |s| == |order|
  {
    seq(|order|, i requires 0 <= i < |order| => dir[order[i]])
  }

  /** A possible outcome of qsort: no entry compares greater than a later one. Two deleted entries always
      compare greater, so their order is up to the library. */
  predicate IsSorted(s: seq<Entry>) {
    forall i, j :: 0 <= i < j < |s| ==> InOrder(s, i, j)
  }

  predicate InOrder(s: seq<Entry>, i: nat, j: nat)
    requires i < j < |s|
  {
    StartingBlockCmp(s[i], s[j]) <= 0 || (IsDeleted(s[i]) && IsDeleted(s[j]))
  }

  // ---- the scan

  /** The loop of `create` from entry k of the sorted copy on. 0 stands for no room. */
  function Scan(s: seq<Entry>, k: nat, prevEnd: U64, blocks: U64, requested: U64): (start: U64)
    requires k <= |s|
    decreases |s| - k
  {
    var thisStart := if k == |s| || IsDeleted(s[k]) then Sub64(blocks, 1) else s[k].start;
    if Sub64(thisStart, prevEnd) >= requested then prevEnd
    else if k == |s| then 0
    else Scan(s, k + 1, End(s[k]), blocks, requested)
  }

  // ---- what the scan is meant to find

  /** A live file lies in the data area. */
  predicate InDataArea(e: Entry, blocks: nat) {
    1 <= e.start && 1 <= e.reserved && e.start + e.reserved + 1 <= blocks
  }

  predicate Apart(a: Entry, b: Entry) {
    a.start + a.reserved <= b.start || b.start + b.reserved <= a.start
  }

  predicate ApartAt(dir: seq<Entry>, i: nat, j: nat) {
    i < |dir| && j < |dir| && i != j && !IsDeleted(dir[i]) && !IsDeleted(dir[j]) ==> Apart(dir[i], dir[j])
  }

  predicate InAreaAt(dir: seq<Entry>, i: nat, blocks: nat) {
    i < |dir| && !IsDeleted(dir[i]) ==> InDataArea(dir[i], blocks)
  }

  /** The live files lie in the data area and do not overlap. */
  predicate ExtentsOk(s: seq<Entry>, blocks: nat) {
    && (forall i :: 0 <= i < |s| ==> InAreaAt(s, i, blocks))
    && (forall i, j :: 0 <= i < |s| && 0 <= j < |s| ==> ApartAt(s, i, j))
  }

  predicate ClearOf(s: seq<Entry>, i: nat, p: nat, requested: nat) {
    i < |s| && !IsDeleted(s[i]) ==> p + requested <= s[i].start || s[i].start + s[i].reserved <= p
  }

  /** [p, p + requested) lies in the data area and meets no live file. */
  predicate Fits(s: seq<Entry>, p: nat, blocks: nat, requested: nat) {
    1 <= p && p + requested + 1 <= blocks && forall i :: 0 <= i < |s| ==> ClearOf(s, i, p, requested)
  }

  /** The first of the entries from k on whose stale end leaves room before the last block. */
  function StaleRoom(s: seq<Entry>, k: nat, blocks: U64, requested: U64): (start: U64)
    requires k <= |s|
    decreases |s| - k
  {
    if k == |s| then 0
    else if Sub64(Sub64(blocks, 1), End(s[k])) >= requested then End(s[k])
    else StaleRoom(s, k + 1, blocks, requested)
  }

  /** How the scan stands before entry k: nothing fits before `prevEnd`, and the files passed end there. */
  predicate Scanned(s: seq<Entry>, k: nat, prevEnd: nat, blocks: nat, requested: nat) {
    && k <= |s| && 1 <= prevEnd && prevEnd < blocks
    && (forall i :: 0 <= i < k ==> PassedAt(s, i, prevEnd))
    && (forall i :: k <= i < |s| ==> AheadAt(s, i, prevEnd))
    && (forall p :: 1 <= p < prevEnd ==> !Fits(s, p, blocks, requested))
  }

  predicate PassedAt(s: seq<Entry>, i: nat, prevEnd: nat) {
    i < |s| ==> !IsDeleted(s[i]) && s[i].start + s[i].reserved <= prevEnd
  }

  predicate AheadAt(s: seq<Entry>, i: nat, prevEnd: nat) {
    i < |s| && !IsDeleted(s[i]) ==> prevEnd <= s[i].start
  }

  /** A file in sorted order begins where or after the ones before it end. */
  lemma LaterStartsAfter(s: seq<Entry>, i: nat, j: nat, blocks: nat)
    requires i < j < |s| && IsSorted(s) && ExtentsOk(s, blocks) && blocks < 0x8000_0000 && !IsDeleted(s[j])
    ensures !IsDeleted(s[i]) && s[i].start + s[i].reserved <= s[j].start
  {
    assert InOrder(s, i, j) && InAreaAt(s, j, blocks) && InAreaAt(s, i, blocks) && ApartAt(s, i, j);
    if !IsDeleted(s[i]) { ComparatorOrders(s[i], s[j]); }
  }

  /** Behind a deleted entry there are only deleted ones. */
  lemma DeletedStayBehind(s: seq<Entry>, k: nat, i: nat, blocks: nat)
    requires k <= i < |s| && IsSorted(s) && ExtentsOk(s, blocks) && blocks < 0x8000_0000 && IsDeleted(s[k])
    ensures IsDeleted(s[i])
  {
    if k < i && !IsDeleted(s[i]) { LaterStartsAfter(s, k, i, blocks); }
  }

  /** Past entry k the scan stands at its end. */
  lemma ScanPasses(s: seq<Entry>, k: nat, prevEnd: nat, blocks: nat, requested: nat)
    requires IsSorted(s) && ExtentsOk(s, blocks) && blocks < 0x8000_0000 && 1 <= requested
    requires Scanned(s, k, prevEnd, blocks, requested) && k < |s| && !IsDeleted(s[k])
    requires s[k].start < prevEnd + requested
    ensures prevEnd <= s[k].start && Scanned(s, k + 1, s[k].start + s[k].reserved, blocks, requested)
  {
    var end := s[k].start + s[k].reserved;
    assert InAreaAt(s, k, blocks);
    forall i | 0 <= i < k + 1 ensures PassedAt(s, i, end) {
      if i < k { LaterStartsAfter(s, i, k, blocks); }
    }
    forall i | k + 1 <= i < |s| ensures AheadAt(s, i, end) {
      if !IsDeleted(s[i]) { LaterStartsAfter(s, k, i, blocks); }
    }
    assert AheadAt(s, k, prevEnd);
    forall p | 1 <= p < end ensures !Fits(s, p, blocks, requested) {
      assert p < prevEnd || !ClearOf(s, k, p, requested);
    }
  }

  /** What the scan has found is the lowest place that fits. */
  predicate LowestFit(s: seq<Entry>, p: nat, blocks: nat, requested: nat) {
    Fits(s, p, blocks, requested) && forall q :: 1 <= q < p ==> !Fits(s, q, blocks, requested)
  }

  predicate NothingFits(s: seq<Entry>, blocks: nat, requested: nat) {
    forall q :: 1 <= q < blocks ==> !Fits(s, q, blocks, requested)
  }

  /** A gap that is big enough is the lowest one. */
  lemma GapIsLowest(s: seq<Entry>, k: nat, prevEnd: nat, thisStart: nat, blocks: nat, requested: nat)
    requires IsSorted(s) && ExtentsOk(s, blocks) && blocks < 0x8000_0000
    requires Scanned(s, k, prevEnd, blocks, requested) && prevEnd + requested <= thisStart
    requires thisStart == if k == |s| || IsDeleted(s[k]) then blocks - 1 else s[k].start
    ensures LowestFit(s, prevEnd, blocks, requested)
  {
    if k < |s| { assert InAreaAt(s, k, blocks); }
    forall i | 0 <= i < |s| ensures ClearOf(s, i, prevEnd, requested) {
      if i < k {
        assert PassedAt(s, i, prevEnd);
      } else if IsDeleted(s[k]) {
        DeletedStayBehind(s, k, i, blocks);
      } else if i > k && !IsDeleted(s[i]) {
        LaterStartsAfter(s, k, i, blocks);
      }
    }
  }

  /** When the last gap is too small as well nothing fits. */
  lemma LastGapTooSmall(s: seq<Entry>, k: nat, prevEnd: nat, blocks: nat, requested: nat)
    requires Scanned(s, k, prevEnd, blocks, requested) && blocks - 1 < prevEnd + requested
    ensures NothingFits(s, blocks, requested)
  {
    forall q | 1 <= q < blocks ensures !Fits(s, q, blocks, requested) {
      assert q < prevEnd || q + requested + 1 > blocks;
    }
  }

  /** Among the deleted entries the scan goes by their stale ends. */
  lemma {:induction false} ScanOfDeleted(s: seq<Entry>, k: nat, blocks: U64, requested: U64)
    requires k < |s| && IsDeleted(s[k]) && IsSorted(s) && ExtentsOk(s, blocks) && blocks < 0x8000_0000
    ensures Scan(s, k + 1, End(s[k]), blocks, requested) == StaleRoom(s, k, blocks, requested)
    decreases |s| - k
  {
    if k + 1 < |s| {
      DeletedStayBehind(s, k, k + 1, blocks);
      ScanOfDeleted(s, k + 1, blocks, requested);
    }
  }

  /** From a place the scan can be at, it finds the lowest fit; when there is none it goes by the deleted
      entries. */
  lemma {:induction false} ScanFinds(s: seq<Entry>, k: nat, prevEnd: U64, blocks: U64, requested: U64)
    requires IsSorted(s) && ExtentsOk(s, blocks) && blocks < 0x8000_0000 && 1 <= requested < 0x8000_0000
    requires Scanned(s, k, prevEnd, blocks, requested)
    ensures var start := Scan(s, k, prevEnd, blocks, requested);
            LowestFit(s, start, blocks, requested)
            || (&& NothingFits(s, blocks, requested)
                && exists m: nat ::
                     m <= |s| && FirstDeleted(s, m) && start == StaleRoom(s, m, blocks, requested))
    decreases |s| - k
  {
    var thisStart := if k == |s| || IsDeleted(s[k]) then Sub64(blocks, 1) else s[k].start;
    if k < |s| { assert AheadAt(s, k, prevEnd) && InAreaAt(s, k, blocks); }
    if prevEnd + requested <= thisStart {
      GapIsLowest(s, k, prevEnd, thisStart, blocks, requested);
    } else if k < |s| && !IsDeleted(s[k]) {
      ScanPasses(s, k, prevEnd, blocks, requested);
      ScanFinds(s, k + 1, End(s[k]), blocks, requested);
    } else {
      LastGapTooSmall(s, k, prevEnd, blocks, requested);
      forall i | 0 <= i < k ensures NotDeletedAt(s, i) { assert PassedAt(s, i, prevEnd); }
      assert FirstDeleted(s, k);
      if k < |s| { ScanOfDeleted(s, k, blocks, requested); }
    }
  }

  predicate NotDeletedAt(s: seq<Entry>, i: nat) {
    i < |s| ==> !IsDeleted(s[i])
  }

  predicate FirstDeleted(s: seq<Entry>, m: nat) {
    m <= |s| && (m < |s| ==> IsDeleted(s[m])) && forall i :: 0 <= i < m ==> NotDeletedAt(s, i)
  }

  // ---- back to the directory itself

  /** What `num_used_entries` is set to: nothing when no entry has the end mark. */
  function NumUsed(dir: seq<Entry>): (n: nat)
    ensures n <= |dir|
  {
    if Used(dir) < |dir| then Used(dir) else 0
  }

  /** A directory copy sorted by qsort: `order` says which entry went where. */
  predicate SortedBy(dir: seq<Entry>, order: seq<nat>) {
    IsPermutation(order, NumUsed(dir)) && IsSorted(Arranged(dir, order))
  }

  function Place(dir: seq<Entry>, order: seq<nat>, blocks: U64, requested: U64): U64
    requires SortedBy(dir, order)
  {
    Scan(Arranged(dir, order), 0, 1, blocks, requested)
  }

  /** Sorting changes neither the extents nor what fits between them. */
  lemma SortingKeepsExtents(dir: seq<Entry>, order: seq<nat>, blocks: nat)
    requires IsPermutation(order, |dir|) && ExtentsOk(dir, blocks)
    ensures ExtentsOk(Arranged(dir, order), blocks)
  {
    var s := Arranged(dir, order);
    forall i | 0 <= i < |s| ensures InAreaAt(s, i, blocks) { assert InAreaAt(dir, order[i], blocks); }
    forall i, j | 0 <= i < |s| && 0 <= j < |s| ensures ApartAt(s, i, j) {
      assert ApartAt(dir, order[i], order[j]);
      assert i < j ==> order[i] != order[j];
      assert j < i ==> order[j] != order[i];
    }
  }

  lemma SortingKeepsFits(dir: seq<Entry>, order: seq<nat>, p: nat, blocks: nat, requested: nat)
    requires IsPermutation(order, |dir|)
    ensures Fits(Arranged(dir, order), p, blocks, requested) <==> Fits(dir, p, blocks, requested)
  {
    var s := Arranged(dir, order);
    if Fits(s, p, blocks, requested) {
      forall x | 0 <= x < |dir| ensures ClearOf(dir, x, p, requested) {
        assert x in order;
        var i :| 0 <= i < |order| && order[i] == x;
        assert ClearOf(s, i, p, requested);
      }
    }
    if Fits(dir, p, blocks, requested) {
      forall i | 0 <= i < |s| ensures ClearOf(s, i, p, requested) { assert ClearOf(dir, order[i], p, requested); }
    }
  }

  /** The start `create` has settled on is the lowest that fits, or 0 when none does. */
  predicate PlacedWell(live: seq<Entry>, start: nat, blocks: nat, requested: nat) {
    if start == 0 then NothingFits(live, blocks, requested) else LowestFit(live, start, blocks, requested)
  }

  /** A deleted entry whose stale end leaves room before the last block. */
  predicate LeavesRoom(dir: seq<Entry>, i: nat, blocks: U64, requested: U64) {
    i < |dir| && IsDeleted(dir[i]) && Sub64(Sub64(blocks, 1), End(dir[i])) >= requested
  }

  /** No entry is reserved so oddly that it would end at block 0. */
  predicate EndsPositive(dir: seq<Entry>) {
    forall i :: 0 <= i < |dir| ==> End(dir[i]) > 0
  }

  lemma {:induction false} StaleRoomIff(s: seq<Entry>, k: nat, blocks: U64, requested: U64)
    requires k <= |s| && EndsPositive(s) && forall i :: k <= i < |s| ==> IsDeleted(s[i])
    ensures StaleRoom(s, k, blocks, requested) > 0 <==> exists i :: k <= i < |s| && LeavesRoom(s, i, blocks, requested)
    decreases |s| - k
  {
    if k < |s| {
      if Sub64(Sub64(blocks, 1), End(s[k])) >= requested {
        assert LeavesRoom(s, k, blocks, requested);
      } else {
        StaleRoomIff(s, k + 1, blocks, requested);
        assert !LeavesRoom(s, k, blocks, requested);
      }
    }
  }

  lemma SortingKeepsRoom(dir: seq<Entry>, order: seq<nat>, blocks: U64, requested: U64)
    requires IsPermutation(order, |dir|)
    ensures (exists i :: 0 <= i < |dir| && LeavesRoom(dir, i, blocks, requested)) <==>
            exists i :: 0 <= i < |dir| && LeavesRoom(Arranged(dir, order), i, blocks, requested)
  {
    var s := Arranged(dir, order);
    if x :| 0 <= x < |dir| && LeavesRoom(dir, x, blocks, requested) {
      assert x in order;
      var i :| 0 <= i < |order| && order[i] == x;
      assert LeavesRoom(s, i, blocks, requested);
    }
    if i :| 0 <= i < |dir| && LeavesRoom(s, i, blocks, requested) {
      assert LeavesRoom(dir, order[i], blocks, requested);
    }
  }

  /** The scan of a sorted list of entries, taken together. */
  lemma ScanPlacesWellIff(s: seq<Entry>, blocks: U64, requested: U64)
    requires IsSorted(s) && ExtentsOk(s, blocks) && EndsPositive(s) && 2 <= blocks < 0x8000_0000
    requires 1 <= requested < 0x8000_0000
    ensures var start := Scan(s, 0, 1, blocks, requested);
            && (!NothingFits(s, blocks, requested) ==> LowestFit(s, start, blocks, requested))
            && (NothingFits(s, blocks, requested) ==>
                  (start > 0 <==> exists i :: 0 <= i < |s| && LeavesRoom(s, i, blocks, requested)))
  {
    forall i | 0 <= i < |s| ensures AheadAt(s, i, 1) { assert InAreaAt(s, i, blocks); }
    ScanFinds(s, 0, 1, blocks, requested);
    var start := Scan(s, 0, 1, blocks, requested);
    if NothingFits(s, blocks, requested) {
      assert LowestFit(s, start, blocks, requested) ==> Fits(s, start, blocks, requested);
      var m: nat :| m <= |s| && FirstDeleted(s, m) && start == StaleRoom(s, m, blocks, requested);
      forall i | m <= i < |s| ensures IsDeleted(s[i]) { DeletedStayBehind(s, m, i, blocks); }
      StaleRoomIff(s, m, blocks, requested);
      forall i | 0 <= i < m ensures !LeavesRoom(s, i, blocks, requested) { assert NotDeletedAt(s, i); }
    }
  }

  /** With an end mark in the directory, `create` takes the lowest gap that is big enough, whatever deleted
      entries there are. It goes wrong exactly when no gap is big enough and a deleted entry once ended low
      enough: then it puts the file there. */
  lemma PlacedWellIff(dir: seq<Entry>, order: seq<nat>, blocks: U64, requested: U64)
    requires Used(dir) < |dir| && SortedBy(dir, order) && 2 <= blocks < 0x8000_0000 && 1 <= requested < 0x8000_0000
    requires ExtentsOk(dir[..Used(dir)], blocks) && EndsPositive(dir[..Used(dir)])
    ensures var live, start := dir[..Used(dir)], Place(dir, order, blocks, requested);
            && (!NothingFits(live, blocks, requested) ==> LowestFit(live, start, blocks, requested))
            && (PlacedWell(live, start, blocks, requested) <==>
                !(&& NothingFits(live, blocks, requested)
                  && exists i :: 0 <= i < |live| && LeavesRoom(live, i, blocks, requested)))
  {
    var live := dir[..Used(dir)];
    var s := Arranged(live, order);
    assert s == Arranged(dir, order);
    SortingKeepsExtents(live, order, blocks);
    SortingKeepsRoom(live, order, blocks, requested);
    forall i | 0 <= i < |s| ensures End(s[i]) > 0 { assert End(live[order[i]]) > 0; }
    ScanPlacesWellIff(s, blocks, requested);
    forall p: nat ensures Fits(s, p, blocks, requested) <==> Fits(live, p, blocks, requested) {
      SortingKeepsFits(live, order, p, blocks, requested);
    }
  }

  /** Without an end mark the count of used entries stays 0 and every file goes to block 1. */
  lemma NoEndMarkPlacedWellIff(dir: seq<Entry>, order: seq<nat>, blocks: U64, requested: U64)
    requires Used(dir) == |dir| && SortedBy(dir, order) && 2 <= blocks < 0x8000_0000 && 1 <= requested < 0x8000_0000
    ensures var start := Place(dir, order, blocks, requested);
            && start == (if requested + 2 <= blocks then 1 else 0)
            && (PlacedWell(dir, start, blocks, requested) <==>
                requested + 2 <= blocks ==> Fits(dir, 1, blocks, requested))
  {
  }

  // ---- two directories for which `create` goes wrong

  function Sample(first: Byte, start: U64, reserved: U64): (e: Entry)
    ensures EntryOk(e) && e.fileName[0] == first
  {
    Entry([first] + seq(31, i => 0), start, reserved, 0, 0)
  }

  /** A file over the whole data area of six blocks, and a deleted one that ended at block 2. */
  function FullVolume(): (dir: seq<Entry>)
    ensures |dir| == 64 && dir[0] == Sample(65, 1, 4) && dir[1] == Sample(1, 1, 1)
    ensures forall i :: 2 <= i < 64 ==> dir[i] == Sample(0, 0, 0)
  {
    [Sample(65, 1, 4), Sample(1, 1, 1)] + seq(62, i => Sample(0, 0, 0))
  }

  /** The new file lands inside the live one, at the stale end of the deleted one. */
  lemma StaleExtentMisplaces()
    ensures var dir := FullVolume();
            && Used(dir) == 2 && ExtentsOk(dir[..2], 6) && EndsPositive(dir[..2]) && SortedBy(dir, [0, 1])
            && Place(dir, [0, 1], 6, 1) == 2 && !Fits(dir[..2], 2, 6, 1)
  {
    var dir, order := FullVolume(), [0, 1];
    assert IsEnd(dir[2]) && !IsEnd(dir[0]) && !IsEnd(dir[1]);
    assert Used(dir) == 2;
    assert ExtentsOk(dir[..2], 6) by {
      assert InAreaAt(dir[..2], 0, 6);
    }
    assert order[0] == 0 && order[1] == 1 && 0 in order && 1 in order;
    var s := Arranged(dir, order);
    assert s == [dir[0], dir[1]] && InOrder(s, 0, 1);
    assert Scan(s, 2, 2, 6, 1) == 2;
    assert Scan(s, 1, 5, 6, 1) == Scan(s, 2, 2, 6, 1);
    assert !ClearOf(dir[..2], 0, 2, 1);
  }

  /** All 64 entries used, the last of them deleted: the new file lands on block 1, on top of the file there. */
  function NoEndMark(): (dir: seq<Entry>)
    ensures |dir| == 64 && dir[63] == Sample(1, 64, 1)
    ensures forall i :: 0 <= i < 63 ==> dir[i] == Sample(65, i + 1, 1)
  {
    seq(63, i requires 0 <= i < 63 => Sample(65, i + 1, 1)) + [Sample(1, 64, 1)]
  }

  lemma MissingEndMarkMisplaces()
    ensures var dir := NoEndMark();
            && ExtentsOk(dir, 200) && SortedBy(dir, [])
            && Place(dir, [], 200, 1) == 1 && !Fits(dir, 1, 200, 1) && Fits(dir, 64, 200, 1)
  {
    var dir := NoEndMark();
    assert forall i :: 0 <= i < 64 ==> dir[i].fileName[0] != 0;
    assert Used(dir) == 64;
    assert !ClearOf(dir, 0, 1, 1);
    forall i | 0 <= i < 64 ensures ClearOf(dir, i, 64, 1) && InAreaAt(dir, i, 200) { }
  }
}
