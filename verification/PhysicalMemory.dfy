/**
  The page frame allocator as memory/memory.c edits it: the links of the free list are written
  through two frame windows, kernel page table entries that are moved from frame to frame.
 */
module PhysicalMemory {
  import opened Hardware
  import opened FrameList

  class Memory {
    const pages: array<Page>          // physical memory, one element a frame
    const counts: array<int>          // frc_table
    const kernelTable: array<PTE>     // kernel_page_table, windows included
    var headNext: int                 // frame_head
    var headPrev: int
    ghost var free: seq<nat>          // the sequence that the links spell out

    ghost function View(): Phys
      reads this, pages, counts
    {
      Phys(pages[..], counts[..], headNext, headPrev, free)
    }

    ghost predicate Valid()
      reads this, pages, counts
    {
      kernelTable.Length == TABLE_LEN && WellFormed(View())
    }

    constructor (pages: array<Page>, counts: array<int>, kernelTable: array<PTE>)
      requires kernelTable.Length == TABLE_LEN
      ensures this.pages == pages && this.counts == counts && this.kernelTable == kernelTable
      ensures headNext == headPrev == FRAME_HEAD && free == []
    {
      this.pages, this.counts, this.kernelTable := pages, counts, kernelTable;
      headNext, headPrev, free := FRAME_HEAD, FRAME_HEAD, [];
    }

    /** frame_window_pte(i) = createPTEWithOptions(options, frame) */
    method MoveWindow(i: nat, frame: nat)
      requires i < 3 && kernelTable.Length == TABLE_LEN
      modifies kernelTable
      ensures kernelTable[..] == old(kernelTable[..])[WINDOW_BASE_PAGE + i := PTE(DATA_FLAGS, frame)]
    {
      kernelTable[WINDOW_BASE_PAGE + i] := PTE(DATA_FLAGS, frame);
    }

    /** The frame that accesses to frame_window(i) reach. */
    function WindowFrame(i: nat): nat
      requires i < 3 && kernelTable.Length == TABLE_LEN
      reads kernelTable
    {
      kernelTable[WINDOW_BASE_PAGE + i].pfn
    }

    /** memcpy of a whole page into a window. */
    method CopyToWindow(i: nat, source: nat)
      requires i < 3 && kernelTable.Length == TABLE_LEN
      requires WindowFrame(i) < pages.Length && source < pages.Length
      modifies pages
      ensures pages[..] == old(pages[..])[WindowFrame(i) := old(pages[source])]
    {
      pages[WindowFrame(i)] := pages[source];
    }

    method WriteWindow(i: nat, word: nat, value: int)
      requires i < 3 && kernelTable.Length == TABLE_LEN && word < PAGE_WORDS
      requires WindowFrame(i) < pages.Length
      modifies pages
      ensures pages[..] == SetWord(old(pages[..]), WindowFrame(i), word, value)
    {
      var frame := WindowFrame(i);
      pages[frame] := pages[frame][word := value];
    }

    /** Returns the address of a frame, 0 when there is none left; the two are told apart as long as
        frame 0, the kernel's first, is not on the list. */
    method AllocatePageFrame() returns (frame: int)
      requires Valid()
      modifies this, pages, counts, kernelTable
      ensures Valid()
      ensures old(free) == [] ==> frame == 0 && View() == old(View()) && kernelTable[..] == old(kernelTable[..])
      ensures old(free) != [] ==> frame == PageAtIndex(old(free)[0]) && View() == Alloc(old(View()))
      ensures 0 !in old(free) ==> (frame == 0 <==> old(free) == [])
      ensures kernelTable[..WINDOW_BASE_PAGE] == old(kernelTable[..WINDOW_BASE_PAGE])
      ensures kernelTable[STACK_BASE_PAGE..] == old(kernelTable[STACK_BASE_PAGE..])
    {
      if headNext == FRAME_HEAD {
        return 0;
      }
      ghost var m := View();
      AllocKeepsWellFormed(m);
      frame := headNext;
      MoveWindow(0, IndexOfPage(headNext));
      counts[IndexOfPage(headNext)] := 1;
      var next := pages[WindowFrame(0)][NEXT];
      if next == FRAME_HEAD {
        headPrev := FRAME_HEAD;
        headNext := FRAME_HEAD;
      } else {
        MoveWindow(1, IndexOfPage(next));
        headNext := next;
        WriteWindow(1, PREV, FRAME_HEAD);
      }
      free := free[1..];
      assert View() == Alloc(m);
    }

    /** Drops one reference; the last one puts the frame at the front of the list. */
    method FreePageFrame(frame: int)
      requires Valid()
      requires 0 <= frame && frame == PageAtIndex(IndexOfPage(frame)) && IndexOfPage(frame) < counts.Length
      requires counts[IndexOfPage(frame)] >= 1
      modifies this, pages, counts, kernelTable
      ensures Valid()
      ensures View() == Release(old(View()), IndexOfPage(frame))
      ensures kernelTable[..WINDOW_BASE_PAGE] == old(kernelTable[..WINDOW_BASE_PAGE])
      ensures kernelTable[STACK_BASE_PAGE..] == old(kernelTable[STACK_BASE_PAGE..])
    {
      ghost var m := View();
      ghost var f := IndexOfPage(frame);
      ReleaseKeepsWellFormed(m, f);
      counts[IndexOfPage(frame)] := counts[IndexOfPage(frame)] - 1;
      if counts[IndexOfPage(frame)] > 0 {
        return;
      }
      MoveWindow(0, IndexOfPage(frame));
      var next := headNext;
      headNext := frame;
      WriteWindow(0, PREV, FRAME_HEAD);
      if next == FRAME_HEAD {
        assert m.free == [];
        headPrev := frame;
        WriteWindow(0, NEXT, FRAME_HEAD);
        free := [f] + free;
        assert View() == Release(m, f);
      } else {
        assert m.free != [] && IndexOfPage(next) == m.free[0];
        MoveWindow(1, IndexOfPage(next));
        WriteWindow(0, NEXT, next);
        WriteWindow(1, PREV, frame);
        free := [f] + free;
        assert View() == Release(m, f);
      }
    }
  }
}
