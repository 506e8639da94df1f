/**
brk(2) emulated over a private mapping that is created with mmap(2) and
resized with mremap(2); its first page is never part of the heap.
 */
module HeapEmulation {
  import opened Pages

  const WORDS: nat := 0x1_0000_0000_0000_0000
  const HALF: nat := 0x1_0000_0000

  // ---------------------------------------------------------------------
  // Answers of the kernel
  // ---------------------------------------------------------------------

  /** The answer for errno `e`. */
  function Errno(e: nat): nat
    requires 1 <= e < 4096
  {
    WORDS - e
  }

  /** (int) result is an errno: only the low half is looked at. */
  predicate ReadsAsErrno(result: nat) {
    result % HALF > HALF - 4096
  }

  ghost predicate Failed(result: nat) {
    exists e :: 1 <= e < 4096 && result == Errno(e)
  }

  /** Errors are recognized, and no aligned address is taken for one. */
  lemma {:induction false} ErrnoIff(result: nat)
    requires Failed(result) || result % 4096 == 0
    ensures ReadsAsErrno(result) <==> Failed(result)
  {
    if Failed(result) {
      var e :| 1 <= e < 4096 && result == Errno(e);
      assert result % HALF == HALF - e;
    } else {
      AlignedIsNoErrno(result);
    }
  }

  lemma {:induction false} AlignedIsNoErrno(result: nat)
    requires result % 4096 == 0
    ensures !ReadsAsErrno(result)
  {
    var q := result / 4096;
    assert result % HALF == 4096 * (q % 0x10_0000);
  }

  // ---------------------------------------------------------------------
  // The emulation
  // ---------------------------------------------------------------------

  datatype Heap = Heap(base: nat, size: nat, disabled: bool)

  /** The syscall that is made in place of brk. */
  datatype Request =
    | Brk(requested: nat)
    | Void
    | Mmap(hint: nat, length: nat)
    | Mremap(address: nat, oldSize: nat, newSize: nat)

  /** translate_brk_enter(): `offset` is the page size, `bss` the end of the program. */
  function Entered(h: Heap, arg: nat, offset: nat, bss: nat): Request
    requires h.base > 0 ==> offset <= h.base
  {
    if h.disabled then Brk(arg)
    else if h.base == 0 then (if arg != 0 then Brk(arg) else Mmap(bss, offset))
    else if arg < h.base then Void
    else Mremap(h.base - offset, h.size + offset, arg - h.base + offset)
  }

  /** translate_brk_exit(): the new heap and what brk returns. */
  function Exited(h: Heap, request: Request, arg: nat, result: nat, offset: nat): (Heap, nat)
    requires request.Mremap? ==> offset <= request.newSize
  {
    if h.disabled then (h, result)
    else
      match request
      case Void => (h, h.base + h.size)
      case Mmap(_, _) =>
        if ReadsAsErrno(result) then (h, 0) else (Heap(result + offset, 0, false), result + offset)
      case Mremap(_, _, newSize) =>
        if ReadsAsErrno(result) || h.base != result + offset then (h, h.base + h.size)
        else (h.(size := newSize - offset), h.base + (newSize - offset))
      case Brk(_) => (if result == arg then h.(disabled := true) else h, result)
  }

  /** The heap of a tracee. */
  class HeapRecord {
    var base: nat
    var size: nat
    var disabled: bool

    constructor ()
      ensures Abstract() == Heap(0, 0, false)
    {
      base, size, disabled := 0, 0, false;
    }

    function Abstract(): Heap
      reads this
    {
      Heap(base, size, disabled)
    }

    method BrkEnter(arg: nat, offset: nat, bss: nat) returns (request: Request)
      requires base > 0 ==> offset <= base
      ensures request == Entered(Abstract(), arg, offset, bss)
    {
      if disabled {
        return Brk(arg);
      }
      if base == 0 {
        if arg != 0 {
          return Brk(arg);
        }
        return Mmap(bss, offset);
      }
      if arg < base {
        return Void;
      }
      var newHeapSize := arg - base;
      return Mremap(base - offset, size + offset, newHeapSize + offset);
    }

    method BrkExit(request: Request, arg: nat, result: nat, offset: nat) returns (r: nat)
      requires request.Mremap? ==> offset <= request.newSize
      modifies this
      ensures (Abstract(), r) == Exited(old(Abstract()), request, arg, result, offset)
    {
      if disabled {
        return result;
      }
      match request {
        case Void =>
          return base + size;
        case Mmap(_, _) =>
          if ReadsAsErrno(result) {
            return 0;
          }
          base := result + offset;
          size := 0;
          return base + size;
        case Mremap(_, _, newSize) =>
          if ReadsAsErrno(result) || base != result + offset {
            return base + size;
          }
          size := newSize - offset;
          return base + size;
        case Brk(_) =>
          if result == arg {
            disabled := true;
          }
          return result;
      }
    }
  }

  // ---------------------------------------------------------------------
  // Against any kernel
  // ---------------------------------------------------------------------

  datatype Region = Nowhere | Region(start: nat, length: nat)

  /** What the kernel holds for the process: the mapping for the heap, and a break of its own. */
  datatype Kernel = Kernel(region: Region, brk: nat)

  predicate PageSize(page: nat) {
    page > 0 && page % 4096 == 0
  }

  /** What the kernel may answer, and what it then holds. */
  ghost predicate Answers(page: nat, before: Kernel, request: Request, result: nat, after: Kernel)
    requires page > 0
  {
    match request
    case Void => after == before
    case Brk(requested) =>
      after.region == before.region && result == after.brk && (after.brk == before.brk || after.brk == requested)
    case Mmap(_, length) =>
      && after.brk == before.brk
      && (|| (Failed(result) && after.region == before.region)
          || (&& result % page == 0 && result % 4096 == 0 && result > 0
              && after.region == Region(result, Ceil(length, page))))
    case Mremap(address, oldSize, newSize) =>
      && after.brk == before.brk
      && (|| (Failed(result) && after.region == before.region)
          || (&& before.region == Region(address, Ceil(oldSize, page)) && result == address
              && after.region == Region(address, Ceil(newSize, page))))
  }

  /** The mapping spans the heap and the page before it. */
  ghost predicate Inv(page: nat, h: Heap, region: Region)
    requires page > 0
  {
    if h.base == 0 then h.size == 0 && region == Nowhere
    else
      && page < h.base && h.base % page == 0 && h.base % 4096 == 0
      && region == Region(h.base - page, Ceil(h.size + page, page))
  }

  /** What brk returns and what becomes of the heap. */
  ghost predicate Emulates(h: Heap, arg: nat, result: nat, page: nat, h': Heap, r: nat) {
    && (h.base > 0 ==> h'.base == h.base)
    && (h.disabled ==> h' == h && r == result)
    && (h.base > 0 && !h.disabled ==>
          && r == h'.base + h'.size && !h'.disabled
          && (if arg < h.base || Failed(result) then h' == h else r == arg))
    && (h.base == 0 && !h.disabled && arg == 0 ==>
          if Failed(result) then h' == h && r == 0 else h' == Heap(result + page, 0, false) && r == h'.base)
    && (h.base == 0 && !h.disabled && arg != 0 ==> r == result && h' == h.(disabled := result == arg))
  }

  /** The break of the kernel is used by a process that was not given a heap, either because
      its first call was no query or because of what came of that; no other call moves it. */
  ghost predicate KeepsBreak(h: Heap, arg: nat, before: Kernel, after: Kernel, r: nat) {
    if h.disabled || (h.base == 0 && arg != 0)
    then r == after.brk && (after.brk == before.brk || after.brk == arg) && after.region == before.region
    else after.brk == before.brk
  }

  /** One call: the heap keeps its mapping and its base; it returns the break that was
      asked for if the kernel could resize, else the break as it was. */
  lemma {:induction false} BrkStep(page: nat, h: Heap, before: Kernel, arg: nat, bss: nat, result: nat, after: Kernel)
    requires PageSize(page) && Inv(page, h, before.region)
    requires Answers(page, before, Entered(h, arg, page, bss), result, after)
    ensures var request := Entered(h, arg, page, bss);
            && (request.Mremap? ==> page <= request.newSize)
            && var (h', r) := Exited(h, request, arg, result, page);
            && Inv(page, h', after.region) && Emulates(h, arg, result, page, h', r)
            && KeepsBreak(h, arg, before, after, r)
  {
    if h.disabled || (h.base == 0 && arg != 0) || (0 < h.base && arg < h.base) {
    } else if h.base == 0 {
      MmapStep(page, h, before, bss, result, after);
    } else {
      MremapStep(page, h, before, arg, bss, result, after);
    }
  }

  /** The heap is asked for at the end of the program: if the kernel grants that, the break
      of the first query is one page further on. */
  lemma {:induction false} HeapFollowsProgram(page: nat, bss: nat)
    requires PageSize(page) && bss % 4096 == 0
    ensures var request := Entered(Heap(0, 0, false), 0, page, bss);
            && request.Mmap? && request.length == page
            && Exited(Heap(0, 0, false), request, 0, request.hint, page) == (Heap(bss + page, 0, false), bss + page)
  {
    AlignedIsNoErrno(bss);
  }

  lemma {:induction false} MmapStep(page: nat, h: Heap, before: Kernel, bss: nat, result: nat, after: Kernel)
    requires PageSize(page) && Inv(page, h, before.region) && !h.disabled && h.base == 0
    requires Answers(page, before, Mmap(bss, page), result, after)
    ensures var (h', r) := Exited(h, Mmap(bss, page), 0, result, page);
            Inv(page, h', after.region) && Emulates(h, 0, result, page, h', r)
  {
    ErrnoIff(result);
    if !Failed(result) {
      FreshHeap(page, result);
    }
  }

  lemma {:induction false} MremapStep(page: nat, h: Heap, before: Kernel, arg: nat, bss: nat, result: nat,
                                      after: Kernel)
    requires PageSize(page) && Inv(page, h, before.region) && !h.disabled && 0 < h.base <= arg
    requires Answers(page, before, Mremap(h.base - page, h.size + page, arg - h.base + page), result, after)
    ensures var (h', r) := Exited(h, Mremap(h.base - page, h.size + page, arg - h.base + page), arg, result, page);
            Inv(page, h', after.region) && Emulates(h, arg, result, page, h', r)
  {
    if Failed(result) && after.region == before.region {
      RefusedStep(page, h, before.region, arg, result);
    } else {
      GrantedStep(page, h, arg, result, after.region);
    }
  }

  lemma {:induction false} RefusedStep(page: nat, h: Heap, region: Region, arg: nat, result: nat)
    requires page > 0 && Inv(page, h, region) && !h.disabled && 0 < h.base <= arg && Failed(result)
    ensures var (h', r) := Exited(h, Mremap(h.base - page, h.size + page, arg - h.base + page), arg, result, page);
            h' == h && r == h.base + h.size
  {
    ErrnoIff(result);
    RefusedStays(page, h, arg, result);
  }

  lemma {:induction false} GrantedStep(page: nat, h: Heap, arg: nat, result: nat, region: Region)
    requires PageSize(page) && !h.disabled && page < h.base <= arg && h.base % page == 0 && h.base % 4096 == 0
    requires result == h.base - page && region == Region(h.base - page, Ceil(arg - h.base + page, page))
    ensures var (h', r) := Exited(h, Mremap(h.base - page, h.size + page, arg - h.base + page), arg, result, page);
            h' == h.(size := arg - h.base) && r == arg && Inv(page, h', region) && !Failed(result)
  {
    GrantedIsNoErrno(page, h.base);
    GrantedGrows(page, h, arg, result);
    if Failed(result) {
      ErrnoIff(result);
    }
  }

  lemma {:induction false} RefusedStays(page: nat, h: Heap, arg: nat, result: nat)
    requires !h.disabled && page <= h.base <= arg && ReadsAsErrno(result)
    ensures Exited(h, Mremap(h.base - page, h.size + page, arg - h.base + page), arg, result, page)
            == (h, h.base + h.size)
  {
  }

  lemma {:induction false} GrantedGrows(page: nat, h: Heap, arg: nat, result: nat)
    requires !h.disabled && page <= h.base <= arg && !ReadsAsErrno(result) && result == h.base - page
    ensures Exited(h, Mremap(h.base - page, h.size + page, arg - h.base + page), arg, result, page)
            == (h.(size := arg - h.base), arg)
  {
  }

  lemma {:induction false} GrantedIsNoErrno(page: nat, base: nat)
    requires PageSize(page) && base % 4096 == 0 && page <= base
    ensures !ReadsAsErrno(base - page)
  {
    AlignedDifference(base, page);
    AlignedIsNoErrno(base - page);
  }

  lemma {:induction false} AlignedDifference(base: nat, page: nat)
    requires PageSize(page) && base % 4096 == 0 && page <= base
    ensures (base - page) % 4096 == 0
  {
  }

  lemma {:induction false} FreshHeap(page: nat, result: nat)
    requires PageSize(page) && result % page == 0 && result % 4096 == 0
    ensures (result + page) % page == 0 && (result + page) % 4096 == 0 && Ceil(page, page) == page
  {
    ModUnique(result + page, page, result / page + 1, 0);
    ModUnique(2 * page - 1, page, 1, page - 1);
  }

  // ---------------------------------------------------------------------
  // Every run
  // ---------------------------------------------------------------------

  /** A call of the guest, the kernel's answer to what is made of it, and what it holds after. */
  datatype Event = Event(arg: nat, result: nat, after: Kernel)

  /** A state of a run, with what the last call returned. */
  datatype Moment = Moment(heap: Heap, kernel: Kernel, returned: nat)

  ghost predicate Possible(page: nat, bss: nat, m: Moment, e: Event)
    requires PageSize(page)
  {
    && (m.heap.base > 0 ==> page <= m.heap.base)
    && Answers(page, m.kernel, Entered(m.heap, e.arg, page, bss), e.result, e.after)
  }

  ghost function After(page: nat, bss: nat, m: Moment, e: Event): Moment
    requires PageSize(page) && Possible(page, bss, m, e)
  {
    var (h', r) := Exited(m.heap, Entered(m.heap, e.arg, page, bss), e.arg, e.result, page);
    Moment(h', e.after, r)
  }

  /** The moments of a run, from `ms[0]`. */
  ghost predicate Run(page: nat, bss: nat, ms: seq<Moment>, es: seq<Event>)
    requires PageSize(page)
  {
    && |ms| == |es| + 1
    && ms[0].heap == Heap(0, 0, false) && ms[0].kernel.region == Nowhere
    && forall i :: 0 <= i < |es| ==>
         Possible(page, bss, ms[i], es[i]) && ms[i + 1] == After(page, bss, ms[i], es[i])
  }

  /** In every run with every kernel: the mapping spans the heap, and each call emulates brk. */
  lemma {:induction false} RunEmulates(page: nat, bss: nat, ms: seq<Moment>, es: seq<Event>, i: nat)
    requires PageSize(page) && Run(page, bss, ms, es) && i < |ms|
    ensures Inv(page, ms[i].heap, ms[i].kernel.region)
    ensures i < |es| ==>
              && Emulates(ms[i].heap, es[i].arg, es[i].result, page, ms[i + 1].heap, ms[i + 1].returned)
              && KeepsBreak(ms[i].heap, es[i].arg, ms[i].kernel, ms[i + 1].kernel, ms[i + 1].returned)
  {
    if i > 0 {
      RunEmulates(page, bss, ms, es, i - 1);
      var e := es[i - 1];
      BrkStep(page, ms[i - 1].heap, ms[i - 1].kernel, e.arg, bss, e.result, e.after);
    }
    if i < |es| {
      BrkStep(page, ms[i].heap, ms[i].kernel, es[i].arg, bss, es[i].result, es[i].after);
    }
  }

  /** Once set, the base never moves. */
  lemma {:induction false} BaseIsFixed(page: nat, bss: nat, ms: seq<Moment>, es: seq<Event>, i: nat, j: nat)
    requires PageSize(page) && Run(page, bss, ms, es) && i <= j < |ms| && ms[i].heap.base > 0
    ensures ms[j].heap.base == ms[i].heap.base
    decreases j
  {
    if i < j {
      BaseIsFixed(page, bss, ms, es, i, j - 1);
      RunEmulates(page, bss, ms, es, j - 1);
    }
  }
}
