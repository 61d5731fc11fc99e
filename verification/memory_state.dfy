/** The allocator and Lua's memory functions as code that updates the control block and the
    global state in place; every method is tied to the function of MemoryLedger. */
module MemoryState {
  import opened Common
  import opened MemoryLedger

  const MINSIZEARRAY := 4

  /** The results of luaM_growaux_: the block as it was, a new one, or one of two errors. */
  datatype Growth = Same | Grown(np: Option<Ptr>, size: nat) | TooMany | NoMemory

  class LuaMemory {
    var maxMemory: int
    var usedMemory: int
    var overLimit: bool
    var totalbytes: int
    var gcDebt: int
    var built: bool
    var blocks: map<Ptr, nat>
    var boxes: map<Ptr, nat>

    function ControlBlock(): Control
      reads this`maxMemory, this`usedMemory, this`overLimit
    {
      Control(maxMemory, usedMemory, overLimit)
    }

    function View(): State
      reads this
    {
      State(ControlBlock(), totalbytes, gcDebt, built, blocks, boxes)
    }

    /** lua_newstate, as far as memory goes. */
    constructor (max: int, main: Ptr, size: nat)
      requires 0 < size <= 0x7FFF_FFFF_FFFF_FFFF && (max > 0 ==> size <= max)
      ensures View() == Initial(max, main, size) && Balanced(View())
    {
      maxMemory, usedMemory, overLimit := max, size, false;
      totalbytes, gcDebt, built := size, 0, false;
      blocks, boxes := map[main := size], map[];
      new;
      InitialBalanced(max, main, size);
    }

    /** The state is fully built: from now on a failed allocation starts a collection. */
    method FinishState()
      requires Balanced(View())
      modifies this`built
      ensures View() == Step(old(View()), OpBuilt) && Balanced(View())
    {
      built := true;
    }

    /** klua_alloc. */
    method KluaAlloc(ptr: Option<Ptr>, osize: nat, nsize: nat, answer: Option<Ptr>) returns (np: Option<Ptr>)
      modifies this`usedMemory, this`overLimit
      ensures (ControlBlock(), np) == Alloc(old(ControlBlock()), ptr, osize, nsize, answer)
    {
      if nsize == 0 {
        if ptr != None { usedMemory := usedMemory - LongLong(osize); }
        return None;
      }
      var delta := LongLong(nsize) - if ptr != None then LongLong(osize) else 0;
      if maxMemory > 0 && usedMemory + delta > maxMemory {
        overLimit := true;
        return None;
      }
      np := answer;
      if np != None { usedMemory := usedMemory + delta; }
    }

    /** A call of the state's allocator on a block of Lua. */
    method FreallocBlock(ptr: Option<Ptr>, osize: nat, nsize: nat, answer: Option<Ptr>) returns (np: Option<Ptr>)
      modifies this`usedMemory, this`overLimit, this`blocks
      ensures (View(), np) == Frealloc(old(View()), ptr, osize, nsize, answer)
    {
      np := KluaAlloc(ptr, osize, nsize, answer);
      if np != None || nsize == 0 { blocks := Moved(blocks, ptr, np, nsize); }
    }

    /** luaM_free_. */
    method FreeBlock(ptr: Option<Ptr>, osize: nat)
      requires Balanced(View()) && Owns(View(), ptr) && osize == SizeOf(View(), ptr)
      modifies this
      ensures View() == Free(old(View()), ptr, osize) && Balanced(View())
    {
      FreeBalances(View(), ptr);
      var _ := FreallocBlock(ptr, osize, 0, None);
      gcDebt := gcDebt - osize;
    }

    /** luaE_setdebt. */
    method SetGCDebt(debt: int)
      modifies this`totalbytes, this`gcDebt
      ensures View() == SetDebt(old(View()), debt)
    {
      var tb, d := totalbytes + gcDebt, debt;
      if d < tb - MAX_LMEM { d := tb - MAX_LMEM; }
      totalbytes := tb - d;
      gcDebt := d;
    }

    /** One memory action of the emergency collection. */
    method FreeStep(f: Freeing)
      requires Balanced(View()) && MayFree(View(), None, f)
      modifies this
      ensures View() == FreeOne(old(View()), f)
    {
      match f {
        case Release(p) => FreeBlock(Some(p), SizeOf(View(), Some(p)));
        case Shrink(p, nsize, answer) =>
          var osize := blocks[p];
          var np := FreallocBlock(Some(p), osize, nsize, answer);
          if np != None || nsize == 0 { gcDebt := gcDebt + nsize - osize; }
        case Debt(d) => SetGCDebt(d);
      }
    }

    /** tryagain. */
    method CollectAndRetry(ptr: Option<Ptr>, osize: nat, nsize: nat, fs: seq<Freeing>, answer: Option<Ptr>)
      returns (np: Option<Ptr>)
      requires Balanced(View()) && Owns(View(), ptr) && MayRetry(View(), ptr, nsize, fs, answer)
      modifies this
      ensures (View(), np) == TryAgain(old(View()), ptr, osize, nsize, fs, answer)
    {
      if !built { return None; }
      var i := 0;
      assert fs[0..] == fs;
      while i < |fs|
        invariant 0 <= i <= |fs| && built && Balanced(View()) && Owns(View(), ptr)
        invariant MayCollect(View(), ptr, fs[i..])
        invariant Collect(View(), fs[i..]) == Collect(old(View()), fs)
      {
        assert fs[i..][0] == fs[i] && fs[i..][1..] == fs[i + 1..];
        FreeOneBalances(View(), ptr, fs[i]);
        FreeStep(fs[i]);
        i := i + 1;
      }
      np := FreallocBlock(ptr, osize, nsize, answer);
    }

    /** luaM_realloc_. */
    method ReallocBlock(ptr: Option<Ptr>, nsize: nat, first: Option<Ptr>, fs: seq<Freeing>, again: Option<Ptr>)
      returns (np: Option<Ptr>)
      requires Balanced(View()) && Allowed(View(), OpRealloc(ptr, nsize, first, fs, again))
      modifies this
      ensures (View(), np) == Realloc(old(View()), ptr, nsize, first, fs, again) && Balanced(View())
    {
      hide Total, Collect, MayCollect, FreeOne;
      ReallocBalances(View(), ptr, nsize, first, fs, again);
      var osize := SizeOf(View(), ptr);
      FreallocSettles(View(), ptr, osize, nsize, first);
      np := FreallocBlock(ptr, osize, nsize, first);
      if np == None && nsize > 0 {
        if nsize > osize { np := CollectAndRetry(ptr, osize, nsize, fs, again); }
        if np == None { return; }
      }
      gcDebt := gcDebt + nsize - osize;
    }

    /** luaM_malloc_; the memory error is None for a size that is not zero. */
    method MallocBlock(size: nat, tag: nat, first: Option<Ptr>, fs: seq<Freeing>, again: Option<Ptr>)
      returns (np: Option<Ptr>)
      requires Balanced(View()) && Allowed(View(), OpMalloc(size, tag, first, fs, again))
      modifies this
      ensures (View(), np) == Malloc(old(View()), size, tag, first, fs, again) && Balanced(View())
    {
      hide Total, Collect, MayCollect, FreeOne;
      MallocBalances(View(), size, tag, first, fs, again);
      if size == 0 { return None; }
      FreallocSettles(View(), None, tag, size, first);
      np := FreallocBlock(None, tag, size, first);
      if np == None {
        np := CollectAndRetry(None, tag, size, fs, again);
        if np == None { return; }
      }
      gcDebt := gcDebt + size;
    }

    /** resizebox. */
    method ResizeBuffer(box: Option<Ptr>, nsize: nat, answer: Option<Ptr>) returns (np: Option<Ptr>)
      requires Balanced(View()) && Allowed(View(), OpBox(box, nsize, answer))
      modifies this`usedMemory, this`overLimit, this`boxes
      ensures (View(), np) == ResizeBox(old(View()), box, nsize, answer) && Balanced(View())
    {
      BoxBalances(View(), box, nsize, answer);
      np := KluaAlloc(box, if box == None then 0 else boxes[box.value], nsize, answer);
      if np != None || nsize == 0 { boxes := Moved(boxes, box, np, nsize); }
    }

    /** The size that a full vector gets. */
    function GrownSize(psize: nat, limit: nat): nat {
      if psize >= limit / 2 then limit else if psize * 2 < MINSIZEARRAY then MINSIZEARRAY else psize * 2
    }

    /** luaM_growaux_: a vector that is full doubles its size, up to the limit. */
    method GrowVector(ptr: Option<Ptr>, nelems: nat, psize: nat, elem: nat, limit: nat,
                      first: Option<Ptr>, fs: seq<Freeing>, again: Option<Ptr>) returns (r: Growth)
      requires Balanced(View()) && nelems <= psize && limit >= 4
      requires nelems == psize < limit ==>
        Allowed(View(), OpRealloc(ptr, GrownSize(psize, limit) * elem, first, fs, again))
      modifies this
      ensures Balanced(View())
      ensures r == Same <==> nelems < psize
      ensures r == TooMany <==> nelems == psize >= limit
      ensures r == Same || r == TooMany ==> View() == old(View())
      ensures r.Grown? ==> r.size == GrownSize(psize, limit) && nelems < r.size <= limit
      ensures r.Grown? ==> r.size == if psize >= limit / 2 then limit else if psize < 2 then 4 else 2 * psize
      ensures r.Grown? ==> (View(), r.np) == Realloc(old(View()), ptr, r.size * elem, first, fs, again)
      ensures r == NoMemory ==>
        (View(), None) == Realloc(old(View()), ptr, GrownSize(psize, limit) * elem, first, fs, again)
    {
      hide Balanced, Allowed, Realloc;
      var size := psize;
      if nelems + 1 <= size { return Same; }
      if size >= limit / 2 {
        if size >= limit { return TooMany; }
        size := limit;
      } else {
        size := size * 2;
        if size < MINSIZEARRAY { size := MINSIZEARRAY; }
      }
      var np := ReallocBlock(ptr, size * elem, first, fs, again);
      if np == None && size * elem > 0 { return NoMemory; }
      return Grown(np, size);
    }
  }
}
