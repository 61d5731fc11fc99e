/** The two accounts of memory: klua's allocator and its limit (klua_limits.c), and the bytes
    Lua believes it owns (lmem.c, lstate.c). Buffer boxes (lauxlib.c) use the first and not the
    second. What the platform's realloc answers is a parameter, NULL being None. */
module MemoryLedger {
  import opened Common

  type Ptr = nat

  const MAX_LMEM := 0x7FFF_FFFF_FFFF_FFFF

  /** The cast of a size_t to long long. */
  function LongLong(x: nat): int {
    var y := x % 0x1_0000_0000_0000_0000;
    if y > MAX_LMEM then y - 0x1_0000_0000_0000_0000 else y
  }

  /** klua_control: `max_memory` (no limit when not positive), `used_memory`, and whether
      `reason` was set to KLUA_REASON_MEMORY. */
  datatype Control = Control(max: int, used: int, reason: bool)

  /** klua_alloc. */
  function Alloc(c: Control, ptr: Option<Ptr>, osize: nat, nsize: nat, answer: Option<Ptr>): (Control, Option<Ptr>) {
    if nsize == 0 then
      (if ptr.Some? then c.(used := c.used - LongLong(osize)) else c, None)
    else
      var delta := LongLong(nsize) - if ptr.Some? then LongLong(osize) else 0;
      if c.max > 0 && c.used + delta > c.max then (c.(reason := true), None)
      else if answer.Some? then (c.(used := c.used + delta), answer)
      else (c, None)
  }

  /** `totalbytes` and `GCdebt`, whether the state is fully built, and the blocks that are live:
      Lua's own, and the contents of the buffer boxes. */
  datatype State = State(c: Control, totalbytes: int, debt: int, built: bool,
                         blocks: map<Ptr, nat>, boxes: map<Ptr, nat>)

  /** The live blocks after `ptr` became `np`; a block of no bytes is no block. */
  function Moved(m: map<Ptr, nat>, ptr: Option<Ptr>, np: Option<Ptr>, size: nat): map<Ptr, nat> {
    var rest := if ptr.Some? then m - {ptr.value} else m;
    if np.Some? then rest[np.value := size] else rest
  }

  /** The frealloc of a block of Lua, without the change to GCdebt. */
  function Frealloc(s: State, ptr: Option<Ptr>, osize: nat, nsize: nat, answer: Option<Ptr>): (State, Option<Ptr>) {
    var (c, np) := Alloc(s.c, ptr, osize, nsize, answer);
    (s.(c := c, blocks := if np.Some? || nsize == 0 then Moved(s.blocks, ptr, np, nsize) else s.blocks), np)
  }

  /** luaM_free_. */
  function Free(s: State, ptr: Option<Ptr>, osize: nat): State {
    var s1 := Frealloc(s, ptr, osize, 0, None).0;
    s1.(debt := s1.debt - osize)
  }

  /** luaE_setdebt. */
  function SetDebt(s: State, debt: int): State {
    var tb := s.totalbytes + s.debt;
    var d := if debt < tb - MAX_LMEM then tb - MAX_LMEM else debt;
    s.(totalbytes := tb - d, debt := d)
  }

  /** What an emergency collection does to memory: it frees blocks, shrinks some, and sets the
      debt for the next cycle. It calls no finalizer, so it touches no box. */
  datatype Freeing = Release(ptr: Ptr) | Shrink(ptr: Ptr, nsize: nat, answer: Option<Ptr>) | Debt(debt: int)

  function SizeOf(s: State, ptr: Option<Ptr>): nat {
    if ptr.Some? && ptr.value in s.blocks then s.blocks[ptr.value] else 0
  }

  function FreeOne(s: State, f: Freeing): State {
    match f
    case Release(p) => Free(s, Some(p), SizeOf(s, Some(p)))
    case Shrink(p, nsize, answer) => Shrunk(s, p, nsize, answer)
    case Debt(d) => SetDebt(s, d)
  }

  /** luaM_realloc_ when it does not grow the block. */
  function Shrunk(s: State, p: Ptr, nsize: nat, answer: Option<Ptr>): State {
    var osize := SizeOf(s, Some(p));
    var (s1, np) := Frealloc(s, Some(p), osize, nsize, answer);
    if np == None && nsize > 0 then s1 else s1.(debt := s1.debt + nsize - osize)
  }

  function Collect(s: State, fs: seq<Freeing>): State
    decreases |fs|
  {
    if fs == [] then s else Collect(FreeOne(s, fs[0]), fs[1..])
  }

  /** tryagain. */
  function TryAgain(s: State, ptr: Option<Ptr>, osize: nat, nsize: nat, fs: seq<Freeing>, answer: Option<Ptr>):
    (State, Option<Ptr>)
  {
    if s.built then Frealloc(Collect(s, fs), ptr, osize, nsize, answer) else (s, None)
  }

  /** luaM_realloc_. */
  function Realloc(s: State, ptr: Option<Ptr>, nsize: nat, first: Option<Ptr>, fs: seq<Freeing>, again: Option<Ptr>):
    (State, Option<Ptr>)
  {
    var osize := SizeOf(s, ptr);
    var (s1, np) := Frealloc(s, ptr, osize, nsize, first);
    if np == None && nsize > 0 then
      if nsize > osize then
        var (s2, np2) := TryAgain(s1, ptr, osize, nsize, fs, again);
        if np2 == None then (s2, None) else (s2.(debt := s2.debt + nsize - osize), np2)
      else (s1, None)
    else (s1.(debt := s1.debt + nsize - osize), np)
  }

  /** luaM_malloc_: None for a size of zero and for the memory error. The tag of the object is
      passed as the old size. */
  function Malloc(s: State, size: nat, tag: nat, first: Option<Ptr>, fs: seq<Freeing>, again: Option<Ptr>):
    (State, Option<Ptr>)
  {
    if size == 0 then (s, None)
    else
      var (s1, np) := Frealloc(s, None, tag, size, first);
      if np.Some? then (s1.(debt := s1.debt + size), np)
      else
        var (s2, np2) := TryAgain(s1, None, tag, size, fs, again);
        if np2 == None then (s2, None) else (s2.(debt := s2.debt + size), np2)
  }

  /** resizebox: straight to the allocator, with no second try. */
  function ResizeBox(s: State, box: Option<Ptr>, nsize: nat, answer: Option<Ptr>): (State, Option<Ptr>) {
    var bsize := if box.Some? && box.value in s.boxes then s.boxes[box.value] else 0;
    var (c, np) := Alloc(s.c, box, bsize, nsize, answer);
    (s.(c := c, boxes := if np.Some? || nsize == 0 then Moved(s.boxes, box, np, nsize) else s.boxes), np)
  }

  // ---- the total of the live blocks ----

  ghost function Total(m: map<Ptr, nat>): nat {
    if m == map[] then 0 else var p :| p in m; m[p] + Total(m - {p})
  }

  lemma {:induction false} TotalAt(m: map<Ptr, nat>, p: Ptr)
    requires p in m
    ensures Total(m) == m[p] + Total(m - {p})
    decreases |m|
  {
    var q :| q in m && Total(m) == m[q] + Total(m - {q});
    if q != p {
      assert |m - {q}| < |m| by { Fewer(m, q); }
      TotalAt(m - {q}, p);
      assert p in m - {q} && q in m - {p};
      assert |m - {p}| < |m| by { Fewer(m, p); }
      TotalAt(m - {p}, q);
      assert m - {q} - {p} == m - {p} - {q};
    }
  }

  lemma Fewer(m: map<Ptr, nat>, p: Ptr)
    requires p in m
    ensures |m - {p}| < |m|
  {
    assert m.Keys == (m - {p}).Keys + {p};
    assert |m.Keys| == |m| && |(m - {p}).Keys| == |m - {p}|;
  }

  lemma TotalMoved(m: map<Ptr, nat>, ptr: Option<Ptr>, np: Option<Ptr>, size: nat)
    requires ptr.Some? ==> ptr.value in m
    requires np.Some? ==> np == ptr || np.value !in m
    ensures Total(Moved(m, ptr, np, size)) ==
      Total(m) - (if ptr.Some? then m[ptr.value] else 0) + if np.Some? then size else 0
  {
    var rest := if ptr.Some? then m - {ptr.value} else m;
    if ptr.Some? { TotalAt(m, ptr.value); }
    if np.Some? {
      var r := rest[np.value := size];
      TotalAt(r, np.value);
      assert r - {np.value} == rest;
    }
  }

  // ---- the invariant ----

  ghost predicate Sized(m: map<Ptr, nat>) { forall p :: p in m ==> 0 < m[p] <= 0x7FFF_FFFF_FFFF_FFFF }

  /** Klua counts every live byte, Lua every byte but those of the boxes, and the limit holds. */
  ghost predicate Balanced(s: State) {
    s.c.used == Total(s.blocks) + Total(s.boxes) && s.totalbytes + s.debt == Total(s.blocks) &&
    (s.c.max > 0 ==> s.c.used <= s.c.max) && Sized(s.blocks) && Sized(s.boxes) &&
    forall p :: p in s.blocks ==> p !in s.boxes
  }

  /** The platform answers NULL, the block itself, or one that is not in use; it never gives
      more than a pointer difference can express. */
  ghost predicate Answers(s: State, ptr: Option<Ptr>, nsize: nat, answer: Option<Ptr>) {
    answer.Some? ==>
      nsize <= 0x7FFF_FFFF_FFFF_FFFF && (answer == ptr || (answer.value !in s.blocks && answer.value !in s.boxes))
  }

  /** A call about a block that the caller owns. */
  ghost predicate Owns(s: State, ptr: Option<Ptr>) { ptr.Some? ==> ptr.value in s.blocks }

  /** A step of a collection that does not touch the block being allocated. */
  ghost predicate MayFree(s: State, keep: Option<Ptr>, f: Freeing) {
    match f
    case Release(p) => p in s.blocks && keep != Some(p)
    case Shrink(p, nsize, answer) =>
      p in s.blocks && keep != Some(p) && nsize <= s.blocks[p] && Answers(s, Some(p), nsize, answer)
    case Debt(_) => true
  }

  ghost predicate MayCollect(s: State, keep: Option<Ptr>, fs: seq<Freeing>)
    decreases |fs|
  {
    fs == [] || (MayFree(s, keep, fs[0]) && MayCollect(FreeOne(s, fs[0]), keep, fs[1..]))
  }

  /** Everything but GCdebt, which the caller of frealloc settles. */
  ghost predicate Settled(s: State, change: int) {
    Balanced(s.(debt := s.debt + change))
  }

  lemma FreallocSettles(s: State, ptr: Option<Ptr>, osize: nat, nsize: nat, answer: Option<Ptr>)
    requires Balanced(s) && Owns(s, ptr) && Answers(s, ptr, nsize, answer)
    requires ptr.Some? ==> osize == s.blocks[ptr.value]
    ensures var (r, np) := Frealloc(s, ptr, osize, nsize, answer);
      r == s.(c := r.c, blocks := r.blocks) && r.c.max == s.c.max &&
      (if np.Some? || nsize == 0 then Settled(r, nsize - if ptr.Some? then osize else 0)
       else Balanced(r) && r.blocks == s.blocks)
  {
    hide Total;
    var (r, np) := Frealloc(s, ptr, osize, nsize, answer);
    if np.Some? || nsize == 0 { TotalMoved(s.blocks, ptr, np, nsize); }
  }

  lemma FreeBalances(s: State, ptr: Option<Ptr>)
    requires Balanced(s) && Owns(s, ptr)
    ensures Balanced(Free(s, ptr, SizeOf(s, ptr)))
  {
    FreallocSettles(s, ptr, SizeOf(s, ptr), 0, None);
  }

  lemma SetDebtBalances(s: State, debt: int)
    requires Balanced(s)
    ensures Balanced(SetDebt(s, debt)) && SetDebt(s, debt).totalbytes <= 0x7FFF_FFFF_FFFF_FFFF
    ensures SetDebt(s, debt).totalbytes + SetDebt(s, debt).debt == s.totalbytes + s.debt
    ensures SetDebt(s, debt).debt == debt || (SetDebt(s, debt).debt > debt && SetDebt(s, debt).totalbytes == 0x7FFF_FFFF_FFFF_FFFF)
  {
  }

  /** The steps of a collection keep the accounts and the block that is being allocated. */
  lemma FreeOneBalances(s: State, keep: Option<Ptr>, f: Freeing)
    requires Balanced(s) && Owns(s, keep) && MayFree(s, keep, f)
    ensures Balanced(FreeOne(s, f)) && Owns(FreeOne(s, f), keep) && SizeOf(FreeOne(s, f), keep) == SizeOf(s, keep)
    ensures FreeOne(s, f).boxes == s.boxes && FreeOne(s, f).c.max == s.c.max
  {
    hide Total, Sized;
    match f
    case Release(p) => FreeBalances(s, Some(p));
    case Shrink(p, nsize, answer) => FreallocSettles(s, Some(p), s.blocks[p], nsize, answer);
    case Debt(d) => SetDebtBalances(s, d);
  }

  lemma {:induction false} CollectBalances(s: State, keep: Option<Ptr>, fs: seq<Freeing>)
    requires Balanced(s) && Owns(s, keep) && MayCollect(s, keep, fs)
    ensures Balanced(Collect(s, fs)) && Owns(Collect(s, fs), keep)
    ensures SizeOf(Collect(s, fs), keep) == SizeOf(s, keep) && Collect(s, fs).c.max == s.c.max
    decreases |fs|
  {
    if fs != [] {
      FreeOneBalances(s, keep, fs[0]);
      CollectBalances(FreeOne(s, fs[0]), keep, fs[1..]);
    }
  }

  // ---- runs ----

  /** One call, or the end of the building of the state; `first` and `again` are the answers to the two tries, `fs` the emergency
      collection between them. */
  datatype Op =
    | OpMalloc(size: nat, tag: nat, first: Option<Ptr>, fs: seq<Freeing>, again: Option<Ptr>)
    | OpRealloc(ptr: Option<Ptr>, nsize: nat, first: Option<Ptr>, fs: seq<Freeing>, again: Option<Ptr>)
    | OpFree(ptr: Option<Ptr>)
    | OpSetDebt(debt: int)
    | OpBox(box: Option<Ptr>, nsize: nat, answer: Option<Ptr>)
    | OpBuilt

  ghost predicate MayRetry(s: State, ptr: Option<Ptr>, nsize: nat, fs: seq<Freeing>, again: Option<Ptr>) {
    MayCollect(s, ptr, fs) && Answers(Collect(s, fs), ptr, nsize, again)
  }

  /** What the platform and the caller promise for one call. */
  ghost predicate Allowed(s: State, op: Op) {
    match op
    case OpMalloc(size, tag, first, fs, again) =>
      var (s1, np) := Frealloc(s, None, tag, size, first);
      Answers(s, None, size, first) && (np == None ==> MayRetry(s1, None, size, fs, again))
    case OpRealloc(ptr, nsize, first, fs, again) =>
      var (s1, np) := Frealloc(s, ptr, SizeOf(s, ptr), nsize, first);
      Owns(s, ptr) && Answers(s, ptr, nsize, first) &&
      (np == None && nsize > SizeOf(s, ptr) ==> MayRetry(s1, ptr, nsize, fs, again))
    case OpFree(ptr) => Owns(s, ptr)
    case OpSetDebt(_) => true
    case OpBox(box, nsize, answer) => (box.Some? ==> box.value in s.boxes) && Answers(s, box, nsize, answer)
    case OpBuilt => true
  }

  function Step(s: State, op: Op): State {
    match op
    case OpMalloc(size, tag, first, fs, again) => Malloc(s, size, tag, first, fs, again).0
    case OpRealloc(ptr, nsize, first, fs, again) => Realloc(s, ptr, nsize, first, fs, again).0
    case OpFree(ptr) => Free(s, ptr, SizeOf(s, ptr))
    case OpSetDebt(debt) => SetDebt(s, debt)
    case OpBox(box, nsize, answer) => ResizeBox(s, box, nsize, answer).0
    case OpBuilt => s.(built := true)
  }

  lemma TryAgainSettles(s: State, ptr: Option<Ptr>, osize: nat, nsize: nat, fs: seq<Freeing>, again: Option<Ptr>)
    requires Balanced(s) && Owns(s, ptr) && (ptr.Some? ==> osize == s.blocks[ptr.value]) && nsize > 0
    requires MayRetry(s, ptr, nsize, fs, again)
    ensures var (r, np) := TryAgain(s, ptr, osize, nsize, fs, again);
      if np.Some? then Settled(r, nsize - if ptr.Some? then osize else 0) else Balanced(r)
  {
    if s.built {
      CollectBalances(s, ptr, fs);
      FreallocSettles(Collect(s, fs), ptr, osize, nsize, again);
    }
  }

  lemma MallocBalances(s: State, size: nat, tag: nat, first: Option<Ptr>, fs: seq<Freeing>, again: Option<Ptr>)
    requires Balanced(s) && Allowed(s, OpMalloc(size, tag, first, fs, again))
    ensures Balanced(Malloc(s, size, tag, first, fs, again).0)
  {
    if size > 0 {
      FreallocSettles(s, None, tag, size, first);
      var (s1, np) := Frealloc(s, None, tag, size, first);
      if np.None? { TryAgainSettles(s1, None, tag, size, fs, again); }
    }
  }

  lemma ReallocBalances(s: State, ptr: Option<Ptr>, nsize: nat, first: Option<Ptr>, fs: seq<Freeing>, again: Option<Ptr>)
    requires Balanced(s) && Allowed(s, OpRealloc(ptr, nsize, first, fs, again))
    ensures Balanced(Realloc(s, ptr, nsize, first, fs, again).0)
  {
    hide Frealloc, TryAgain, Total, MayRetry, Answers, Balanced;
    var osize := SizeOf(s, ptr);
    FreallocSettles(s, ptr, osize, nsize, first);
    var (s1, np) := Frealloc(s, ptr, osize, nsize, first);
    if np.None? && nsize > osize { TryAgainSettles(s1, ptr, osize, nsize, fs, again); }
  }

  lemma BoxBalances(s: State, box: Option<Ptr>, nsize: nat, answer: Option<Ptr>)
    requires Balanced(s) && Allowed(s, OpBox(box, nsize, answer))
    ensures Balanced(ResizeBox(s, box, nsize, answer).0)
    ensures ResizeBox(s, box, nsize, answer).0.blocks == s.blocks
  {
    hide Total;
    var (r, np) := ResizeBox(s, box, nsize, answer);
    if np.Some? || nsize == 0 { TotalMoved(s.boxes, box, np, nsize); }
  }

  /** Every call keeps the accounts. */
  lemma StepBalances(s: State, op: Op)
    requires Balanced(s) && Allowed(s, op)
    ensures Balanced(Step(s, op))
  {
    match op
    case OpMalloc(size, tag, first, fs, again) => MallocBalances(s, size, tag, first, fs, again);
    case OpRealloc(ptr, nsize, first, fs, again) => ReallocBalances(s, ptr, nsize, first, fs, again);
    case OpFree(ptr) => FreeBalances(s, ptr);
    case OpSetDebt(debt) => SetDebtBalances(s, debt);
    case OpBox(box, nsize, answer) => BoxBalances(s, box, nsize, answer);
    case OpBuilt =>
  }

  function Run(s: State, ops: seq<Op>): State
    decreases |ops|
  {
    if ops == [] then s else Run(Step(s, ops[0]), ops[1..])
  }

  ghost predicate RunAllowed(s: State, ops: seq<Op>)
    decreases |ops|
  {
    ops == [] || (Allowed(s, ops[0]) && RunAllowed(Step(s, ops[0]), ops[1..]))
  }

  /** lua_newstate: the state itself is the first block. */
  function Initial(max: int, main: Ptr, size: nat): State {
    State(Control(max, size, false), size, 0, false, map[main := size], map[])
  }

  lemma InitialBalanced(max: int, main: Ptr, size: nat)
    requires 0 < size <= 0x7FFF_FFFF_FFFF_FFFF && (max > 0 ==> size <= max)
    ensures Balanced(Initial(max, main, size))
  {
    var m: map<Ptr, nat> := map[main := size];
    TotalAt(m, main);
    assert m - {main} == map[];
  }

  lemma {:induction false} RunBalances(s: State, ops: seq<Op>)
    requires Balanced(s) && RunAllowed(s, ops)
    ensures Balanced(Run(s, ops))
    decreases |ops|
  {
    if ops != [] {
      StepBalances(s, ops[0]);
      RunBalances(Step(s, ops[0]), ops[1..]);
    }
  }

  /** In every run from a new state, failures and emergency collections included, the memory klua
      reports is the size of the live blocks and boxes, it is what Lua counts plus the boxes,
      and it never goes over a positive limit. */
  lemma LedgersAgree(max: int, main: Ptr, size: nat, ops: seq<Op>)
    requires 0 < size <= 0x7FFF_FFFF_FFFF_FFFF && (max > 0 ==> size <= max)
    requires RunAllowed(Initial(max, main, size), ops)
    ensures var s := Run(Initial(max, main, size), ops);
      s.c.used == Total(s.blocks) + Total(s.boxes) == s.totalbytes + s.debt + Total(s.boxes) &&
      (s.c.max > 0 ==> s.c.used <= s.c.max)
  {
    InitialBalanced(max, main, size);
    RunBalances(Initial(max, main, size), ops);
  }

  /** The tag that luaM_malloc_ passes as the old size is never looked at. */
  lemma TagIgnored(s: State, size: nat, tag: nat, other: nat, first: Option<Ptr>, fs: seq<Freeing>, again: Option<Ptr>)
    ensures Malloc(s, size, tag, first, fs, again) == Malloc(s, size, other, first, fs, again)
  {
  }

  /** A request is refused exactly when the limit or the platform refuses it, and then nothing
      has changed but the reason. */
  lemma RefusedExactly(s: State, ptr: Option<Ptr>, nsize: nat, answer: Option<Ptr>)
    requires Balanced(s) && Owns(s, ptr) && 0 < nsize <= 0x7FFF_FFFF_FFFF_FFFF
    ensures var (r, np) := Frealloc(s, ptr, SizeOf(s, ptr), nsize, answer);
      var over := s.c.max > 0 && s.c.used - SizeOf(s, ptr) + nsize > s.c.max;
      (np == None <==> over || answer == None) &&
      (np == None ==> r == s.(c := s.c.(reason := s.c.reason || over)))
  {
  }

  /** A request for so many bytes in place of a block fits under the limit. */
  predicate Fits(s: State, osize: nat, nsize: nat) { s.c.max <= 0 || s.c.used - osize + nsize <= s.c.max }

  /** What comes of a request, when the answers of the platform are `first` and, after the
      emergency collection left `s2`, `again`: the first that the limit allows, or nothing. Only
      a full built state that asks for more bytes than it has collects. */
  ghost predicate Comes(s: State, s2: State, ptr: Option<Ptr>, osize: nat, nsize: nat,
                        first: Option<Ptr>, again: Option<Ptr>, r: State, np: Option<Ptr>)
  {
    if first.Some? && Fits(s, osize, nsize) then np == first && r.blocks == Moved(s.blocks, ptr, first, nsize)
    else if !s.built || nsize <= osize then np == None && r.blocks == s.blocks
    else if again.Some? && Fits(s2, osize, nsize) then np == again && r.blocks == Moved(s2.blocks, ptr, again, nsize)
    else np == None && r.blocks == s2.blocks
  }

  lemma TryAgainComes(s: State, s1: State, ptr: Option<Ptr>, tag: nat, nsize: nat, first: Option<Ptr>, fs: seq<Freeing>, again: Option<Ptr>)
    requires Balanced(s) && Owns(s, ptr) && 0 < nsize <= 0x7FFF_FFFF_FFFF_FFFF && (ptr.Some? ==> tag == s.blocks[ptr.value])
    requires s1 == s.(c := s.c.(reason := s1.c.reason)) && MayRetry(s1, ptr, nsize, fs, again)
    requires (first == None || !Fits(s, SizeOf(s, ptr), nsize)) && nsize > SizeOf(s, ptr)
    ensures var (r, np) := TryAgain(s1, ptr, tag, nsize, fs, again);
      Comes(s, Collect(s1, fs), ptr, SizeOf(s, ptr), nsize, first, again, r, np)
  {
    hide Total, Sized, Collect, MayCollect;
    if s.built {
      CollectBalances(s1, ptr, fs);
      var s2 := Collect(s1, fs);
      RefusedExactly(s2, ptr, nsize, again);
    }
  }

  /** Exactly when a block gets its new size, and which block that is. A request that was refused
      is granted when the collection freed enough and the platform agrees. */
  lemma ReallocComes(s: State, ptr: Option<Ptr>, nsize: nat, first: Option<Ptr>, fs: seq<Freeing>, again: Option<Ptr>)
    requires Balanced(s) && Allowed(s, OpRealloc(ptr, nsize, first, fs, again)) && 0 < nsize <= 0x7FFF_FFFF_FFFF_FFFF
    ensures var (r, np) := Realloc(s, ptr, nsize, first, fs, again);
      var s1 := Frealloc(s, ptr, SizeOf(s, ptr), nsize, first).0;
      Comes(s, Collect(s1, fs), ptr, SizeOf(s, ptr), nsize, first, again, r, np)
  {
    hide Total, Sized, Collect, MayCollect, TryAgain;
    RefusedExactly(s, ptr, nsize, first);
    var osize := SizeOf(s, ptr);
    var (s1, np) := Frealloc(s, ptr, osize, nsize, first);
    if np.None? && nsize > osize { TryAgainComes(s, s1, ptr, osize, nsize, first, fs, again); }
  }

  lemma MallocComes(s: State, size: nat, tag: nat, first: Option<Ptr>, fs: seq<Freeing>, again: Option<Ptr>)
    requires Balanced(s) && Allowed(s, OpMalloc(size, tag, first, fs, again)) && 0 < size <= 0x7FFF_FFFF_FFFF_FFFF
    ensures var (r, np) := Malloc(s, size, tag, first, fs, again);
      var s1 := Frealloc(s, None, tag, size, first).0;
      Comes(s, Collect(s1, fs), None, 0, size, first, again, r, np)
  {
    hide Total, Sized, Collect, MayCollect, TryAgain;
    RefusedExactly(s, None, size, first);
    var (s1, np) := Frealloc(s, None, tag, size, first);
    if np.None? { TryAgainComes(s, s1, None, tag, size, first, fs, again); }
  }
}
