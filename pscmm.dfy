/**
 * The VRAM buffer-object cache of the experimental "pscmm" memory manager
 * (attic/nouveau/nouveau_pscmm.c).
 *
 * Buffers are placed as whole runs of page-sized blocks and evicted with a
 * modified CAR (Clock with Adaptive Replacement) policy that works on whole
 * buffers instead of pages:
 *   T1 / T2   resident buffers seen once / more than once,
 *   B1 / B2   "ghost" entries remembering buffers evicted from T1 / T2,
 *   pinned    the no_evicted list of buffers that may not be evicted,
 * with block counters T1_num .. B2_num, free_block_num, total_block_num
 * and the adaptive target size p of T1.
 *
 * The value-level `State` and the functions on it are the specification.
 * Class `Cache` holds the same fields. Its single-step methods are proved
 * to update them exactly as those functions say; the eviction loop ends in
 * the last state of the one finished trace of `Step`; the search and
 * allocation methods are specified by the invariant and the run they return.
 */
module Pscmm {
  import opened Common
  import opened BlockSpace

  type BoId = nat

  /** The `type` tag of a buffer object. `Unlisted` is a buffer on no list. */
  datatype Kind = Unlisted | T1 | T2 | B1 | B2 | NoEvicted

  predicate Resident(k: Kind) { k == T1 || k == T2 || k == NoEvicted }
  predicate IsGhost(k: Kind) { k == B1 || k == B2 }

  /**
   * The cache-related fields of one buffer object: its list tag, the tag it
   * had before it was pinned, its reference bit, its size in blocks, the
   * first block of its allocation (block_offset_node) and swap_out.
   */
  datatype Bo = Bo(kind: Kind, oldKind: Kind, boRef: nat, nblock: nat,
                   start: Option<nat>, swapOut: bool)

  /** The cache fields of the device (dev_priv) plus the allocator's state. */
  datatype State = State(
    t1: seq<BoId>, t2: seq<BoId>, b1: seq<BoId>, b2: seq<BoId>, pinned: seq<BoId>,
    bos: map<BoId, Bo>,
    t1Num: int, t2Num: int, b1Num: int, b2Num: int,
    freeNum: int, total: nat, p: int,
    free: set<nat>, owner: map<nat, BoId>)

  // ---------------------------------------------------------------------
  // Lists and block sums

  ghost predicate NoDup(l: seq<BoId>)
  {
    forall i, j :: 0 <= i < j < |l| ==> l[i] != l[j]
  }

  /** List `l` holds exactly the buffers tagged `k`, each once. */
  ghost predicate ListOk(l: seq<BoId>, k: Kind, bos: map<BoId, Bo>)
  {
    NoDup(l) &&
    (forall x :: x in l ==> x in bos && bos[x].kind == k) &&
    (forall x :: x in bos && bos[x].kind == k ==> x in l)
  }

  function IndexOf(l: seq<BoId>, x: BoId): (i: nat)
    requires x in l
    ensures i < |l| && l[i] == x && x !in l[..i]
  {
    if l[0] == x then 0 else 1 + IndexOf(l[1..], x)
  }

  /** list_del of `x` from the middle of `l`. */
  function Remove(l: seq<BoId>, x: BoId): (r: seq<BoId>)
    requires x in l
  {
    var i := IndexOf(l, x);
    l[..i] + l[i + 1..]
  }

  lemma RemoveElems(l: seq<BoId>, x: BoId)
    requires x in l && NoDup(l)
    ensures |Remove(l, x)| == |l| - 1
    ensures NoDup(Remove(l, x))
    ensures forall y :: y in Remove(l, x) <==> y in l && y != x
  {
    var i := IndexOf(l, x);
    var r := Remove(l, x);
    assert forall j :: 0 <= j < |r| ==> r[j] == (if j < i then l[j] else l[j + 1]);
    forall y | y in l && y != x ensures y in r {
      var j :| 0 <= j < |l| && l[j] == y;
      assert j != i;
      if j < i { assert r[j] == y; } else { assert r[j - 1] == y; }
    }
  }

  function NBlock(bos: map<BoId, Bo>, x: BoId): nat
  {
    if x in bos then bos[x].nblock else 0
  }

  /** The sum of `nblock` over a list: what T1_num .. B2_num count. */
  ghost function Blocks(l: seq<BoId>, bos: map<BoId, Bo>): nat
  {
    if l == [] then 0 else NBlock(bos, l[0]) + Blocks(l[1..], bos)
  }

  lemma {:induction false} BlocksAppend(l: seq<BoId>, x: BoId, bos: map<BoId, Bo>)
    ensures Blocks(l + [x], bos) == Blocks(l, bos) + NBlock(bos, x)
  {
    if l != [] {
      assert (l + [x])[1..] == l[1..] + [x];
      BlocksAppend(l[1..], x, bos);
    }
  }

  lemma {:induction false} BlocksRemoveAt(l: seq<BoId>, i: nat, bos: map<BoId, Bo>)
    requires i < |l|
    ensures Blocks(l[..i] + l[i + 1..], bos) == Blocks(l, bos) - NBlock(bos, l[i])
  {
    if i == 0 {
      assert l[..0] + l[1..] == l[1..];
    } else {
      assert (l[..i] + l[i + 1..])[1..] == l[1..][..i - 1] + l[1..][i..];
      BlocksRemoveAt(l[1..], i - 1, bos);
    }
  }

  lemma BlocksRemove(l: seq<BoId>, x: BoId, bos: map<BoId, Bo>)
    requires x in l
    ensures Blocks(Remove(l, x), bos) == Blocks(l, bos) - NBlock(bos, x)
  {
    BlocksRemoveAt(l, IndexOf(l, x), bos);
  }

  /** Changing a buffer's record without changing its size keeps every sum. */
  lemma {:induction false} BlocksUpdate(l: seq<BoId>, bos: map<BoId, Bo>, x: BoId, nb: Bo)
    requires (x in bos && bos[x].nblock == nb.nblock) || x !in l
    ensures Blocks(l, bos[x := nb]) == Blocks(l, bos)
  {
    if l != [] {
      BlocksUpdate(l[1..], bos, x, nb);
    }
  }

  /** The number of referenced buffers in a list. */
  ghost function Refs(l: seq<BoId>, bos: map<BoId, Bo>): nat
  {
    if l == [] then 0
    else (if l[0] in bos && bos[l[0]].boRef != 0 then 1 else 0) + Refs(l[1..], bos)
  }

  lemma {:induction false} RefsAppend(l: seq<BoId>, x: BoId, bos: map<BoId, Bo>)
    ensures Refs(l + [x], bos) == Refs(l, bos) + Refs([x], bos)
  {
    if l != [] {
      assert (l + [x])[1..] == l[1..] + [x];
      RefsAppend(l[1..], x, bos);
    }
  }

  lemma {:induction false} RefsFrame(l: seq<BoId>, bos: map<BoId, Bo>, x: BoId, nb: Bo)
    requires x !in l
    ensures Refs(l, bos[x := nb]) == Refs(l, bos)
  {
    if l != [] {
      RefsFrame(l[1..], bos, x, nb);
    }
  }

  // ---------------------------------------------------------------------
  // The invariant

  ghost predicate ListsOk(s: State)
  {
    ListOk(s.t1, T1, s.bos) && ListOk(s.t2, T2, s.bos) &&
    ListOk(s.b1, B1, s.bos) && ListOk(s.b2, B2, s.bos) &&
    ListOk(s.pinned, NoEvicted, s.bos)
  }

  ghost predicate CountersOk(s: State)
  {
    s.t1Num == Blocks(s.t1, s.bos) && s.t2Num == Blocks(s.t2, s.bos) &&
    s.b1Num == Blocks(s.b1, s.bos) && s.b2Num == Blocks(s.b2, s.bos)
  }

  /** Blocks start .. start+n-1 lie in the managed space and belong to `id`. */
  ghost predicate Owns(owner: map<nat, BoId>, id: BoId, start: nat, n: nat, total: nat)
  {
    start + n <= total &&
    forall i :: start <= i < start + n ==> i in owner && owner[i] == id
  }

  /**
   * Exactly the resident buffers hold an allocation; each allocation is
   * owned by its buffer, and no owned block is free.
   */
  ghost predicate SpaceOk(s: State)
  {
    (forall i :: i in s.free ==> i < s.total) &&
    s.free !! s.owner.Keys &&
    (forall id :: id in s.bos ==> (s.bos[id].start.Some? <==> Resident(s.bos[id].kind))) &&
    (forall id :: id in s.bos && s.bos[id].start.Some? ==>
       Owns(s.owner, id, s.bos[id].start.value, s.bos[id].nblock, s.total))
  }

  /** A pinned buffer remembers which T list it came from. */
  ghost predicate PinsOk(s: State)
  {
    forall id :: id in s.bos && s.bos[id].kind == NoEvicted ==>
      s.bos[id].oldKind == T1 || s.bos[id].oldKind == T2
  }

  /**
   * The cache invariant: lists and tags agree, every counter is the block
   * sum of its list, p lies in [0, total_block_num], free_block_num counts
   * the allocator's free blocks, and free blocks plus the blocks of T1, T2
   * and the pinned list make up the whole space.
   */
  ghost predicate Inv(s: State)
  {
    ListsOk(s) && CountersOk(s) && SpaceOk(s) && PinsOk(s) &&
    0 <= s.p <= s.total &&
    s.freeNum == |s.free| &&
    s.freeNum + s.t1Num + s.t2Num + Blocks(s.pinned, s.bos) == s.total
  }

  // ---------------------------------------------------------------------
  // Moving one buffer between lists

  lemma ListOkOther(l: seq<BoId>, k: Kind, bos: map<BoId, Bo>, x: BoId, nb: Bo)
    requires ListOk(l, k, bos) && (x in bos ==> bos[x].kind != k) && nb.kind != k
    ensures ListOk(l, k, bos[x := nb])
  {
  }

  lemma ListOkRemove(l: seq<BoId>, k: Kind, bos: map<BoId, Bo>, x: BoId, nb: Bo)
    requires ListOk(l, k, bos) && x in l && nb.kind != k
    ensures ListOk(Remove(l, x), k, bos[x := nb])
  {
    RemoveElems(l, x);
  }

  lemma ListOkPopHead(l: seq<BoId>, k: Kind, bos: map<BoId, Bo>, nb: Bo)
    requires ListOk(l, k, bos) && l != [] && nb.kind != k
    ensures ListOk(l[1..], k, bos[l[0] := nb])
  {
    assert Remove(l, l[0]) == l[1..];
    ListOkRemove(l, k, bos, l[0], nb);
  }

  lemma ListOkAppend(l: seq<BoId>, k: Kind, bos: map<BoId, Bo>, x: BoId, nb: Bo)
    requires ListOk(l, k, bos) && (x in bos ==> bos[x].kind != k) && nb.kind == k
    ensures ListOk(l + [x], k, bos[x := nb])
  {
    assert x !in l;
  }

  lemma ListOkRotate(l: seq<BoId>, k: Kind, bos: map<BoId, Bo>, nb: Bo)
    requires ListOk(l, k, bos) && l != [] && nb.kind == k
    ensures ListOk(l[1..] + [l[0]], k, bos[l[0] := nb])
  {
    var r := l[1..] + [l[0]];
    assert forall x :: x in r <==> x in l;
    forall i, j | 0 <= i < j < |r| ensures r[i] != r[j] {
      if j == |r| - 1 { assert r[i] == l[i + 1] && r[j] == l[0]; }
      else { assert r[i] == l[i + 1] && r[j] == l[j + 1]; }
    }
  }

  lemma PopHeadBlocks(l: seq<BoId>, bos: map<BoId, Bo>)
    requires l != []
    ensures Blocks(l[1..], bos) == Blocks(l, bos) - NBlock(bos, l[0])
  {
  }

  // ---------------------------------------------------------------------
  // One examination of a list head (the body of the eviction loop)

  /** The head of `l` is a buffer holding an allocation. */
  ghost predicate HeadPlaced(l: seq<BoId>, bos: map<BoId, Bo>)
  {
    l != [] && l[0] in bos && bos[l[0]].start.Some?
  }

  /**
   * The examined head of T1 (fromT1) or of T2 is the victim: it moves to
   * the tail of B1 or B2, its nblock moves from the T counter to the B
   * counter, it is marked swapped out, and nouveau_free_blocks returns its
   * blocks to the allocator, adding nblock to free_block_num.
   */
  ghost function EvictHead(s: State, fromT1: bool): (r: State)
    requires if fromT1 then HeadPlaced(s.t1, s.bos) else HeadPlaced(s.t2, s.bos)
  {
    var h := if fromT1 then s.t1[0] else s.t2[0];
    var bo := s.bos[h];
    var R := Range(bo.start.value, bo.nblock);
    var s1 := s.(bos := s.bos[h := bo.(kind := if fromT1 then B1 else B2, start := None, swapOut := true)],
                 free := s.free + R, owner := s.owner - R, freeNum := s.freeNum + bo.nblock);
    if fromT1 then
      s1.(t1 := s.t1[1..], b1 := s.b1 + [h], t1Num := s.t1Num - bo.nblock, b1Num := s.b1Num + bo.nblock)
    else
      s1.(t2 := s.t2[1..], b2 := s.b2 + [h], t2Num := s.t2Num - bo.nblock, b2Num := s.b2Num + bo.nblock)
  }

  /** A referenced T1 head moves to the T2 tail, its nblock from T1_num to T2_num. */
  ghost function Demote(s: State): (r: State)
    requires s.t1 != [] && s.t1[0] in s.bos
  {
    var h := s.t1[0];
    var bo := s.bos[h];
    s.(t1 := s.t1[1..], t2 := s.t2 + [h], t1Num := s.t1Num - bo.nblock, t2Num := s.t2Num + bo.nblock,
       bos := s.bos[h := bo.(kind := T2)])
  }

  /** A referenced T2 head is requeued at the T2 tail with its reference bit cleared. */
  ghost function Requeue(s: State): (r: State)
    requires s.t2 != [] && s.t2[0] in s.bos
  {
    var h := s.t2[0];
    var bo := s.bos[h];
    s.(t2 := s.t2[1..] + [h], bos := s.bos[h := bo.(boRef := 0)])
  }

  lemma EvictT1Inv(s: State)
    requires Inv(s) && s.t1 != []
    ensures Inv(EvictHead(s, true))
  {
    var h := s.t1[0];
    var r := EvictHead(s, true);
    assert ListsOk(r) && PinsOk(r) by { EvictHeadLists(s, true); }
    assert CountersOk(r) && Blocks(r.pinned, r.bos) == Blocks(s.pinned, s.bos) by { EvictT1Counters(s); }
    assert SpaceOk(r) && |r.free| == |s.free| + s.bos[h].nblock by { EvictHeadSpace(s, true); }
  }

  lemma EvictT2Inv(s: State)
    requires Inv(s) && s.t2 != []
    ensures Inv(EvictHead(s, false))
  {
    var h := s.t2[0];
    var r := EvictHead(s, false);
    assert ListsOk(r) && PinsOk(r) by { EvictHeadLists(s, false); }
    assert CountersOk(r) && Blocks(r.pinned, r.bos) == Blocks(s.pinned, s.bos) by { EvictT2Counters(s); }
    assert SpaceOk(r) && |r.free| == |s.free| + s.bos[h].nblock by { EvictHeadSpace(s, false); }
  }

  lemma EvictHeadLists(s: State, fromT1: bool)
    requires Inv(s) && (if fromT1 then s.t1 != [] else s.t2 != [])
    ensures ListsOk(EvictHead(s, fromT1)) && PinsOk(EvictHead(s, fromT1))
  {
    var h := if fromT1 then s.t1[0] else s.t2[0];
    var nb := s.bos[h].(kind := if fromT1 then B1 else B2, start := None, swapOut := true);
    if fromT1 {
      ListOkPopHead(s.t1, T1, s.bos, nb);
      ListOkAppend(s.b1, B1, s.bos, h, nb);
      ListOkOther(s.t2, T2, s.bos, h, nb);
      ListOkOther(s.b2, B2, s.bos, h, nb);
    } else {
      ListOkPopHead(s.t2, T2, s.bos, nb);
      ListOkAppend(s.b2, B2, s.bos, h, nb);
      ListOkOther(s.t1, T1, s.bos, h, nb);
      ListOkOther(s.b1, B1, s.bos, h, nb);
    }
    ListOkOther(s.pinned, NoEvicted, s.bos, h, nb);
  }

  /**
   * Moving the head `h` of `src` to the tail of `dst`, with a new record of
   * the same size, moves its nblock from one sum to the other and leaves
   * the sums of lists without `h` alone.
   */
  lemma MoveHeadBlocks(src: seq<BoId>, dst: seq<BoId>, bos: map<BoId, Bo>, nb: Bo)
    requires src != [] && src[0] in bos && bos[src[0]].nblock == nb.nblock
    ensures Blocks(src[1..], bos[src[0] := nb]) == Blocks(src, bos) - nb.nblock
    ensures Blocks(dst + [src[0]], bos[src[0] := nb]) == Blocks(dst, bos) + nb.nblock
  {
    var h := src[0];
    PopHeadBlocks(src, bos);
    BlocksUpdate(src[1..], bos, h, nb);
    BlocksAppend(dst, h, bos[h := nb]);
    BlocksUpdate(dst, bos, h, nb);
  }

  lemma EvictT1Counters(s: State)
    requires Inv(s) && s.t1 != []
    ensures CountersOk(EvictHead(s, true))
    ensures Blocks(EvictHead(s, true).pinned, EvictHead(s, true).bos) == Blocks(s.pinned, s.bos)
  {
    var h := s.t1[0];
    var nb := s.bos[h].(kind := B1, start := None, swapOut := true);
    MoveHeadBlocks(s.t1, s.b1, s.bos, nb);
    BlocksUpdate(s.t2, s.bos, h, nb);
    BlocksUpdate(s.b2, s.bos, h, nb);
    BlocksUpdate(s.pinned, s.bos, h, nb);
  }

  lemma EvictT2Counters(s: State)
    requires Inv(s) && s.t2 != []
    ensures CountersOk(EvictHead(s, false))
    ensures Blocks(EvictHead(s, false).pinned, EvictHead(s, false).bos) == Blocks(s.pinned, s.bos)
  {
    var h := s.t2[0];
    var nb := s.bos[h].(kind := B2, start := None, swapOut := true);
    MoveHeadBlocks(s.t2, s.b2, s.bos, nb);
    BlocksUpdate(s.t1, s.bos, h, nb);
    BlocksUpdate(s.b1, s.bos, h, nb);
    BlocksUpdate(s.pinned, s.bos, h, nb);
  }

  /** Evicting a resident head returns its blocks to the allocator consistently. */
  lemma EvictHeadSpace(s: State, fromT1: bool)
    requires SpaceOk(s)
    requires if fromT1 then HeadPlaced(s.t1, s.bos) else HeadPlaced(s.t2, s.bos)
    requires Resident(s.bos[if fromT1 then s.t1[0] else s.t2[0]].kind)
    ensures var h := if fromT1 then s.t1[0] else s.t2[0];
      SpaceOk(EvictHead(s, fromT1)) && |EvictHead(s, fromT1).free| == |s.free| + s.bos[h].nblock
  {
    var h := if fromT1 then s.t1[0] else s.t2[0];
    var nb := s.bos[h].(kind := if fromT1 then B1 else B2, start := None, swapOut := true);
    ReleaseSpace(s, h, nb, EvictHead(s, fromT1));
  }

  /** Returning a resident buffer's blocks keeps the allocator consistent. */
  lemma ReleaseSpace(s: State, h: BoId, nb: Bo, r: State)
    requires SpaceOk(s) && h in s.bos && Resident(s.bos[h].kind)
    requires !Resident(nb.kind) && nb.start.None? && nb.nblock == s.bos[h].nblock
    requires r.total == s.total && r.bos == s.bos[h := nb]
    requires r.free == s.free + Range(s.bos[h].start.value, s.bos[h].nblock)
    requires r.owner == s.owner - Range(s.bos[h].start.value, s.bos[h].nblock)
    ensures SpaceOk(r) && |r.free| == |s.free| + s.bos[h].nblock
  {
    var bo := s.bos[h];
    var R := Range(bo.start.value, bo.nblock);
    forall i: nat { InRange(bo.start.value, bo.nblock, i); }
    RangeCard(bo.start.value, bo.nblock);
    assert s.free * R == {};
    forall id | id in r.bos && r.bos[id].start.Some?
      ensures Owns(r.owner, id, r.bos[id].start.value, r.bos[id].nblock, r.total)
    {
      assert id != h;
    }
  }

  lemma DemoteInv(s: State)
    requires Inv(s) && s.t1 != []
    ensures Inv(Demote(s))
  {
    var h := s.t1[0];
    var bo := s.bos[h];
    var nb := bo.(kind := T2);
    var bos' := s.bos[h := nb];
    var r := Demote(s);
    ListOkPopHead(s.t1, T1, s.bos, nb);
    ListOkAppend(s.t2, T2, s.bos, h, nb);
    ListOkOther(s.b1, B1, s.bos, h, nb);
    ListOkOther(s.b2, B2, s.bos, h, nb);
    ListOkOther(s.pinned, NoEvicted, s.bos, h, nb);
    MoveHeadBlocks(s.t1, s.t2, s.bos, nb);
    BlocksUpdate(s.b1, s.bos, h, nb);
    BlocksUpdate(s.b2, s.bos, h, nb);
    BlocksUpdate(s.pinned, s.bos, h, nb);
    assert ListsOk(r);
    assert CountersOk(r);
    assert SpaceOk(r);
  }

  lemma RequeueInv(s: State)
    requires Inv(s) && s.t2 != []
    ensures Inv(Requeue(s))
    ensures Refs(Requeue(s).t2, Requeue(s).bos) ==
            Refs(s.t2, s.bos) - (if s.bos[s.t2[0]].boRef != 0 then 1 else 0)
  {
    var h := s.t2[0];
    var bo := s.bos[h];
    var nb := bo.(boRef := 0);
    var r := Requeue(s);
    assert ListsOk(r) by {
      ListOkRotate(s.t2, T2, s.bos, nb);
      ListOkOther(s.t1, T1, s.bos, h, nb);
      ListOkOther(s.b1, B1, s.bos, h, nb);
      ListOkOther(s.b2, B2, s.bos, h, nb);
      ListOkOther(s.pinned, NoEvicted, s.bos, h, nb);
    }
    assert CountersOk(r) && Blocks(r.pinned, r.bos) == Blocks(s.pinned, s.bos) by {
      PopHeadBlocks(s.t2, s.bos);
      BlocksAppend(s.t2[1..], h, s.bos);
      BlocksUpdate(s.t2[1..] + [h], s.bos, h, nb);
      BlocksUpdate(s.t1, s.bos, h, nb);
      BlocksUpdate(s.b1, s.bos, h, nb);
      BlocksUpdate(s.b2, s.bos, h, nb);
      BlocksUpdate(s.pinned, s.bos, h, nb);
    }
    assert SpaceOk(r);
    RotateRefs(s.t2, s.bos, nb);
  }

  lemma RotateRefs(l: seq<BoId>, bos: map<BoId, Bo>, nb: Bo)
    requires NoDup(l) && l != [] && l[0] in bos && nb.boRef == 0
    ensures Refs(l[1..] + [l[0]], bos[l[0] := nb]) == Refs(l, bos) - (if bos[l[0]].boRef != 0 then 1 else 0)
  {
    assert l[0] !in l[1..];
    RefsAppend(l[1..], l[0], bos[l[0] := nb]);
    RefsFrame(l[1..], bos, l[0], nb);
  }

  lemma {:induction false} BlocksAgree(l: seq<BoId>, bos: map<BoId, Bo>, bos': map<BoId, Bo>)
    requires forall x :: x in l ==> NBlock(bos, x) == NBlock(bos', x)
    ensures Blocks(l, bos) == Blocks(l, bos')
  {
    if l != [] {
      BlocksAgree(l[1..], bos, bos');
    }
  }

  /** Every pinned buffer of `s` keeps its record in `r`. */
  ghost predicate PinnedKept(s: State, r: State)
  {
    forall id :: id in s.bos && s.bos[id].kind == NoEvicted ==> id in r.bos && r.bos[id] == s.bos[id]
  }

  /**
   * The list the eviction loop examines: T1 when T1_num >= max(1, p),
   * otherwise T2; T1 also when T2 is empty.
   */
  predicate UseT1(s: State)
  {
    s.t1Num >= Max(1, s.p) || s.t2 == []
  }

  /** The buffer whose head position is examined next. */
  ghost function Examinee(s: State): (h: BoId)
    requires Inv(s) && (s.t1 != [] || s.t2 != [])
    ensures h in s.bos && (s.bos[h].kind == T1 || s.bos[h].kind == T2) && s.bos[h].start.Some?
  {
    ResidentHeads(s);
    if UseT1(s) then
      assert s.t1 != [] by { if s.t1 == [] { assert false; } }
      s.t1[0]
    else s.t2[0]
  }

  datatype Examined = Examined(state: State, victim: Option<BoId>)

  /**
   * One pass of the eviction loop body: examine the head of T1 or T2 and
   * either take it as the victim (reference bit clear) or move it on.
   */
  ghost function Step(s: State): (r: Examined)
    requires Inv(s) && (s.t1 != [] || s.t2 != [])
  {
    var h := Examinee(s);
    if UseT1(s) then
      if s.bos[h].boRef == 0 then Examined(EvictHead(s, true), Some(h)) else Examined(Demote(s), None)
    else
      if s.bos[h].boRef == 0 then Examined(EvictHead(s, false), Some(h)) else Examined(Requeue(s), None)
  }

  /** What the eviction step does to the state, and that it keeps the invariant. */
  lemma StepFacts(s: State)
    requires Inv(s) && (s.t1 != [] || s.t2 != [])
    ensures var r := Step(s);
      r.state.total == s.total && r.state.p == s.p && r.state.pinned == s.pinned &&
      r.state.bos.Keys == s.bos.Keys && PinnedKept(s, r.state) &&
      Blocks(r.state.pinned, r.state.bos) == Blocks(s.pinned, s.bos)
    ensures var r := Step(s);
      forall id :: id in s.bos && id != Examinee(s) ==> r.state.bos[id] == s.bos[id]
    // the examined head is the victim exactly when its reference bit is clear
    ensures Step(s).victim.Some? <==> s.bos[Examinee(s)].boRef == 0
    ensures Step(s).victim.Some? ==> Step(s).victim.value == Examinee(s)
    // a victim ends up on the ghost list matching the list it came from, its blocks freed
    ensures var r := Step(s); var h := Examinee(s);
      r.victim.Some? ==>
        r.state.bos[h].kind == (if UseT1(s) then B1 else B2) && r.state.bos[h].start.None? &&
        r.state.freeNum == s.freeNum + s.bos[h].nblock &&
        Range(s.bos[h].start.value, s.bos[h].nblock) <= r.state.free &&
        |r.state.t1| + |r.state.t2| == |s.t1| + |s.t2| - 1
    // otherwise the head stays resident, at the tail of T2, and nothing is freed
    ensures var r := Step(s); var h := Examinee(s);
      r.victim.None? ==>
        r.state.bos[h].kind == T2 && r.state.t2 != [] && r.state.t2[|r.state.t2| - 1] == h &&
        r.state.freeNum == s.freeNum && r.state.free == s.free &&
        |r.state.t1| + |r.state.t2| == |s.t1| + |s.t2|
    ensures var r := Step(s);
      r.victim.None? && UseT1(s) ==> |r.state.t1| == |s.t1| - 1
    ensures var r := Step(s);
      r.victim.None? && !UseT1(s) ==> r.state.t1 == s.t1 && Refs(r.state.t2, r.state.bos) < Refs(s.t2, s.bos)
  {
    var h := Examinee(s);
    ResidentHeads(s);
    if UseT1(s) {
      if s.bos[h].boRef == 0 {
        EvictT1Frame(s); EvictT1Inv(s); PinnedBlocks(s, EvictHead(s, true));
      } else {
        DemoteFrame(s); DemoteInv(s); PinnedBlocks(s, Demote(s));
      }
    } else {
      if s.bos[h].boRef == 0 {
        EvictT2Frame(s); EvictT2Inv(s); PinnedBlocks(s, EvictHead(s, false));
      } else {
        RequeueFrame(s); RequeueInv(s); PinnedBlocks(s, Requeue(s));
      }
    }
  }

  /** One pass of the eviction loop keeps the cache invariant. */
  lemma StepInv(s: State)
    requires Inv(s) && (s.t1 != [] || s.t2 != [])
    ensures Inv(Step(s).state)
  {
    var h := Examinee(s);
    ResidentHeads(s);
    if UseT1(s) {
      if s.bos[h].boRef == 0 { EvictT1Inv(s); } else { DemoteInv(s); }
    } else {
      if s.bos[h].boRef == 0 { EvictT2Inv(s); } else { RequeueInv(s); }
    }
  }

  /** The heads of T1 and T2 are resident buffers of those lists, holding allocations. */
  lemma ResidentHeads(s: State)
    requires Inv(s)
    ensures s.t1 != [] ==> HeadPlaced(s.t1, s.bos) && s.bos[s.t1[0]].kind == T1
    ensures s.t2 != [] ==> HeadPlaced(s.t2, s.bos) && s.bos[s.t2[0]].kind == T2
  {
  }

  lemma EvictT1Frame(s: State)
    requires HeadPlaced(s.t1, s.bos) && s.bos[s.t1[0]].kind == T1
    ensures var r := EvictHead(s, true); var h := s.t1[0];
      r.total == s.total && r.p == s.p && r.pinned == s.pinned &&
      r.bos.Keys == s.bos.Keys && PinnedKept(s, r) &&
      (forall id :: id in s.bos && id != h ==> r.bos[id] == s.bos[id]) &&
      r.bos[h].kind == B1 && r.bos[h].start.None? &&
      r.freeNum == s.freeNum + s.bos[h].nblock &&
      Range(s.bos[h].start.value, s.bos[h].nblock) <= r.free &&
      |r.t1| + |r.t2| == |s.t1| + |s.t2| - 1
  {
  }

  lemma EvictT2Frame(s: State)
    requires HeadPlaced(s.t2, s.bos) && s.bos[s.t2[0]].kind == T2
    ensures var r := EvictHead(s, false); var h := s.t2[0];
      r.total == s.total && r.p == s.p && r.pinned == s.pinned &&
      r.bos.Keys == s.bos.Keys && PinnedKept(s, r) &&
      (forall id :: id in s.bos && id != h ==> r.bos[id] == s.bos[id]) &&
      r.bos[h].kind == B2 && r.bos[h].start.None? &&
      r.freeNum == s.freeNum + s.bos[h].nblock &&
      Range(s.bos[h].start.value, s.bos[h].nblock) <= r.free &&
      |r.t1| + |r.t2| == |s.t1| + |s.t2| - 1
  {
  }

  lemma DemoteFrame(s: State)
    requires HeadPlaced(s.t1, s.bos) && s.bos[s.t1[0]].kind == T1
    ensures var r := Demote(s); var h := s.t1[0];
      r.total == s.total && r.p == s.p && r.pinned == s.pinned &&
      r.bos.Keys == s.bos.Keys && PinnedKept(s, r) &&
      (forall id :: id in s.bos && id != h ==> r.bos[id] == s.bos[id]) &&
      r.bos[h].kind == T2 && r.t2 != [] && r.t2[|r.t2| - 1] == h &&
      r.freeNum == s.freeNum && r.free == s.free &&
      |r.t1| == |s.t1| - 1 && |r.t1| + |r.t2| == |s.t1| + |s.t2|
  {
  }

  lemma RequeueFrame(s: State)
    requires HeadPlaced(s.t2, s.bos) && s.bos[s.t2[0]].kind == T2
    ensures var r := Requeue(s); var h := s.t2[0];
      r.total == s.total && r.p == s.p && r.pinned == s.pinned &&
      r.bos.Keys == s.bos.Keys && PinnedKept(s, r) &&
      (forall id :: id in s.bos && id != h ==> r.bos[id] == s.bos[id]) &&
      r.bos[h].kind == T2 && r.t2 != [] && r.t2[|r.t2| - 1] == h &&
      r.freeNum == s.freeNum && r.free == s.free &&
      r.t1 == s.t1 && |r.t2| == |s.t2|
  {
  }

  lemma PinnedBlocks(s: State, r: State)
    requires ListOk(s.pinned, NoEvicted, s.bos) && r.pinned == s.pinned && PinnedKept(s, r)
    ensures Blocks(r.pinned, r.bos) == Blocks(s.pinned, s.bos)
  {
    BlocksAgree(s.pinned, s.bos, r.bos);
  }

  /**
   * What the eviction loop guarantees between the state it starts from and
   * the state it leaves: p, the pinned list, the pinned buffers and every
   * non-resident record are untouched; T1 and T2 together never grow; and
   * every block that leaves the T1/T2 accounting goes back to the allocator
   * (free_block_num).
   */
  ghost predicate Evicted(s: State, r: State)
  {
    r.total == s.total && r.p == s.p && r.pinned == s.pinned &&
    r.bos.Keys == s.bos.Keys && PinnedKept(s, r) &&
    (forall x :: x in s.bos && !Resident(s.bos[x].kind) ==> r.bos[x] == s.bos[x]) &&
    |r.t1| + |r.t2| <= |s.t1| + |s.t2| &&
    r.freeNum + r.t1Num + r.t2Num == s.freeNum + s.t1Num + s.t2Num
  }

  /** One pass of the eviction loop body is an eviction in that sense. */
  lemma StepEvicted(s: State)
    requires Inv(s) && (s.t1 != [] || s.t2 != [])
    ensures Evicted(s, Step(s).state)
  {
    StepFacts(s);
    StepInv(s);
  }

  /** Evictions compose. */
  lemma EvictedTrans(a: State, b: State, c: State)
    requires Evicted(a, b) && Evicted(b, c)
    ensures Evicted(a, c)
  {
  }

  /**
   * One point of the eviction loop (evict_somthing): the state, the blocks
   * freed so far and whether a victim was taken.
   */
  datatype Point = Point(state: State, freed: nat, found: bool)

  /** The loop stops once a victim was taken and `need` blocks are freed, or once T1 and T2 are empty. */
  ghost predicate Stops(p: Point, need: nat)
  {
    (p.found && p.freed >= need) || (p.state.t1 == [] && p.state.t2 == [])
  }

  /** The point one pass of the loop leads to from `p`. */
  ghost function Next(p: Point): Point
    requires Inv(p.state) && (p.state.t1 != [] || p.state.t2 != [])
  {
    var e := Step(p.state);
    Point(e.state, p.freed + (if e.victim.Some? then p.state.bos[Examinee(p.state)].nblock else 0), p.found || e.victim.Some?)
  }

  /** One pass of the loop leads from `p` to `q`: `p` does not stop, and `q` is the pass taken from it. */
  ghost predicate Advance(p: Point, q: Point, need: nat)
  {
    Inv(p.state) && !Stops(p, need) && q == Next(p)
  }

  /** A run of the loop: consecutive points are one pass apart. */
  ghost predicate Run(tr: seq<Point>, need: nat)
  {
    |tr| > 0 && forall i {:trigger Advance(tr[i], tr[i + 1], need)} :: 0 <= i < |tr| - 1 ==> Advance(tr[i], tr[i + 1], need)
  }

  /** Any two consecutive points of a run are one pass apart. */
  lemma RunAt(tr: seq<Point>, i: nat, need: nat)
    requires Run(tr, need) && i < |tr| - 1
    ensures Advance(tr[i], tr[i + 1], need)
  {
  }

  /** A run goes on by one more pass. */
  lemma RunExtend(tr: seq<Point>, q: Point, need: nat)
    requires Run(tr, need)
    requires Inv(tr[|tr| - 1].state) && !Stops(tr[|tr| - 1], need) && q == Next(tr[|tr| - 1])
    ensures Run(tr + [q], need) && (tr + [q])[0] == tr[0]
  {
    var tr' := tr + [q];
    forall i | 0 <= i < |tr'| - 1
      ensures Advance(tr'[i], tr'[i + 1], need)
    {
      if i < |tr| - 1 {
        RunAt(tr, i, need);
        AdvanceSame(tr[i], tr[i + 1], tr'[i], tr'[i + 1], need);
      }
    }
  }

  /** The victim a step takes is the head it examined. */
  lemma StepVictim(s: State)
    requires Inv(s) && (s.t1 != [] || s.t2 != [])
    ensures Step(s).victim.Some? ==> Step(s).victim.value == Examinee(s)
  {
  }

  /**
   * One pass of the loop, as the cache object takes it: from the last point
   * of a run, at state `s`, the step leads to point `q`, and the run goes
   * on to it.
   */
  lemma PassTo(tr: seq<Point>, s: State, q: Point, need: nat)
    requires Run(tr, need) && tr[|tr| - 1].state == s && Inv(s) && (s.t1 != [] || s.t2 != [])
    requires !(tr[|tr| - 1].found && tr[|tr| - 1].freed >= need)
    requires q.state == Step(s).state && q.found == (tr[|tr| - 1].found || Step(s).victim.Some?)
    requires q.freed == tr[|tr| - 1].freed + if Step(s).victim.Some? then s.bos[Step(s).victim.value].nblock else 0
    ensures Run(tr + [q], need)
  {
    StepVictim(s);
    RunExtend(tr, q, need);
  }

  /** A run from `p` to a point where the loop stops. */
  ghost predicate Finished(tr: seq<Point>, p: Point, need: nat)
  {
    Run(tr, need) && tr[0] == p && Stops(tr[|tr| - 1], need)
  }

  /**
   * The loop is deterministic: two finished runs from the same point are the
   * same run, so the final state and the outcome are functions of the start.
   */
  lemma {:induction false} FinishedUnique(tr: seq<Point>, tr2: seq<Point>, p: Point, need: nat)
    requires Finished(tr, p, need) && Finished(tr2, p, need)
    ensures tr == tr2
    decreases |tr|
  {
    if |tr| == 1 || |tr2| == 1 {
      if |tr| != |tr2| {
        // the shorter run stops at the start, where the longer one passes on
        if |tr| > 1 { RunAt(tr, 0, need); } else { RunAt(tr2, 0, need); }
      }
    } else {
      RunAt(tr, 0, need);
      RunAt(tr2, 0, need);
      var t, t2 := tr[1..], tr2[1..];
      RunTail(tr, need);
      RunTail(tr2, need);
      FinishedUnique(t, t2, Next(p), need);
      assert tr == [tr[0]] + t && tr2 == [tr2[0]] + t2;
    }
  }

  /** A run without its first point is still a run. */
  lemma RunTail(tr: seq<Point>, need: nat)
    requires Run(tr, need) && |tr| > 1
    ensures Run(tr[1..], need)
  {
    var t := tr[1..];
    forall i | 0 <= i < |t| - 1 ensures Advance(t[i], t[i + 1], need) {
      var j := i + 1;
      RunAt(tr, j, need);
      AdvanceSame(tr[j], tr[j + 1], t[i], t[i + 1], need);
    }
  }

  /** Advance carried over to equal points, without unfolding it. */
  lemma AdvanceSame(p: Point, q: Point, p2: Point, q2: Point, need: nat)
    requires Advance(p, q, need) && p2 == p && q2 == q
    ensures Advance(p2, q2, need)
  {
  }

  // ---------------------------------------------------------------------
  // Directory trim (nouveau_update_directory)

  /** The head of B1 (fromB1) or B2 is dropped from the directory. */
  ghost function DropHead(s: State, fromB1: bool): (r: State)
    requires if fromB1 then s.b1 != [] && s.b1[0] in s.bos else s.b2 != [] && s.b2[0] in s.bos
  {
    var h := if fromB1 then s.b1[0] else s.b2[0];
    var bo := s.bos[h];
    var bos' := s.bos[h := bo.(kind := Unlisted)];
    if fromB1 then s.(b1 := s.b1[1..], b1Num := s.b1Num - bo.nblock, bos := bos')
    else s.(b2 := s.b2[1..], b2Num := s.b2Num - bo.nblock, bos := bos')
  }

  /** Dropping a ghost head touches only its list, its counter and its tag. */
  lemma DropHeadFrame(s: State, fromB1: bool)
    requires if fromB1 then s.b1 != [] && s.b1[0] in s.bos && s.bos[s.b1[0]].kind == B1
             else s.b2 != [] && s.b2[0] in s.bos && s.bos[s.b2[0]].kind == B2
    ensures var r := DropHead(s, fromB1);
      r.t1 == s.t1 && r.t2 == s.t2 && r.pinned == s.pinned &&
      r.t1Num == s.t1Num && r.t2Num == s.t2Num && r.p == s.p && r.total == s.total &&
      r.free == s.free && r.freeNum == s.freeNum && r.owner == s.owner && r.bos.Keys == s.bos.Keys
    ensures var r := DropHead(s, fromB1);
      if fromB1 then r.b1 == s.b1[1..] && r.b2 == s.b2 else r.b2 == s.b2[1..] && r.b1 == s.b1
    ensures var r := DropHead(s, fromB1);
      forall x :: x in s.bos && s.bos[x].kind != (if fromB1 then B1 else B2) ==> r.bos[x] == s.bos[x]
  {
  }

  lemma DropB1Inv(s: State)
    requires Inv(s) && s.b1 != []
    ensures Inv(DropHead(s, true))
  {
    var h := s.b1[0];
    var nb := s.bos[h].(kind := Unlisted);
    var r := DropHead(s, true);
    assert r.bos == s.bos[h := nb];
    assert ListsOk(r) && PinsOk(r) by {
      ListOkPopHead(s.b1, B1, s.bos, nb);
      ListOkOther(s.t1, T1, s.bos, h, nb);
      ListOkOther(s.t2, T2, s.bos, h, nb);
      ListOkOther(s.b2, B2, s.bos, h, nb);
      ListOkOther(s.pinned, NoEvicted, s.bos, h, nb);
    }
    assert CountersOk(r) && Blocks(r.pinned, r.bos) == Blocks(s.pinned, s.bos) by {
      PopHeadBlocks(s.b1, s.bos);
      BlocksUpdate(s.b1[1..], s.bos, h, nb);
      BlocksUpdate(s.t1, s.bos, h, nb);
      BlocksUpdate(s.t2, s.bos, h, nb);
      BlocksUpdate(s.b2, s.bos, h, nb);
      BlocksUpdate(s.pinned, s.bos, h, nb);
    }
    assert SpaceOk(r);
  }

  lemma DropB2Inv(s: State)
    requires Inv(s) && s.b2 != []
    ensures Inv(DropHead(s, false))
  {
    var h := s.b2[0];
    var nb := s.bos[h].(kind := Unlisted);
    var r := DropHead(s, false);
    assert r.bos == s.bos[h := nb];
    assert ListsOk(r) && PinsOk(r) by {
      ListOkPopHead(s.b2, B2, s.bos, nb);
      ListOkOther(s.t1, T1, s.bos, h, nb);
      ListOkOther(s.t2, T2, s.bos, h, nb);
      ListOkOther(s.b1, B1, s.bos, h, nb);
      ListOkOther(s.pinned, NoEvicted, s.bos, h, nb);
    }
    assert CountersOk(r) && Blocks(r.pinned, r.bos) == Blocks(s.pinned, s.bos) by {
      PopHeadBlocks(s.b2, s.bos);
      BlocksUpdate(s.b2[1..], s.bos, h, nb);
      BlocksUpdate(s.t1, s.bos, h, nb);
      BlocksUpdate(s.t2, s.bos, h, nb);
      BlocksUpdate(s.b1, s.bos, h, nb);
      BlocksUpdate(s.pinned, s.bos, h, nb);
    }
    assert SpaceOk(r);
  }

  /** The heads of B1 and B2, when there are any, are known buffers. */
  ghost predicate GhostHeadsKnown(s: State)
  {
    (s.b1 != [] ==> s.b1[0] in s.bos) && (s.b2 != [] ==> s.b2[0] in s.bos)
  }

  /**
   * nouveau_update_directory for requester `id`: only for a requester that
   * is not a ghost hit, drop the head of B1 when B1_num + T1_num reaches
   * total_block_num, otherwise the head of B2 when all four counters reach
   * twice total_block_num.
   */
  ghost function UpdateDirectory(s: State, id: BoId): (r: State)
    requires id in s.bos && GhostHeadsKnown(s)
  {
    if IsGhost(s.bos[id].kind) then s
    else if s.b1Num + s.t1Num >= s.total then
      if s.b1 != [] then DropHead(s, true) else s
    else if s.b1Num + s.t1Num + s.b2Num + s.t2Num >= 2 * s.total then
      if s.b2 != [] then DropHead(s, false) else s
    else s
  }

  /** What a directory trim leaves alone: everything but the B1/B2 lists and counters. */
  ghost predicate DirFrame(s: State, r: State, id: BoId)
    requires id in s.bos
  {
    r.t1 == s.t1 && r.t2 == s.t2 && r.pinned == s.pinned &&
    r.t1Num == s.t1Num && r.t2Num == s.t2Num && r.p == s.p && r.total == s.total &&
    r.free == s.free && r.freeNum == s.freeNum && r.owner == s.owner &&
    r.bos.Keys == s.bos.Keys && r.bos[id] == s.bos[id] && PinnedKept(s, r) &&
    (forall x :: x in s.bos && Resident(s.bos[x].kind) ==> r.bos[x] == s.bos[x])
  }

  lemma UpdateDirectoryFacts(s: State, id: BoId)
    requires Inv(s) && id in s.bos
    ensures Inv(UpdateDirectory(s, id)) && DirFrame(s, UpdateDirectory(s, id), id)
  {
    var r := UpdateDirectory(s, id);
    if !IsGhost(s.bos[id].kind) && s.b1Num + s.t1Num >= s.total && s.b1 != [] {
      assert r == DropHead(s, true);
      assert DirFrame(s, r, id) by { DropHeadFrame(s, true); }
      assert Inv(r) by { DropB1Inv(s); }
    } else if !IsGhost(s.bos[id].kind) && s.b1Num + s.t1Num < s.total &&
              s.b1Num + s.t1Num + s.b2Num + s.t2Num >= 2 * s.total && s.b2 != [] {
      assert r == DropHead(s, false);
      assert DirFrame(s, r, id) by { DropHeadFrame(s, false); }
      assert Inv(r) by { DropB2Inv(s); }
    } else {
      assert r == s;
    }
  }

  /**
   * A ghost hit leaves the directory alone; otherwise at most one entry
   * goes, the head of B1 or of B2, each under its own condition.
   */
  lemma UpdateDirectoryDrops(s: State, id: BoId)
    requires Inv(s) && id in s.bos
    ensures IsGhost(s.bos[id].kind) ==> UpdateDirectory(s, id) == s
    ensures var r := UpdateDirectory(s, id);
      (r.b1 == s.b1 && r.b2 == s.b2) ||
      (s.b1 != [] && r.b1 == s.b1[1..] && r.b2 == s.b2 && !IsGhost(s.bos[id].kind) &&
       s.b1Num + s.t1Num >= s.total) ||
      (s.b2 != [] && r.b2 == s.b2[1..] && r.b1 == s.b1 && !IsGhost(s.bos[id].kind) &&
       s.b1Num + s.t1Num < s.total && s.b1Num + s.t1Num + s.b2Num + s.t2Num >= 2 * s.total)
  {
  }

  // ---------------------------------------------------------------------
  // Placement (the tail of nouveau_find_mem_space)

  /** max(1, a / b) as the driver computes it; a zero divisor reads as 1. */
  function Ratio(a: int, b: int): (r: int)
    ensures r >= 1
    ensures b > 0 && a >= b ==> r * b <= a < (r + 1) * b
    ensures b <= 0 || a < 2 * b ==> r == 1
  {
    if b <= 0 then 1 else Max(1, a / b)
  }

  /** A B1 hit grows the T1 target: p := min(p + max(1, B2_num/B1_num), total). */
  function AdaptUp(p: int, b1Num: int, b2Num: int, total: nat): (r: int)
    requires 0 <= p <= total
    ensures p <= r <= total
    ensures p < total ==> p < r
  {
    Min(p + Ratio(b2Num, b1Num), total)
  }

  /** A B2 hit shrinks the T1 target: p := max(p - max(1, B1_num/B2_num), 0). */
  function AdaptDown(p: int, b1Num: int, b2Num: int): (r: int)
    requires 0 <= p
    ensures 0 <= r <= p
    ensures 0 < p ==> r < p
  {
    Max(p - Ratio(b1Num, b2Num), 0)
  }

  /** The blocks start .. start+n-1 become owned by `id`. */
  function Claim(owner: map<nat, BoId>, r: set<nat>, id: BoId): map<nat, BoId>
  {
    owner + map i | i in r :: id
  }

  /**
   * Buffer `id` (new, or a ghost hit on B1/B2) gets blocks start ..
   * start+bnum-1: a new buffer goes to the T1 tail and T1_num grows by
   * bnum; a ghost hit adapts p, moves to the T2 tail and takes its nblock
   * from B1_num/B2_num to T2_num. Its reference bit is cleared and
   * free_block_num drops by bnum.
   */
  ghost function Admit(s: State, id: BoId, start: nat, bnum: nat): (r: State)
    requires id in s.bos && !Resident(s.bos[id].kind)
    requires s.bos[id].kind == B1 || s.bos[id].kind == B2 ==> s.bos[id].nblock == bnum
    requires s.bos[id].kind == B1 ==> id in s.b1
    requires s.bos[id].kind == B2 ==> id in s.b2
    requires start + bnum <= s.total && Fits(s.free, start, bnum) && 0 <= s.p <= s.total
  {
    var bo := s.bos[id];
    var R := Range(start, bnum);
    var s1 := s.(free := s.free - R, owner := Claim(s.owner, R, id), freeNum := s.freeNum - bnum);
    match bo.kind
    case B1 =>
      s1.(p := AdaptUp(s.p, s.b1Num, s.b2Num, s.total),
          b1 := Remove(s.b1, id), t2 := s.t2 + [id],
          b1Num := s.b1Num - bo.nblock, t2Num := s.t2Num + bo.nblock,
          bos := s.bos[id := bo.(kind := T2, boRef := 0, start := Some(start))])
    case B2 =>
      s1.(p := AdaptDown(s.p, s.b1Num, s.b2Num),
          b2 := Remove(s.b2, id), t2 := s.t2 + [id],
          b2Num := s.b2Num - bo.nblock, t2Num := s.t2Num + bo.nblock,
          bos := s.bos[id := bo.(kind := T2, boRef := 0, start := Some(start))])
    case _ =>
      s1.(t1 := s.t1 + [id], t1Num := s.t1Num + bnum,
          bos := s.bos[id := bo.(kind := T1, boRef := 0, start := Some(start))])
  }

  /** Handing a non-resident buffer a free run keeps the allocator consistent. */
  lemma ReserveSpace(s: State, id: BoId, nb: Bo, r: State)
    requires SpaceOk(s) && id in s.bos && !Resident(s.bos[id].kind)
    requires Resident(nb.kind) && nb.start.Some? && nb.nblock == s.bos[id].nblock
    requires nb.start.value + nb.nblock <= s.total && Fits(s.free, nb.start.value, nb.nblock)
    requires r.total == s.total && r.bos == s.bos[id := nb]
    requires r.free == s.free - Range(nb.start.value, nb.nblock)
    requires r.owner == Claim(s.owner, Range(nb.start.value, nb.nblock), id)
    ensures SpaceOk(r) && |r.free| == |s.free| - nb.nblock
  {
    var R := Range(nb.start.value, nb.nblock);
    RangeCard(nb.start.value, nb.nblock);
    FitsRange(s.free, nb.start.value, nb.nblock);
    assert R <= s.free;
    assert R !! s.owner.Keys;
    forall x | x in r.bos && r.bos[x].start.Some?
      ensures Owns(r.owner, x, r.bos[x].start.value, r.bos[x].nblock, r.total)
    {
      if x == id {
        ClaimOwnsNew(s.owner, nb.start.value, nb.nblock, s.total, id);
      } else {
        var b := s.bos[x];
        ClaimKeeps(s.owner, R, id, x, b.start.value, b.nblock, s.total);
      }
    }
  }

  /** The claimed run belongs to the claiming buffer. */
  lemma ClaimOwnsNew(owner: map<nat, BoId>, start: nat, n: nat, total: nat, id: BoId)
    requires start + n <= total
    ensures Owns(Claim(owner, Range(start, n), id), id, start, n, total)
  {
    forall i | start <= i < start + n
      ensures i in Claim(owner, Range(start, n), id) && Claim(owner, Range(start, n), id)[i] == id
    {
      InRange(start, n, i);
    }
  }

  /** Claiming blocks nobody owns leaves every existing allocation with its owner. */
  lemma ClaimKeeps(owner: map<nat, BoId>, r: set<nat>, id: BoId, x: BoId, start: nat, n: nat, total: nat)
    requires Owns(owner, x, start, n, total) && r !! owner.Keys
    ensures Owns(Claim(owner, r, id), x, start, n, total)
  {
    forall i | start <= i < start + n
      ensures i in Claim(owner, r, id) && Claim(owner, r, id)[i] == x
    {
      assert i in owner.Keys;
    }
  }

  lemma {:induction false} MoveBlocks(src: seq<BoId>, dst: seq<BoId>, bos: map<BoId, Bo>, x: BoId, nb: Bo)
    requires x in src && x in bos && bos[x].nblock == nb.nblock
    ensures Blocks(Remove(src, x), bos[x := nb]) == Blocks(src, bos) - nb.nblock
    ensures Blocks(dst + [x], bos[x := nb]) == Blocks(dst, bos) + nb.nblock
  {
    BlocksRemove(src, x, bos);
    BlocksUpdate(Remove(src, x), bos, x, nb);
    BlocksAppend(dst, x, bos[x := nb]);
    BlocksUpdate(dst, bos, x, nb);
  }

  lemma AdmitNewInv(s: State, id: BoId, start: nat, bnum: nat)
    requires Inv(s) && id in s.bos && s.bos[id].kind == Unlisted && s.bos[id].nblock == bnum
    requires start + bnum <= s.total && Fits(s.free, start, bnum)
    ensures Inv(Admit(s, id, start, bnum))
  {
    var nb := s.bos[id].(kind := T1, boRef := 0, start := Some(start));
    var r := Admit(s, id, start, bnum);
    assert ListsOk(r) by {
      ListOkAppend(s.t1, T1, s.bos, id, nb);
      ListOkOther(s.t2, T2, s.bos, id, nb);
      ListOkOther(s.b1, B1, s.bos, id, nb);
      ListOkOther(s.b2, B2, s.bos, id, nb);
      ListOkOther(s.pinned, NoEvicted, s.bos, id, nb);
    }
    assert CountersOk(r) && Blocks(r.pinned, r.bos) == Blocks(s.pinned, s.bos) by {
      BlocksAppend(s.t1, id, r.bos);
      BlocksUpdate(s.t1, s.bos, id, nb);
      BlocksUpdate(s.t2, s.bos, id, nb);
      BlocksUpdate(s.b1, s.bos, id, nb);
      BlocksUpdate(s.b2, s.bos, id, nb);
      BlocksUpdate(s.pinned, s.bos, id, nb);
    }
    assert SpaceOk(r) && |r.free| == |s.free| - bnum by { ReserveSpace(s, id, nb, r); }
  }

  lemma AdmitB1Inv(s: State, id: BoId, start: nat, bnum: nat)
    requires Inv(s) && id in s.bos && s.bos[id].kind == B1 && s.bos[id].nblock == bnum
    requires start + bnum <= s.total && Fits(s.free, start, bnum)
    ensures Inv(Admit(s, id, start, bnum))
  {
    var nb := s.bos[id].(kind := T2, boRef := 0, start := Some(start));
    var r := Admit(s, id, start, bnum);
    assert ListsOk(r) by {
      ListOkRemove(s.b1, B1, s.bos, id, nb);
      ListOkAppend(s.t2, T2, s.bos, id, nb);
      ListOkOther(s.t1, T1, s.bos, id, nb);
      ListOkOther(s.b2, B2, s.bos, id, nb);
      ListOkOther(s.pinned, NoEvicted, s.bos, id, nb);
    }
    assert CountersOk(r) && Blocks(r.pinned, r.bos) == Blocks(s.pinned, s.bos) by {
      MoveBlocks(s.b1, s.t2, s.bos, id, nb);
      BlocksUpdate(s.t1, s.bos, id, nb);
      BlocksUpdate(s.b2, s.bos, id, nb);
      BlocksUpdate(s.pinned, s.bos, id, nb);
    }
    assert SpaceOk(r) && |r.free| == |s.free| - bnum by { ReserveSpace(s, id, nb, r); }
  }

  lemma AdmitB2Inv(s: State, id: BoId, start: nat, bnum: nat)
    requires Inv(s) && id in s.bos && s.bos[id].kind == B2 && s.bos[id].nblock == bnum
    requires start + bnum <= s.total && Fits(s.free, start, bnum)
    ensures Inv(Admit(s, id, start, bnum))
  {
    var nb := s.bos[id].(kind := T2, boRef := 0, start := Some(start));
    var r := Admit(s, id, start, bnum);
    assert ListsOk(r) by {
      ListOkRemove(s.b2, B2, s.bos, id, nb);
      ListOkAppend(s.t2, T2, s.bos, id, nb);
      ListOkOther(s.t1, T1, s.bos, id, nb);
      ListOkOther(s.b1, B1, s.bos, id, nb);
      ListOkOther(s.pinned, NoEvicted, s.bos, id, nb);
    }
    assert CountersOk(r) && Blocks(r.pinned, r.bos) == Blocks(s.pinned, s.bos) by {
      MoveBlocks(s.b2, s.t2, s.bos, id, nb);
      BlocksUpdate(s.t1, s.bos, id, nb);
      BlocksUpdate(s.b1, s.bos, id, nb);
      BlocksUpdate(s.pinned, s.bos, id, nb);
    }
    assert SpaceOk(r) && |r.free| == |s.free| - bnum by { ReserveSpace(s, id, nb, r); }
  }

  // ---------------------------------------------------------------------
  // Pinning (nouveau_pscmm_set_no_evicted / nouveau_pscmm_set_normal)

  /**
   * A resident buffer of T1 or T2 is pinned: it remembers its list in
   * old_type, moves to the tail of the no-evict list, and its blocks leave
   * T1_num or T2_num.
   */
  ghost function Pin(s: State, id: BoId): (r: State)
    requires id in s.bos && (s.bos[id].kind == T1 || s.bos[id].kind == T2)
    requires if s.bos[id].kind == T1 then id in s.t1 else id in s.t2
  {
    var bo := s.bos[id];
    var bos' := s.bos[id := bo.(oldKind := bo.kind, kind := NoEvicted)];
    if bo.kind == T1 then
      s.(t1 := Remove(s.t1, id), pinned := s.pinned + [id], t1Num := s.t1Num - bo.nblock, bos := bos')
    else
      s.(t2 := Remove(s.t2, id), pinned := s.pinned + [id], t2Num := s.t2Num - bo.nblock, bos := bos')
  }

  /**
   * A pinned buffer is released: its reference bit is set, it goes to the
   * tail of the list old_type names, its blocks return to that list's
   * counter, and old_type becomes no_evicted.
   */
  ghost function Unpin(s: State, id: BoId): (r: State)
    requires id in s.bos && s.bos[id].kind == NoEvicted && id in s.pinned
  {
    var bo := s.bos[id];
    var bos' := s.bos[id := bo.(boRef := 1, kind := bo.oldKind, oldKind := NoEvicted)];
    if bo.oldKind == T1 then
      s.(pinned := Remove(s.pinned, id), t1 := s.t1 + [id], t1Num := s.t1Num + bo.nblock, bos := bos')
    else
      s.(pinned := Remove(s.pinned, id), t2 := s.t2 + [id], t2Num := s.t2Num + bo.nblock, bos := bos')
  }

  lemma PinT1Inv(s: State, id: BoId)
    requires Inv(s) && id in s.bos && s.bos[id].kind == T1 && id in s.t1
    ensures Inv(Pin(s, id))
  {
    var nb := s.bos[id].(oldKind := T1, kind := NoEvicted);
    assert ListsOk(Pin(s, id)) by {
      ListOkRemove(s.t1, T1, s.bos, id, nb);
      ListOkAppend(s.pinned, NoEvicted, s.bos, id, nb);
      ListOkOther(s.t2, T2, s.bos, id, nb);
      ListOkOther(s.b1, B1, s.bos, id, nb);
      ListOkOther(s.b2, B2, s.bos, id, nb);
    }
    var r := Pin(s, id);
    assert CountersOk(r) && Blocks(r.pinned, r.bos) == Blocks(s.pinned, s.bos) + nb.nblock by {
      MoveBlocks(s.t1, s.pinned, s.bos, id, nb);
      BlocksUpdate(s.t2, s.bos, id, nb);
      BlocksUpdate(s.b1, s.bos, id, nb);
      BlocksUpdate(s.b2, s.bos, id, nb);
    }
    assert SpaceOk(r);
  }

  lemma PinT2Inv(s: State, id: BoId)
    requires Inv(s) && id in s.bos && s.bos[id].kind == T2 && id in s.t2
    ensures Inv(Pin(s, id))
  {
    var nb := s.bos[id].(oldKind := T2, kind := NoEvicted);
    assert ListsOk(Pin(s, id)) by {
      ListOkRemove(s.t2, T2, s.bos, id, nb);
      ListOkAppend(s.pinned, NoEvicted, s.bos, id, nb);
      ListOkOther(s.t1, T1, s.bos, id, nb);
      ListOkOther(s.b1, B1, s.bos, id, nb);
      ListOkOther(s.b2, B2, s.bos, id, nb);
    }
    var r := Pin(s, id);
    assert CountersOk(r) && Blocks(r.pinned, r.bos) == Blocks(s.pinned, s.bos) + nb.nblock by {
      MoveBlocks(s.t2, s.pinned, s.bos, id, nb);
      BlocksUpdate(s.t1, s.bos, id, nb);
      BlocksUpdate(s.b1, s.bos, id, nb);
      BlocksUpdate(s.b2, s.bos, id, nb);
    }
    assert SpaceOk(r);
  }

  lemma UnpinT1Inv(s: State, id: BoId)
    requires Inv(s) && id in s.bos && s.bos[id].kind == NoEvicted && s.bos[id].oldKind == T1
    requires id in s.pinned
    ensures Inv(Unpin(s, id))
  {
    var nb := s.bos[id].(boRef := 1, kind := T1, oldKind := NoEvicted);
    assert ListsOk(Unpin(s, id)) by {
      ListOkRemove(s.pinned, NoEvicted, s.bos, id, nb);
      ListOkAppend(s.t1, T1, s.bos, id, nb);
      ListOkOther(s.t2, T2, s.bos, id, nb);
      ListOkOther(s.b1, B1, s.bos, id, nb);
      ListOkOther(s.b2, B2, s.bos, id, nb);
    }
    var r := Unpin(s, id);
    assert CountersOk(r) && Blocks(r.pinned, r.bos) == Blocks(s.pinned, s.bos) - nb.nblock by {
      MoveBlocks(s.pinned, s.t1, s.bos, id, nb);
      BlocksUpdate(s.t2, s.bos, id, nb);
      BlocksUpdate(s.b1, s.bos, id, nb);
      BlocksUpdate(s.b2, s.bos, id, nb);
    }
    assert SpaceOk(r);
  }

  lemma UnpinT2Inv(s: State, id: BoId)
    requires Inv(s) && id in s.bos && s.bos[id].kind == NoEvicted && s.bos[id].oldKind == T2
    requires id in s.pinned
    ensures Inv(Unpin(s, id))
  {
    var nb := s.bos[id].(boRef := 1, kind := T2, oldKind := NoEvicted);
    assert ListsOk(Unpin(s, id)) by {
      ListOkRemove(s.pinned, NoEvicted, s.bos, id, nb);
      ListOkAppend(s.t2, T2, s.bos, id, nb);
      ListOkOther(s.t1, T1, s.bos, id, nb);
      ListOkOther(s.b1, B1, s.bos, id, nb);
      ListOkOther(s.b2, B2, s.bos, id, nb);
    }
    var r := Unpin(s, id);
    assert CountersOk(r) && Blocks(r.pinned, r.bos) == Blocks(s.pinned, s.bos) - nb.nblock by {
      MoveBlocks(s.pinned, s.t2, s.bos, id, nb);
      BlocksUpdate(s.t1, s.bos, id, nb);
      BlocksUpdate(s.b1, s.bos, id, nb);
      BlocksUpdate(s.b2, s.bos, id, nb);
    }
    assert SpaceOk(r);
  }

  lemma {:induction false} RemoveLast(l: seq<BoId>, x: BoId)
    requires x !in l
    ensures Remove(l + [x], x) == l
  {
    if l == [] {
    } else {
      assert (l + [x])[1..] == l[1..] + [x];
      RemoveLast(l[1..], x);
    }
  }

  /**
   * Pinning a buffer and releasing it again puts it back on the tail of
   * the list it was on, with its reference bit set: counters, pinned list,
   * ghost lists and the allocator are as before.
   */
  /** The list a buffer's tag names holds it. */
  lemma Listed(s: State, id: BoId)
    requires Inv(s) && id in s.bos
    ensures s.bos[id].kind == T1 <==> id in s.t1
    ensures s.bos[id].kind == T2 <==> id in s.t2
    ensures s.bos[id].kind == NoEvicted <==> id in s.pinned
  {
  }

  /**
   * Pinning a buffer and releasing it again puts it back on the tail of
   * the list it was on, with its reference bit set: counters, pinned list,
   * ghost lists and the allocator are as before.
   */
  lemma PinThenUnpin(s: State, id: BoId)
    requires id in s.bos && (s.bos[id].kind == T1 || s.bos[id].kind == T2)
    requires if s.bos[id].kind == T1 then id in s.t1 else id in s.t2
    requires id !in s.pinned
    ensures var r := Unpin(Pin(s, id), id);
      var k := s.bos[id].kind;
      r.bos == s.bos[id := s.bos[id].(boRef := 1, oldKind := NoEvicted)] &&
      r.pinned == s.pinned && r.t1Num == s.t1Num && r.t2Num == s.t2Num &&
      r.b1 == s.b1 && r.b2 == s.b2 && r.free == s.free && r.owner == s.owner &&
      r.freeNum == s.freeNum && r.p == s.p &&
      (k == T1 ==> r.t1 == Remove(s.t1, id) + [id] && r.t2 == s.t2) &&
      (k == T2 ==> r.t2 == Remove(s.t2, id) + [id] && r.t1 == s.t1)
  {
    RemoveLast(s.pinned, id);
  }

  // ---------------------------------------------------------------------
  // A new buffer enters the cache unlisted.

  ghost function Register(s: State, id: BoId, bnum: nat): (r: State)
    requires id !in s.bos
  {
    s.(bos := s.bos[id := Bo(Unlisted, Unlisted, 0, bnum, None, false)])
  }

  lemma RegisterInv(s: State, id: BoId, bnum: nat)
    requires Inv(s) && id !in s.bos
    ensures Inv(Register(s, id, bnum))
    ensures Register(s, id, bnum).bos[id].kind == Unlisted
  {
    var nb := Bo(Unlisted, Unlisted, 0, bnum, None, false);
    ListOkOther(s.t1, T1, s.bos, id, nb);
    ListOkOther(s.t2, T2, s.bos, id, nb);
    ListOkOther(s.b1, B1, s.bos, id, nb);
    ListOkOther(s.b2, B2, s.bos, id, nb);
    ListOkOther(s.pinned, NoEvicted, s.bos, id, nb);
    BlocksUpdate(s.t1, s.bos, id, nb);
    BlocksUpdate(s.t2, s.bos, id, nb);
    BlocksUpdate(s.b1, s.bos, id, nb);
    BlocksUpdate(s.b2, s.bos, id, nb);
    BlocksUpdate(s.pinned, s.bos, id, nb);
  }

  // ---------------------------------------------------------------------
  // Finding space (nouveau_get_new_space / nouveau_find_mem_space)

  /**
   * What every placement attempt for requester `id` guarantees between the
   * state `s` it starts from and the state `r` it leaves: the requester's
   * own record, p and every pinned buffer are untouched; a returned start
   * is an aligned free run of bnum blocks; a failure happens only with T1
   * and T2 emptied.
   */
  ghost predicate Placed(s: State, r: State, id: BoId, bnum: nat, align: nat, start: Option<nat>)
    requires id in s.bos
  {
    r.total == s.total && r.p == s.p &&
    r.bos.Keys == s.bos.Keys && r.bos[id] == s.bos[id] &&
    r.pinned == s.pinned && PinnedKept(s, r) &&
    (start.Some? ==>
       start.value + bnum <= s.total && Aligned(start.value, align) && Fits(r.free, start.value, bnum)) &&
    (start.None? ==> r.t1 == [] && r.t2 == [])
  }

  /** What admission does to the invariant. */
  lemma AdmitInv(s: State, id: BoId, start: nat, bnum: nat)
    requires Inv(s) && id in s.bos && !Resident(s.bos[id].kind) && s.bos[id].nblock == bnum
    requires start + bnum <= s.total && Fits(s.free, start, bnum)
    ensures s.bos[id].kind == B1 ==> id in s.b1
    ensures s.bos[id].kind == B2 ==> id in s.b2
    ensures Inv(Admit(s, id, start, bnum))
  {
    var k := s.bos[id].kind;
    if k == B1 { AdmitB1Inv(s, id, start, bnum); }
    else if k == B2 { AdmitB2Inv(s, id, start, bnum); }
    else { AdmitNewInv(s, id, start, bnum); }
  }

  /**
   * The admitted buffer is resident on its run with a clear reference bit:
   * a new buffer on T1 with p kept, a B1 hit on T2 with p grown, a B2 hit
   * on T2 with p shrunk.
   */
  lemma AdmitFacts(s: State, id: BoId, start: nat, bnum: nat)
    requires id in s.bos && !Resident(s.bos[id].kind) && s.bos[id].nblock == bnum
    requires s.bos[id].kind == B1 ==> id in s.b1
    requires s.bos[id].kind == B2 ==> id in s.b2
    requires start + bnum <= s.total && Fits(s.free, start, bnum) && 0 <= s.p <= s.total
    ensures var a := Admit(s, id, start, bnum);
      a.total == s.total && a.bos.Keys == s.bos.Keys &&
      forall x :: x in s.bos && x != id ==> a.bos[x] == s.bos[x]
    ensures var a := Admit(s, id, start, bnum);
      s.bos[id].kind == Unlisted ==>
        a.bos[id] == s.bos[id].(kind := T1, boRef := 0, start := Some(start)) && id in a.t1 && a.p == s.p
    ensures var a := Admit(s, id, start, bnum);
      s.bos[id].kind == B1 ==>
        a.bos[id] == s.bos[id].(kind := T2, boRef := 0, start := Some(start)) && id in a.t2 && a.p >= s.p
    ensures var a := Admit(s, id, start, bnum);
      s.bos[id].kind == B2 ==>
        a.bos[id] == s.bos[id].(kind := T2, boRef := 0, start := Some(start)) && id in a.t2 && a.p <= s.p
  {
  }

  /** Pinning keeps the invariant. */
  lemma PinInv(s: State, id: BoId)
    requires Inv(s) && id in s.bos && (s.bos[id].kind == T1 || s.bos[id].kind == T2)
    requires if s.bos[id].kind == T1 then id in s.t1 else id in s.t2
    ensures Inv(Pin(s, id))
  {
    if s.bos[id].kind == T1 { PinT1Inv(s, id); } else { PinT2Inv(s, id); }
  }

  /**
   * Pinning changes only the pinned buffer's record: it becomes no_evicted
   * and remembers its list; p, the allocator and the other records stay.
   */
  lemma PinFacts(s: State, id: BoId)
    requires id in s.bos && (s.bos[id].kind == T1 || s.bos[id].kind == T2)
    requires if s.bos[id].kind == T1 then id in s.t1 else id in s.t2
    ensures var r := Pin(s, id);
      r.total == s.total && r.p == s.p && r.owner == s.owner && r.free == s.free && r.bos.Keys == s.bos.Keys &&
      r.bos[id] == s.bos[id].(oldKind := s.bos[id].kind, kind := NoEvicted) &&
      forall x :: x in s.bos && x != id ==> r.bos[x] == s.bos[x]
  {
  }

  /**
   * The tail of nouveau_find_mem_space once a run was found: admit the
   * buffer on it, then pin it when asked to.
   */
  ghost function Place(s: State, id: BoId, start: nat, bnum: nat, noEvicted: bool): (r: State)
    requires Inv(s) && id in s.bos && !Resident(s.bos[id].kind) && s.bos[id].nblock == bnum
    requires start + bnum <= s.total && Fits(s.free, start, bnum)
  {
    AdmitInv(s, id, start, bnum);
    AdmitFacts(s, id, start, bnum);
    var a := Admit(s, id, start, bnum);
    if noEvicted then Pin(a, id) else a
  }

  /** Placement keeps the invariant and touches no other buffer. */
  lemma PlaceInv(s: State, id: BoId, start: nat, bnum: nat, noEvicted: bool)
    requires Inv(s) && id in s.bos && !Resident(s.bos[id].kind) && s.bos[id].nblock == bnum
    requires start + bnum <= s.total && Fits(s.free, start, bnum)
    ensures var r := Place(s, id, start, bnum, noEvicted);
      Inv(r) && r.total == s.total && r.bos.Keys == s.bos.Keys &&
      forall x :: x in s.bos && x != id ==> r.bos[x] == s.bos[x]
  {
    AdmitInv(s, id, start, bnum);
    AdmitFacts(s, id, start, bnum);
    if noEvicted {
      PinInv(Admit(s, id, start, bnum), id);
      PinFacts(Admit(s, id, start, bnum), id);
    }
  }

  /**
   * The placed buffer is resident on its run, owning those blocks, with a
   * clear reference bit, on T1 when it was new and on T2 when it was a
   * ghost hit (or pinned when asked, remembering that list); p grows on a
   * B1 hit, shrinks on a B2 hit and is kept otherwise.
   */
  lemma PlaceFacts(s: State, id: BoId, start: nat, bnum: nat, noEvicted: bool)
    requires Inv(s) && id in s.bos && !Resident(s.bos[id].kind) && s.bos[id].nblock == bnum
    requires start + bnum <= s.total && Fits(s.free, start, bnum)
    ensures var r := Place(s, id, start, bnum, noEvicted);
      var b := r.bos[id];
      var k := if s.bos[id].kind == Unlisted then T1 else T2;
      b.start == Some(start) && b.boRef == 0 && b.nblock == bnum &&
      Owns(r.owner, id, start, bnum, s.total) &&
      (if noEvicted then b.kind == NoEvicted && b.oldKind == k else b.kind == k)
    ensures var r := Place(s, id, start, bnum, noEvicted);
      (s.bos[id].kind == Unlisted ==> r.p == s.p) &&
      (s.bos[id].kind == B1 ==> r.p >= s.p) &&
      (s.bos[id].kind == B2 ==> r.p <= s.p)
  {
    AdmitInv(s, id, start, bnum);
    AdmitFacts(s, id, start, bnum);
    var a := Admit(s, id, start, bnum);
    assert Owns(a.owner, id, start, bnum, s.total);
    if noEvicted {
      PinFacts(a, id);
    }
  }

  /**
   * What nouveau_find_mem_space guarantees between the state `s` it starts
   * from and the state `r` it leaves, given the start it returns: a found
   * run is aligned and now owned by the buffer, which is resident with a
   * clear reference bit (on T1 when new, on T2 after a ghost hit, or pinned
   * remembering that list), p adapted by the kind of hit; without a run the
   * buffer's record is untouched and T1 and T2 were emptied. Pinned
   * buffers are never touched.
   */
  ghost predicate SpaceFound(s: State, r: State, id: BoId, bnum: nat, noEvicted: bool, align: nat, start: Option<nat>)
    requires id in s.bos
  {
    r.total == s.total && r.bos.Keys == s.bos.Keys &&
    (forall x :: x in s.bos && x != id && s.bos[x].kind == NoEvicted ==> r.bos[x] == s.bos[x]) &&
    (start.Some? ==>
       var b := r.bos[id];
       var k := if s.bos[id].kind == Unlisted then T1 else T2;
       Aligned(start.value, align) && b.start == start && b.boRef == 0 && b.nblock == bnum &&
       Owns(r.owner, id, start.value, bnum, s.total) &&
       (if noEvicted then b.kind == NoEvicted && b.oldKind == k else b.kind == k) &&
       (s.bos[id].kind == Unlisted ==> r.p == s.p) &&
       (s.bos[id].kind == B1 ==> r.p >= s.p) &&
       (s.bos[id].kind == B2 ==> r.p <= s.p)) &&
    (start.None? ==> r.bos[id] == s.bos[id] && r.t1 == [] && r.t2 == [])
  }

  /**
   * A search that ends in an aligned free run, followed by admission (and
   * pinning when asked), meets what nouveau_find_mem_space promises; a
   * search that ends without one meets it as it stands.
   */
  lemma PlaceFound(s: State, q: State, id: BoId, bnum: nat, noEvicted: bool, align: nat, start: Option<nat>)
    requires Inv(s) && Inv(q) && id in s.bos && !Resident(s.bos[id].kind) && s.bos[id].nblock == bnum
    requires Placed(s, q, id, bnum, align, start)
    ensures start.None? ==> SpaceFound(s, q, id, bnum, noEvicted, align, start)
    ensures start.Some? ==> SpaceFound(s, Place(q, id, start.value, bnum, noEvicted), id, bnum, noEvicted, align, start)
  {
    if start.Some? {
      PlaceInv(q, id, start.value, bnum, noEvicted);
      PlaceFacts(q, id, start.value, bnum, noEvicted);
    }
  }

  // ---------------------------------------------------------------------
  // Allocation (nouveau_pscmm_alloc_vram)

  /**
   * nouveau_pscmm_alloc_vram as written, on a search that finds the free
   * run at `start`: the kzalloc'd buffer has nblock 0 while
   * nouveau_find_mem_space admits it with bnum blocks (T1_num += bnum) and
   * nouveau_pscmm_set_no_evicted subtracts its nblock (still 0); only
   * afterwards is nblock set to bnum.
   */
  ghost function AllocVramAsWritten(s: State, id: BoId, start: nat, bnum: nat, noEvicted: bool): (r: State)
    requires Inv(s) && id !in s.bos && start + bnum <= s.total && Fits(s.free, start, bnum)
  {
    var z := Register(s, id, 0);
    var a := Admit(z, id, start, bnum);
    var b := if noEvicted then Pin(a, id) else a;
    b.(bos := b.bos[id := b.bos[id].(nblock := bnum)])
  }

  /**
   * As written, allocating a pinned buffer of bnum > 0 blocks leaves T1 as
   * it was but T1_num bnum too high, so the counters no longer match the
   * lists.
   */
  lemma AllocVramAsWrittenDrifts(s: State, id: BoId, start: nat, bnum: nat)
    requires Inv(s) && id !in s.bos && start + bnum <= s.total && Fits(s.free, start, bnum) && bnum > 0
    ensures var r := AllocVramAsWritten(s, id, start, bnum, true);
      r.t1 == s.t1 && r.t1Num == s.t1Num + bnum && Blocks(r.t1, r.bos) == s.t1Num && !Inv(r)
  {
    var z := Register(s, id, 0);
    var a := Admit(z, id, start, bnum);
    assert id !in s.t1;
    assert a.t1 == s.t1 + [id] && a.t1Num == s.t1Num + bnum && a.bos[id].nblock == 0;
    RemoveLast(s.t1, id);
    var r := AllocVramAsWritten(s, id, start, bnum, true);
    assert r.t1 == s.t1 && r.t1Num == s.t1Num + bnum;
    assert forall x :: x in s.t1 ==> x in s.bos && x != id && r.bos[x] == s.bos[x];
    BlocksAgree(s.t1, s.bos, r.bos);
  }

  /**
   * The allocation as intended (and as PscmmCache.Cache.AllocVram does it):
   * the buffer is registered with its bnum blocks before it is placed, so
   * the invariant holds after; a pinned buffer leaves T1_num as it was and
   * an unpinned one adds exactly its bnum.
   */
  lemma AllocVramPlaced(s: State, id: BoId, start: nat, bnum: nat, noEvicted: bool)
    requires Inv(s) && id !in s.bos && start + bnum <= s.total && Fits(s.free, start, bnum)
    ensures Inv(Register(s, id, bnum))
    ensures var r := Place(Register(s, id, bnum), id, start, bnum, noEvicted);
      Inv(r) && r.t1Num == s.t1Num + (if noEvicted then 0 else bnum)
  {
    RegisterInv(s, id, bnum);
    var z := Register(s, id, bnum);
    PlaceInv(z, id, start, bnum, noEvicted);
    AdmitFacts(z, id, start, bnum);
    var a := Admit(z, id, start, bnum);
    assert a.t1Num == s.t1Num + bnum && a.bos[id].nblock == bnum && a.bos[id].kind == T1;
  }
}
