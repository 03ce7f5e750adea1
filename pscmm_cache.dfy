/**
 * The cache as the driver keeps it: the fields of dev_priv that the
 * replacement policy updates in place. Every method keeps the cache
 * invariant Pscmm.Inv. The single-step methods leave the fields exactly as
 * the corresponding function of module Pscmm says. EvictLoop ends in the
 * last state of the one finished trace of Pscmm.Step from its start.
 * GetNewSpace, EvictSomething, FindMemSpace and AllocVram are specified by
 * the run they return and what the placement does to the buffer, not by a
 * single function.
 */
module PscmmCache {
  import opened Common
  import opened BlockSpace
  import opened Pscmm

  class Cache {
    var t1: seq<BoId>
    var t2: seq<BoId>
    var b1: seq<BoId>
    var b2: seq<BoId>
    var pinned: seq<BoId>
    var bos: map<BoId, Bo>
    var t1Num: int
    var t2Num: int
    var b1Num: int
    var b2Num: int
    var freeNum: int
    var total: nat
    var p: int
    /** The blocks the allocator (drm_mm) holds free. */
    var free: set<nat>
    /** Which buffer holds each allocated block. */
    ghost var owner: map<nat, BoId>
    /** The next buffer id handed out. */
    var nextId: BoId

    ghost function Snapshot(): State
      reads this
    {
      State(t1, t2, b1, b2, pinned, bos, t1Num, t2Num, b1Num, b2Num, freeNum, total, p, free, owner)
    }

    ghost predicate Valid()
      reads this
    {
      Inv(Snapshot()) && forall id :: id in bos ==> id < nextId
    }

    /** An empty cache over `total` blocks, all of them free, with p = 0. */
    constructor (total: nat)
      ensures Valid()
      ensures Snapshot() == State([], [], [], [], [], map[], 0, 0, 0, 0, total, total, 0, Range(0, total), map[])
    {
      t1, t2, b1, b2, pinned := [], [], [], [], [];
      bos := map[];
      t1Num, t2Num, b1Num, b2Num := 0, 0, 0, 0;
      freeNum := total;
      this.total := total;
      p := 0;
      free := Range(0, total);
      owner := map[];
      nextId := 0;
      RangeCard(0, total);
      forall i | i in Range(0, total) ensures i < total { InRange(0, total, i); }
    }

    /** The T1 head is the victim: to the B1 tail, its blocks back to the allocator. */
    method EvictT1Head()
      requires HeadPlaced(t1, bos)
      modifies this
      ensures Snapshot() == EvictHead(old(Snapshot()), true) && nextId == old(nextId)
    {
      ghost var next := EvictHead(Snapshot(), true);
      var h := t1[0];
      var bo := bos[h];
      var R := Range(bo.start.value, bo.nblock);
      t1, b1 := t1[1..], b1 + [h];
      t1Num, b1Num := t1Num - bo.nblock, b1Num + bo.nblock;
      bos := bos[h := bo.(kind := B1, start := None, swapOut := true)];
      free, freeNum := free + R, freeNum + bo.nblock;
      owner := owner - R;
    }

    /** The T2 head is the victim: to the B2 tail, its blocks back to the allocator. */
    method EvictT2Head()
      requires HeadPlaced(t2, bos)
      modifies this
      ensures Snapshot() == EvictHead(old(Snapshot()), false) && nextId == old(nextId)
    {
      ghost var next := EvictHead(Snapshot(), false);
      var h := t2[0];
      var bo := bos[h];
      var R := Range(bo.start.value, bo.nblock);
      t2, b2 := t2[1..], b2 + [h];
      t2Num, b2Num := t2Num - bo.nblock, b2Num + bo.nblock;
      bos := bos[h := bo.(kind := B2, start := None, swapOut := true)];
      free, freeNum := free + R, freeNum + bo.nblock;
      owner := owner - R;
    }

    /** A referenced T1 head moves to the T2 tail. */
    method DemoteT1Head()
      requires t1 != [] && t1[0] in bos
      modifies this
      ensures Snapshot() == Demote(old(Snapshot())) && nextId == old(nextId)
    {
      ghost var next := Demote(Snapshot());
      var h := t1[0];
      var bo := bos[h];
      t1, t2 := t1[1..], t2 + [h];
      t1Num, t2Num := t1Num - bo.nblock, t2Num + bo.nblock;
      bos := bos[h := bo.(kind := T2)];
    }

    /** A referenced T2 head is requeued at the T2 tail with its reference bit cleared. */
    method RequeueT2Head()
      requires t2 != [] && t2[0] in bos
      modifies this
      ensures Snapshot() == Requeue(old(Snapshot())) && nextId == old(nextId)
    {
      ghost var next := Requeue(Snapshot());
      var h := t2[0];
      var bo := bos[h];
      t2 := t2[1..] + [h];
      bos := bos[h := bo.(boRef := 0)];
    }

    /**
     * One pass of the loop body of nouveau_evict_somthing: examine the head
     * of T1 (when T1_num >= max(1, p), or T2 is empty) or of T2, and take
     * it as the victim when its reference bit is clear. `gained` is the
     * victim's nblock (0 without a victim).
     */
    method ExamineHead() returns (victim: Option<BoId>, gained: nat)
      requires Valid() && (t1 != [] || t2 != [])
      modifies this
      ensures Valid() && nextId == old(nextId)
      ensures Snapshot() == Step(old(Snapshot())).state && victim == Step(old(Snapshot())).victim
      ensures gained == if victim.Some? then old(bos)[victim.value].nblock else 0
    {
      ghost var s := Snapshot();
      StepFacts(s);
      StepInv(s);
      if t1Num >= Max(1, p) || t2 == [] {
        assert t1 != [] by { if t1 == [] { assert false; } }
        assert t1[0] in bos;
        var bo := bos[t1[0]];
        if bo.boRef == 0 {
          victim, gained := Some(t1[0]), bo.nblock;
          EvictT1Head();
        } else {
          victim, gained := None, 0;
          DemoteT1Head();
        }
      } else {
        assert t2[0] in bos;
        var bo := bos[t2[0]];
        if bo.boRef == 0 {
          victim, gained := Some(t2[0]), bo.nblock;
          EvictT2Head();
        } else {
          victim, gained := None, 0;
          RequeueT2Head();
        }
      }
    }
  
    /**
     * The loop of nouveau_evict_somthing as intended: examine heads until a
     * victim was taken and at least `need` blocks are freed; false when T1
     * and T2 run out first. Success is guaranteed when T1 and T2 held a
     * buffer and at least `need` blocks between them.
     */
    method EvictLoop(need: nat) returns (ok: bool, ghost tr: seq<Point>)
      requires Valid()
      modifies this
      ensures Valid() && nextId == old(nextId)
      ensures Evicted(old(Snapshot()), Snapshot())
      ensures ok ==> freeNum - old(freeNum) >= need && |t1| + |t2| < old(|t1| + |t2|)
      ensures !ok ==> t1 == [] && t2 == []
      ensures (old(t1) != [] || old(t2) != []) && need <= old(t1Num + t2Num) ==> ok
      // the passes taken form the one finished run from the old state (FinishedUnique)
      ensures Finished(tr, Point(old(Snapshot()), 0, false), need) && tr[|tr| - 1].state == Snapshot()
      ensures ok == (tr[|tr| - 1].found && tr[|tr| - 1].freed >= need)
    {
      ghost var s0 := Snapshot();
      var freed: nat := 0;
      var found := false;
      tr := [Point(s0, 0, false)];
      while !(found && freed >= need)
        invariant Valid() && nextId == old(nextId)
        invariant Run(tr, need) && tr[0] == Point(s0, 0, false) && tr[|tr| - 1] == Point(Snapshot(), freed, found)
        invariant Evicted(s0, Snapshot())
        invariant freeNum - s0.freeNum == freed
        invariant !found ==> |t1| + |t2| == |s0.t1| + |s0.t2|
        invariant found ==> |t1| + |t2| < |s0.t1| + |s0.t2|
        decreases |t1| + |t2|, |t1|, Refs(t2, bos)
      {
        if t1 == [] && t2 == [] {
          ok := false;
          return;
        }
        ghost var s := Snapshot();
        StepFacts(s);
        StepEvicted(s);
        var victim, gained := ExamineHead();
        EvictedTrans(s0, s, Snapshot());
        freed := freed + gained;
        found := found || victim.Some?;
        ghost var q := Point(Snapshot(), freed, found);
        PassTo(tr, s, q, need);
        tr := tr + [q];
        assert tr[|tr| - 1] == q;
      }
      ok := true;
    }

    /** The head of B1 leaves the directory (list_del) and B1_num drops by its nblock. */
    method DropB1Head()
      requires b1 != [] && b1[0] in bos
      modifies this
      ensures Snapshot() == DropHead(old(Snapshot()), true) && nextId == old(nextId)
    {
      ghost var next := DropHead(Snapshot(), true);
      var h := b1[0];
      var bo := bos[h];
      b1, b1Num := b1[1..], b1Num - bo.nblock;
      bos := bos[h := bo.(kind := Unlisted)];
    }

    /** The head of B2 leaves the directory (list_del) and B2_num drops by its nblock. */
    method DropB2Head()
      requires b2 != [] && b2[0] in bos
      modifies this
      ensures Snapshot() == DropHead(old(Snapshot()), false) && nextId == old(nextId)
    {
      ghost var next := DropHead(Snapshot(), false);
      var h := b2[0];
      var bo := bos[h];
      b2, b2Num := b2[1..], b2Num - bo.nblock;
      bos := bos[h := bo.(kind := Unlisted)];
    }

    /** nouveau_update_directory for requester `id`. */
    method UpdateDirectory(id: BoId)
      requires id in bos && GhostHeadsKnown(Snapshot())
      modifies this
      ensures Snapshot() == Pscmm.UpdateDirectory(old(Snapshot()), id) && nextId == old(nextId)
    {
      ghost var next := Pscmm.UpdateDirectory(Snapshot(), id);
      var k := bos[id].kind;
      if k != B1 && k != B2 && b1Num + t1Num >= total {
        if b1 != [] {
          DropB1Head();
        }
      } else if k != B1 && k != B2 && b1Num + t1Num + b2Num + t2Num >= total * 2 {
        if b2 != [] {
          DropB2Head();
        }
      }
    }

    /**
     * nouveau_get_new_space: the first aligned free run of bnum blocks when
     * there is one (nothing else changes then); otherwise evict, which
     * searches again itself, and trim the directory for the requester.
     */
    method GetNewSpace(id: BoId, bnum: nat, align: nat) returns (start: Option<nat>)
      requires Valid() && id in bos && !Resident(bos[id].kind)
      modifies this
      decreases |t1| + |t2|, 1
      ensures Valid() && nextId == old(nextId)
      ensures Placed(old(Snapshot()), Snapshot(), id, bnum, align, start)
      ensures Search(old(free), old(total), bnum, align).Some? ==>
        start == Search(old(free), old(total), bnum, align) && Snapshot() == old(Snapshot())
    {
      start := Search(free, total, bnum, align);
      if start.None? {
        start := EvictSomething(id, bnum, align);
        UpdateDirectoryFacts(Snapshot(), id);
        UpdateDirectory(id);
      }
    }

    /**
     * nouveau_evict_somthing as intended: run the eviction loop for bnum
     * blocks, then search again through GetNewSpace; no space when T1 and
     * T2 run out first.
     */
    method EvictSomething(id: BoId, bnum: nat, align: nat) returns (start: Option<nat>)
      requires Valid() && id in bos && !Resident(bos[id].kind)
      modifies this
      decreases |t1| + |t2|, 0
      ensures Valid() && nextId == old(nextId)
      ensures Placed(old(Snapshot()), Snapshot(), id, bnum, align, start)
    {
      var ok, tr := EvictLoop(bnum);
      if ok {
        start := GetNewSpace(id, bnum, align);
      } else {
        start := None;
      }
    }

    /**
     * The admission part of nouveau_find_mem_space: buffer `id` takes the
     * run start .. start+bnum-1 and joins T1 (new) or T2 (ghost hit, with
     * p adapted).
     */
    method Admit(id: BoId, start: nat, bnum: nat)
      requires id in bos && !Resident(bos[id].kind) && bos[id].nblock == bnum
      requires bos[id].kind == B1 ==> id in b1
      requires bos[id].kind == B2 ==> id in b2
      requires start + bnum <= total && Fits(free, start, bnum) && 0 <= p <= total
      modifies this
      ensures Snapshot() == Pscmm.Admit(old(Snapshot()), id, start, bnum) && nextId == old(nextId)
    {
      var k := bos[id].kind;
      if k == B1 {
        AdmitFromB1(id, start, bnum);
      } else if k == B2 {
        AdmitFromB2(id, start, bnum);
      } else {
        AdmitNew(id, start, bnum);
      }
    }

    /** A new buffer joins the T1 tail. */
    method AdmitNew(id: BoId, start: nat, bnum: nat)
      requires id in bos && !Resident(bos[id].kind) && !IsGhost(bos[id].kind) && bos[id].nblock == bnum
      requires start + bnum <= total && Fits(free, start, bnum) && 0 <= p <= total
      modifies this
      ensures Snapshot() == Pscmm.Admit(old(Snapshot()), id, start, bnum) && nextId == old(nextId)
    {
      ghost var next := Pscmm.Admit(Snapshot(), id, start, bnum);
      var bo := bos[id];
      t1, t1Num := t1 + [id], t1Num + bnum;
      bos := bos[id := bo.(kind := T1, boRef := 0, start := Some(start))];
      var R := Range(start, bnum);
      free, freeNum := free - R, freeNum - bnum;
      owner := Claim(owner, R, id);
    }

    /** A B1 hit grows p and moves to the T2 tail. */
    method AdmitFromB1(id: BoId, start: nat, bnum: nat)
      requires id in bos && bos[id].kind == B1 && id in b1 && bos[id].nblock == bnum
      requires start + bnum <= total && Fits(free, start, bnum) && 0 <= p <= total
      modifies this
      ensures Snapshot() == Pscmm.Admit(old(Snapshot()), id, start, bnum) && nextId == old(nextId)
    {
      ghost var next := Pscmm.Admit(Snapshot(), id, start, bnum);
      var bo := bos[id];
      p := AdaptUp(p, b1Num, b2Num, total);
      b1, t2 := Remove(b1, id), t2 + [id];
      b1Num, t2Num := b1Num - bo.nblock, t2Num + bo.nblock;
      bos := bos[id := bo.(kind := T2, boRef := 0, start := Some(start))];
      var R := Range(start, bnum);
      free, freeNum := free - R, freeNum - bnum;
      owner := Claim(owner, R, id);
    }

    /** A B2 hit shrinks p and moves to the T2 tail. */
    method AdmitFromB2(id: BoId, start: nat, bnum: nat)
      requires id in bos && bos[id].kind == B2 && id in b2 && bos[id].nblock == bnum
      requires start + bnum <= total && Fits(free, start, bnum) && 0 <= p <= total
      modifies this
      ensures Snapshot() == Pscmm.Admit(old(Snapshot()), id, start, bnum) && nextId == old(nextId)
    {
      ghost var next := Pscmm.Admit(Snapshot(), id, start, bnum);
      var bo := bos[id];
      p := AdaptDown(p, b1Num, b2Num);
      b2, t2 := Remove(b2, id), t2 + [id];
      b2Num, t2Num := b2Num - bo.nblock, t2Num + bo.nblock;
      bos := bos[id := bo.(kind := T2, boRef := 0, start := Some(start))];
      var R := Range(start, bnum);
      free, freeNum := free - R, freeNum - bnum;
      owner := Claim(owner, R, id);
    }

    /** nouveau_pscmm_set_no_evicted: a resident buffer of T1 or T2 is pinned. */
    method SetNoEvicted(id: BoId)
      requires id in bos && (bos[id].kind == T1 || bos[id].kind == T2)
      requires if bos[id].kind == T1 then id in t1 else id in t2
      modifies this
      ensures Snapshot() == Pin(old(Snapshot()), id) && nextId == old(nextId)
    {
      ghost var next := Pin(Snapshot(), id);
      var bo := bos[id];
      if bo.kind == T1 {
        t1, t1Num := Remove(t1, id), t1Num - bo.nblock;
      } else {
        t2, t2Num := Remove(t2, id), t2Num - bo.nblock;
      }
      pinned := pinned + [id];
      bos := bos[id := bo.(oldKind := bo.kind, kind := NoEvicted)];
    }

    /** nouveau_pscmm_set_normal: a pinned buffer is released to the list it came from. */
    method SetNormal(id: BoId)
      requires id in bos && bos[id].kind == NoEvicted && id in pinned
      modifies this
      ensures Snapshot() == Unpin(old(Snapshot()), id) && nextId == old(nextId)
    {
      ghost var next := Unpin(Snapshot(), id);
      var bo := bos[id];
      var nb := bo.(boRef := 1, kind := bo.oldKind, oldKind := NoEvicted);
      if bo.oldKind == T1 {
        pinned, t1, t1Num, bos := Remove(pinned, id), t1 + [id], t1Num + bo.nblock, bos[id := nb];
        assert Snapshot() == next;
      } else {
        pinned, t2, t2Num, bos := Remove(pinned, id), t2 + [id], t2Num + bo.nblock, bos[id := nb];
        assert Snapshot() == next;
      }
    }

    /**
     * nouveau_find_mem_space for a non-resident buffer of bnum blocks:
     * search directly when free_block_num covers bnum, otherwise evict and
     * trim the directory first; then admit the buffer on the run found and
     * pin it when asked to.
     */
    method FindMemSpace(id: BoId, bnum: nat, noEvicted: bool, align: nat) returns (start: Option<nat>)
      requires Valid() && id in bos && !Resident(bos[id].kind) && bos[id].nblock == bnum
      modifies this
      ensures Valid() && nextId == old(nextId)
      ensures SpaceFound(old(Snapshot()), Snapshot(), id, bnum, noEvicted, align, start)
      // with enough free blocks and a fitting run, the first fit is taken
      ensures bnum <= old(freeNum) && Search(old(free), old(total), bnum, align).Some? ==>
        start == Search(old(free), old(total), bnum, align)
    {
      ghost var s := Snapshot();
      if bnum <= freeNum {
        start := GetNewSpace(id, bnum, align);
      } else {
        start := EvictSomething(id, bnum, align);
        UpdateDirectoryFacts(Snapshot(), id);
        UpdateDirectory(id);
      }
      ghost var q := Snapshot();
      PlaceFound(s, q, id, bnum, noEvicted, align, start);
      if start.Some? {
        Place(id, start.value, bnum, noEvicted);
      }
    }

    /**
     * The tail of nouveau_find_mem_space once a run was found: admit the
     * buffer on it, then pin it when asked to.
     */
    method Place(id: BoId, start: nat, bnum: nat, noEvicted: bool)
      requires Valid() && id in bos && !Resident(bos[id].kind) && bos[id].nblock == bnum
      requires start + bnum <= total && Fits(free, start, bnum)
      modifies this
      ensures Valid() && nextId == old(nextId)
      ensures Snapshot() == Pscmm.Place(old(Snapshot()), id, start, bnum, noEvicted)
    {
      ghost var next := Pscmm.Place(Snapshot(), id, start, bnum, noEvicted);
      ghost var q := Snapshot();
      PlaceInv(q, id, start, bnum, noEvicted);
      AdmitInv(q, id, start, bnum);
      AdmitFacts(q, id, start, bnum);
      Admit(id, start, bnum);
      if noEvicted {
        SetNoEvicted(id);
      }
    }

    /** nouveau_pscmm_alloc_vram's new buffer object: a fresh id, on no list, with bnum blocks. */
    method Register(bnum: nat) returns (id: BoId)
      requires Valid()
      modifies this
      ensures Valid() && id == old(nextId) && nextId == id + 1 && id !in old(bos)
      ensures Snapshot() == Pscmm.Register(old(Snapshot()), id, bnum)
    {
      id := nextId;
      RegisterInv(Snapshot(), id, bnum);
      bos := bos[id := Bo(Unlisted, Unlisted, 0, bnum, None, false)];
      nextId := nextId + 1;
    }

    /**
     * nouveau_pscmm_alloc_vram: a new buffer of size / PAGE_SIZE blocks is
     * created and placed; it lands on T1 (or pinned, remembering T1) with p
     * kept, or, without space, stays off every list with T1 and T2 emptied.
     */
    method AllocVram(size: nat, noEvicted: bool, align: nat) returns (id: BoId, start: Option<nat>)
      requires Valid()
      modifies this
      ensures Valid() && id == old(nextId) && id !in old(bos) && id in bos
      ensures bos[id].nblock == size / PAGE_SIZE
      ensures start.Some? ==>
        Aligned(start.value, align) && bos[id].start == start &&
        Owns(owner, id, start.value, size / PAGE_SIZE, total) && p == old(p) &&
        if noEvicted then bos[id].kind == NoEvicted && bos[id].oldKind == T1 else bos[id].kind == T1
      ensures start.None? ==> bos[id].kind == Unlisted && bos[id].start.None? && t1 == [] && t2 == []
    {
      var bnum := size / PAGE_SIZE;
      id := Register(bnum);
      start := FindMemSpace(id, bnum, noEvicted, align);
    }
  }
}
