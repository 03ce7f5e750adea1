/**
 * Sequence numbers ("fences") of the PSCMM command channel: the wrap-around
 * comparison nouveau_seqno_passed, the zero-skipping counter advanced by
 * nouveau_pscmm_add_request, and the in-order retirement of requests by
 * nouveau_pscmm_retire_requests (attic/nouveau/nouveau_pscmm.c).
 */
module Fence {
  import opened Common

  /** Reduction modulo 2^32, as uint32_t arithmetic does. */
  function Wrap32(x: int): (r: u32)
    ensures (x - r) % TWO_32 == 0
  {
    x % TWO_32
  }

  /** The two's-complement reading of a 32-bit word, as an (int32_t) cast. */
  function Int32(x: u32): (r: int)
    ensures -0x8000_0000 <= r < 0x8000_0000
    ensures (r - x) % TWO_32 == 0
  {
    if x < 0x8000_0000 then x else x - TWO_32
  }

  /**
   * nouveau_seqno_passed: `seq1` is at or after `seq2` when the 32-bit
   * difference, read as signed, is not negative; that is, when `seq1` lies
   * fewer than 2^31 steps ahead of `seq2` around the circle.
   */
  function SeqnoPassed(seq1: u32, seq2: u32): (r: bool)
    ensures r <==> (seq1 - seq2) % TWO_32 < 0x8000_0000
  {
    Int32(Wrap32(seq1 - seq2)) >= 0
  }

  /** A sequence number k < 2^31 steps ahead of `b` has passed `b`, and not the other way round. */
  lemma SeqnoAhead(b: u32, k: nat)
    requires k < 0x8000_0000
    ensures SeqnoPassed(Wrap32(b + k), b)
    ensures k > 0 ==> !SeqnoPassed(b, Wrap32(b + k))
  {
    if b + k < TWO_32 {
      assert Wrap32(b + k) == b + k;
      assert k > 0 ==> (b - (b + k)) % TWO_32 == TWO_32 - k;
    } else {
      assert Wrap32(b + k) == b + k - TWO_32;
      assert (b + k - TWO_32 - b) % TWO_32 == k;
      assert k > 0 ==> (b - (b + k - TWO_32)) % TWO_32 == TWO_32 - k;
    }
  }

  /**
   * Of two different sequence numbers exactly one has passed the other,
   * unless they lie exactly half the circle apart, where neither has.
   */
  lemma SeqnoTotal(a: u32, b: u32)
    requires a != b
    ensures (a - b) % TWO_32 != 0x8000_0000 ==> (SeqnoPassed(a, b) <==> !SeqnoPassed(b, a))
    ensures (a - b) % TWO_32 == 0x8000_0000 ==> !SeqnoPassed(a, b) && !SeqnoPassed(b, a)
  {
    var d := (a - b) % TWO_32;
    if a > b {
      assert d == a - b;
      assert (b - a) % TWO_32 == TWO_32 - d;
    } else {
      assert d == a - b + TWO_32;
      assert (b - a) % TWO_32 == b - a;
    }
  }

  /**
   * The counter step of nouveau_pscmm_add_request: next_seqno++ with the
   * value 0 skipped on wrap-around.
   */
  function NextSeqno(n: u32): (r: u32)
    ensures r != 0
    ensures n + 1 < TWO_32 ==> r == n + 1
    ensures n + 1 == TWO_32 ==> r == 1
  {
    var m := Wrap32(n + 1);
    if m == 0 then 1 else m
  }

  /** The number handed out next is later than the one just handed out. */
  lemma NextSeqnoLater(n: u32)
    ensures NextSeqno(n) != n
    ensures SeqnoPassed(NextSeqno(n), n) && !SeqnoPassed(n, NextSeqno(n))
  {
    if n + 1 < TWO_32 {
      SeqnoAhead(n, 1);
    } else {
      SeqnoAhead(n, 2);
    }
  }

  /** A buffer on the active list with the sequence number of its last rendering. */
  datatype ActiveBo = ActiveBo(bo: nat, lastSeqno: u32)

  /**
   * The number of requests at the front of `reqs` whose sequence number the
   * hardware value `hw` has passed.
   */
  function PassedPrefix(reqs: seq<u32>, hw: u32): (k: nat)
    ensures k <= |reqs|
    ensures forall i :: 0 <= i < k ==> SeqnoPassed(hw, reqs[i])
    ensures k < |reqs| ==> !SeqnoPassed(hw, reqs[k])
  {
    if reqs == [] || !SeqnoPassed(hw, reqs[0]) then 0
    else 1 + PassedPrefix(reqs[1..], hw)
  }

  /** `r` is what remains of `l` once some of its front entries are removed. */
  ghost predicate IsSuffix<T>(r: seq<T>, l: seq<T>)
  {
    |r| <= |l| && r == l[|l| - |r|..]
  }

  /** The active list after the buffers at its front rendered with `seqno` leave it. */
  function DropRendered(active: seq<ActiveBo>, seqno: u32): seq<ActiveBo>
  {
    if active == [] || active[0].lastSeqno != seqno then active
    else DropRendered(active[1..], seqno)
  }

  /**
   * Retiring one request removes exactly the leading run of buffers whose
   * last rendering was that request, and keeps the rest in order.
   */
  lemma {:induction false} DropRenderedSpec(active: seq<ActiveBo>, seqno: u32)
    ensures IsSuffix(DropRendered(active, seqno), active)
    ensures var n := |active| - |DropRendered(active, seqno)|;
      forall i :: 0 <= i < n ==> active[i].lastSeqno == seqno
    ensures DropRendered(active, seqno) != [] ==> DropRendered(active, seqno)[0].lastSeqno != seqno
  {
    if active != [] && active[0].lastSeqno == seqno {
      DropRenderedSpec(active[1..], seqno);
      var r := DropRendered(active, seqno);
      assert active[1..][|active| - 1 - |r|..] == active[|active| - |r|..];
      forall i | 0 <= i < |active| - |r| ensures active[i].lastSeqno == seqno {
        if i > 0 { assert active[i] == active[1..][i - 1]; }
      }
    }
  }

  /** The active list after each request of `retired`, in order, is retired. */
  function RetireAll(active: seq<ActiveBo>, retired: seq<u32>): seq<ActiveBo>
    decreases |retired|
  {
    if retired == [] then active
    else RetireAll(DropRendered(active, retired[0]), retired[1..])
  }

  /** Retiring requests only ever removes buffers from the front of the active list. */
  lemma {:induction false} RetireAllSuffix(active: seq<ActiveBo>, retired: seq<u32>)
    ensures IsSuffix(RetireAll(active, retired), active)
    decreases |retired|
  {
    if retired != [] {
      var d := DropRendered(active, retired[0]);
      assert IsSuffix(d, active) by { DropRenderedSpec(active, retired[0]); }
      RetireAllSuffix(d, retired[1..]);
      var r := RetireAll(active, retired);
      assert r == d[|d| - |r|..];
      assert d == active[|active| - |d|..];
      assert d[|d| - |r|..] == active[|active| - |r|..];
    }
  }

  lemma {:induction false} RetireAllStep(active: seq<ActiveBo>, retired: seq<u32>, seqno: u32)
    ensures RetireAll(active, retired + [seqno]) == DropRendered(RetireAll(active, retired), seqno)
    decreases |retired|
  {
    if retired != [] {
      assert (retired + [seqno])[1..] == retired[1..] + [seqno];
      RetireAllStep(DropRendered(active, retired[0]), retired[1..], seqno);
    }
  }

  /** Retiring is idempotent: once done, the same hardware value retires nothing more. */
  lemma RetireIdempotent(reqs: seq<u32>, hw: u32)
    ensures PassedPrefix(reqs[PassedPrefix(reqs, hw)..], hw) == 0
  {
  }

  /** A hardware value that has passed every pending request retires all of them. */
  lemma {:induction false} RetireAllPassed(reqs: seq<u32>, hw: u32)
    requires forall i :: 0 <= i < |reqs| ==> SeqnoPassed(hw, reqs[i])
    ensures PassedPrefix(reqs, hw) == |reqs|
  {
    if reqs != [] {
      RetireAllPassed(reqs[1..], hw);
    }
  }

  /**
   * The request list of the PSCMM channel: the counter next_seqno, the
   * sequence numbers of the emitted requests oldest first, and the device's
   * active list of buffers tagged with their last rendering sequence number.
   */
  class Channel {
    var nextSeqno: u32
    var requests: seq<u32>
    var active: seq<ActiveBo>

    constructor(start: u32)
      ensures nextSeqno == start && requests == [] && active == []
    {
      nextSeqno := start;
      requests := [];
      active := [];
    }

    /**
     * nouveau_pscmm_add_request: when the request record can be allocated,
     * take next_seqno, advance the counter skipping 0 and append the request;
     * otherwise return 0 and change nothing. The ring emission of the
     * sequence number is not part of this model.
     */
    method AddRequest(allocOk: bool) returns (seqno: u32)
      modifies this
      ensures allocOk ==> (seqno == old(nextSeqno) && nextSeqno == NextSeqno(old(nextSeqno)) &&
                           requests == old(requests) + [seqno] && active == old(active))
      ensures !allocOk ==> (seqno == 0 && nextSeqno == old(nextSeqno) &&
                            requests == old(requests) && active == old(active))
    {
      if !allocOk {
        return 0;
      }
      seqno := nextSeqno;
      nextSeqno := Wrap32(nextSeqno + 1);
      if nextSeqno == 0 {
        nextSeqno := 1;
      }
      requests := requests + [seqno];
    }

    /**
     * nouveau_pscmm_retire_request: take buffers off the front of the
     * active list while their last rendering matches the retired request.
     */
    method RetireRequest(seqno: u32)
      modifies this
      ensures active == DropRendered(old(active), seqno)
      ensures requests == old(requests) && nextSeqno == old(nextSeqno)
    {
      while active != [] && active[0].lastSeqno == seqno
        invariant DropRendered(active, seqno) == DropRendered(old(active), seqno)
        invariant requests == old(requests) && nextSeqno == old(nextSeqno)
        decreases |active|
      {
        active := active[1..];
      }
    }

    /**
     * nouveau_pscmm_retire_requests with the hardware sequence number `hw`
     * read from the channel: retire requests oldest first while `hw` has
     * passed them, stopping at the first one it has not.
     */
    method RetireRequests(hw: u32)
      modifies this
      ensures var k := PassedPrefix(old(requests), hw);
        requests == old(requests)[k..] && active == RetireAll(old(active), old(requests)[..k])
      ensures nextSeqno == old(nextSeqno)
    {
      ghost var k: nat := 0;
      while requests != []
        invariant k <= |old(requests)| && requests == old(requests)[k..]
        invariant PassedPrefix(old(requests), hw) == k + PassedPrefix(requests, hw)
        invariant active == RetireAll(old(active), old(requests)[..k])
        invariant nextSeqno == old(nextSeqno)
        decreases |requests|
      {
        var retiring := requests[0];
        if !SeqnoPassed(hw, retiring) {
          break;
        }
        RetireRequest(retiring);
        RetireAllStep(old(active), old(requests)[..k], retiring);
        assert old(requests)[..k + 1] == old(requests)[..k] + [retiring];
        requests := requests[1..];
        k := k + 1;
      }
    }
  }
}
