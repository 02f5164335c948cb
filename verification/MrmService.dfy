// The most-recent-message service in the code's own form: one lease array for all MRMs, searched
// and updated in place, and payload copies word by word. Every method is proved against the step
// function of MrmSpec, so the theorems of MrmTheorems are about these bodies.

module MrmService {
  import opened Basics
  import opened Mem
  import opened MrmSpec
  import opened MrmProof
  import opened MrmTheorems

  // A valid buffer, and the current one, has a full-sized payload block.
  lemma BufferShaped(s: State, m: nat, b: nat)
    requires Inv(s) && m in s.mrms && (BufferValid(s.mrms[m], b) || s.mrms[m].curr == Some(b))
    ensures var M := s.mrms[m]; M.At(b).data < |M.words| && |M.WordsOf(b)| == M.size
  {
    assert MrmOk(s.leases, m, s.mrms[m]);
  }

  class Service {
    const leases: array<Lease>
    var mrms: map<nat, Mrm>
    var alive: set<Tid>

    constructor (nLeases: nat)
      ensures fresh(leases) && Contents() == Boot(nLeases)
    {
      leases := new Lease[nLeases](_ => FREE_LEASE);
      mrms, alive := map[], {};
    }

    ghost function Contents(): State reads this, leases {
      State(leases[..], mrms, alive)
    }

    // kMRMLeaseFind_; leases.Length is NULL.
    method LeaseFind(k: Key) returns (i: nat)
      ensures i == IndexOf(leases[..], Some(k))
    {
      i := 0;
      while i < leases.Length && leases[i].key != Some(k)
        invariant i <= leases.Length
        invariant IndexOf(leases[..], Some(k)) == IndexOf(leases[..], Some(k), i)
      {
        i := i + 1;
      }
    }

    // kMRMLeaseFindFree_
    method LeaseFindFree() returns (i: nat)
      ensures i == IndexOf(leases[..], None)
    {
      i := 0;
      while i < leases.Length && leases[i].key != None
        invariant i <= leases.Length
        invariant IndexOf(leases[..], None) == IndexOf(leases[..], None, i)
      {
        i := i + 1;
      }
    }

    // kMRMLeaseReservedByOther_
    method LeaseReservedByOther(t: Tid, m: nat, b: nat) returns (r: bool)
      ensures r <==> ReservedByOther(Contents(), t, m, b)
    {
      for i := 0 to leases.Length
        invariant forall j :: 0 <= j < i ==>
          !(leases[j].On(m, b) && leases[j].reserved && leases[j].key.value.tid != t && leases[j].key.value.tid in alive)
      {
        var l := leases[i];
        if l.key.Some? && l.key.value.tid != t && l.key.value.tid in alive && l.On(m, b) && l.reserved {
          assert Contents().leases[i] == l;
          return true;
        }
      }
      return false;
    }

    // kMRMBufferReserved_
    method BufferReserved(m: nat, b: nat) returns (r: bool)
      ensures r <==> Reserved(Contents(), m, b)
    {
      for i := 0 to leases.Length
        invariant forall j :: 0 <= j < i ==>
          !(leases[j].On(m, b) && leases[j].reserved && leases[j].key.value.tid in alive)
      {
        if leases[i].On(m, b) && leases[i].reserved && leases[i].key.value.tid in alive {
          assert Contents().leases[i] == leases[i];
          return true;
        }
      }
      return false;
    }

    // kMRMHasActiveLease
    method ActiveLease(m: nat) returns (r: bool)
      ensures r <==> HasActiveLease(Contents(), m)
    {
      for i := 0 to leases.Length
        invariant forall j :: 0 <= j < i ==>
          !(leases[j].key.Some? && leases[j].key.value.mrm == m && leases[j].key.value.tid in alive && (leases[j].reserved || leases[j].getCount != 0))
      {
        var l := leases[i];
        if l.key.Some? && l.key.value.mrm == m && l.key.value.tid in alive && (l.reserved || l.getCount != 0) {
          assert Contents().leases[i] == l;
          return true;
        }
      }
      return false;
    }

    method FindSlot(k: Key) returns (i: nat)
      ensures i == Slot(leases[..], k)
    {
      i := LeaseFind(k);
      if i == leases.Length { i := LeaseFindFree(); }
    }

    // kMRMLeaseReserveTrack_
    method LeaseReserveTrack(k: Key) returns (ok: bool)
      modifies leases
      ensures var r := ReserveTrack(old(Contents()), k);
        ok == r.Some? && leases[..] == if ok then r.value else old(leases[..])
    {
      var i := FindSlot(k);
      if i == leases.Length { return false; }
      var other := LeaseReservedByOther(k.tid, k.mrm, k.buf);
      if other || leases[i].reserved { return false; }
      leases[i] := Lease(Some(k), leases[i].getCount, true);
      return true;
    }

    // kMRMLeaseReserveDrop_
    method LeaseReserveDrop(k: Key) returns (ok: bool)
      modifies leases
      ensures var r := ReserveDrop(old(leases[..]), k);
        ok == r.Some? && leases[..] == if ok then r.value else old(leases[..])
    {
      var i := LeaseFind(k);
      if i == leases.Length || !leases[i].reserved { return false; }
      leases[i] := leases[i].(reserved := false);
      ClearIfIdle(i);
      return true;
    }

    // kMRMLeaseGetTrack_
    method LeaseGetTrack(k: Key) returns (ok: bool)
      modifies leases
      ensures var r := GetTrack(old(leases[..]), k);
        ok == r.Some? && leases[..] == if ok then r.value else old(leases[..])
    {
      var i := FindSlot(k);
      if i == leases.Length || leases[i].getCount == GET_MAX { return false; }
      leases[i] := Lease(Some(k), leases[i].getCount + 1, leases[i].reserved);
      return true;
    }

    // kMRMLeaseGetDrop_
    method LeaseGetDrop(k: Key) returns (ok: bool)
      modifies leases
      ensures var r := GetDrop(old(leases[..]), k);
        ok == r.Some? && leases[..] == if ok then r.value else old(leases[..])
    {
      var i := LeaseFind(k);
      if i == leases.Length || leases[i].getCount == 0 { return false; }
      leases[i] := leases[i].(getCount := leases[i].getCount - 1);
      ClearIfIdle(i);
      return true;
    }

    // kMRMLeaseClearIfIdle_
    method ClearIfIdle(i: nat)
      requires i < leases.Length
      modifies leases
      ensures leases[..] == old(leases[..])[i := Settle(old(leases[i]))]
    {
      if leases[i].getCount == 0 && !leases[i].reserved { leases[i] := FREE_LEASE; }
    }

    method CurrentReusable(m: nat) returns (r: bool)
      requires m in mrms
      ensures r <==> Reusable(Contents(), m)
    {
      var M := mrms[m];
      r := M.curr.Some? && M.At(M.curr.value).nUsers == 0;
      if r {
        var reserved := BufferReserved(m, M.curr.value);
        r := !reserved;
      }
    }

    // kMRMReserve
    method Reserve(t: Tid, m: nat) returns (got: Option<nat>)
      requires Inv(Contents()) && Enabled(Contents(), DoReserve(t, m))
      modifies this`mrms, leases
      ensures (Contents(), got) == MrmSpec.Reserve(old(Contents()), t, m)
      ensures Inv(Contents())
    {
      ghost var s := Contents();
      StepOk(s, DoReserve(t, m));
      var M := mrms[m];
      var reuse := CurrentReusable(m);
      if reuse { got := M.curr; } else { var taken := BufferAlloc(M); M, got := taken.0, taken.1; }
      if got.Some? {
        var tracked := LeaseReserveTrack(Key(t, m, got.value));
        if !tracked {
          if M.curr != got { M := BufferRelease(M, got.value).0; }
          got := None;
        }
      }
      mrms := mrms[m := M];
    }

    // The copy loop of kMRMPublish.
    static method CopyIn(M: Mrm, b: nat, payload: seq<Word>) returns (M1: Mrm)
      requires M.At(b).data < |M.words| && |M.WordsOf(b)| == M.size == |payload|
      ensures M1 == M.PutWords(b, payload)
    {
      M1 := M;
      var d := M.At(b).data;
      assert payload[..0] + M.words[d][0..] == M.words[d];
      for i := 0 to M.size
        invariant M1 == M.PutWords(b, payload[..i] + M.words[d][i..])
      {
        M1 := M1.PutWords(b, M1.words[d][i := payload[i]]);
        assert M1.words[d] == payload[..i + 1] + M.words[d][i + 1..];
      }
      assert M1.words[d] == payload;
    }

    // The copy loop of kMRMGet.
    static method CopyOut(M: Mrm, b: nat) returns (payload: seq<Word>)
      requires |M.WordsOf(b)| == M.size
      ensures payload == M.WordsOf(b)
    {
      payload := [];
      for i := 0 to M.size
        invariant payload == M.WordsOf(b)[..i]
      {
        payload := payload + [M.WordsOf(b)[i]];
      }
    }

    // kMRMPublish; the payload is copied word by word into the buffer's data block.
    method Publish(t: Tid, m: nat, b: nat, payload: seq<Word>) returns (err: Err)
      requires Inv(Contents()) && Enabled(Contents(), DoPublish(t, m, b, payload))
      modifies this`mrms, leases
      ensures (Contents(), err) == MrmSpec.Publish(old(Contents()), t, m, b, payload)
      ensures Inv(Contents())
    {
      ghost var s := Contents();
      StepOk(s, DoPublish(t, m, b, payload));
      PublishOk(s, t, m, b, payload);
      var M := mrms[m];
      if !BufferValid(M, b) || M.At(b).nUsers != 0 { return MemFree; }
      BufferShaped(s, m, b);
      var dropped := LeaseReserveDrop(Key(t, m, b));
      if !dropped { return MemFree; }
      if M.curr.Some? && M.curr != Some(b) {
        var reuse := CurrentReusable(m);
        if reuse {
          var released := BufferRelease(M, M.curr.value);
          M, err := released.0, released.1;
          if err != Success { assert false; return; }
        }
      }
      M := CopyIn(M, b, payload);
      mrms := mrms[m := M.(curr := Some(b))];
      return Success;
    }

    // kMRMGet; the payload is copied word by word to the caller.
    method Get(t: Tid, m: nat) returns (got: Option<(nat, seq<Word>)>)
      requires Inv(Contents()) && Enabled(Contents(), DoGet(t, m))
      modifies this`mrms, leases
      ensures (Contents(), got) == MrmSpec.Get(old(Contents()), t, m)
      ensures Inv(Contents())
    {
      ghost var s := Contents();
      StepOk(s, DoGet(t, m));
      var M := mrms[m];
      if M.curr == None { return None; }
      var b := M.curr.value;
      BufferShaped(s, m, b);
      var reserved := BufferReserved(m, b);
      if reserved { return None; }
      var tracked := LeaseGetTrack(Key(t, m, b));
      if !tracked { return None; }
      mrms := mrms[m := M.Put(b, M.At(b).(nUsers := M.At(b).nUsers + 1))];
      var payload := CopyOut(M, b);
      return Some((b, payload));
    }

    // kMRMUnget
    method Unget(t: Tid, m: nat, b: nat) returns (err: Err)
      requires Inv(Contents()) && Enabled(Contents(), DoUnget(t, m, b))
      modifies this`mrms, leases
      ensures (Contents(), err) == MrmSpec.Unget(old(Contents()), t, m, b)
      ensures Inv(Contents())
    {
      StepOk(Contents(), DoUnget(t, m, b));
      var M := mrms[m];
      if !BufferValid(M, b) || M.At(b).nUsers == 0 { return MemFree; }
      var dropped := LeaseGetDrop(Key(t, m, b));
      if !dropped { return MemFree; }
      var released := GetRelease(M, b, 1);
      mrms := mrms[m := released.0];
      return released.1;
    }

    // kMRMTaskCleanup: one pass over the lease table.
    method TaskCleanup(t: Tid) returns (err: Err)
      requires Inv(Contents()) && Enabled(Contents(), DoCleanup(t))
      modifies this, leases
      ensures (Contents(), err) == Cleanup(old(Contents()), t)
      ensures Inv(Contents()) && err == Success
    {
      ghost var s := Contents();
      StepOk(s, DoCleanup(t));
      CleanupOk(s, t);
      alive := alive - {t};
      err := Success;
      for i := 0 to leases.Length
        invariant CleanFrom(Contents(), t, i, err) == Cleanup(s, t)
      {
        ghost var before := Contents();
        var l := leases[i];
        if l.key.Some? && l.key.value.tid == t {
          var m, e := l.key.value.mrm, InvalidObj;
          if m in mrms {
            var cleaned := CleanLease(mrms[m], l);
            mrms := mrms[m := cleaned.0];
            e := cleaned.1;
          }
          if e != Success { err := e; }
          leases[i] := FREE_LEASE;
          assert Contents().leases == before.leases[i := FREE_LEASE];
        }
        assert Contents() == CleanOne(before, t, i).0;
      }
    }

    // kMRMDestroy's guard and removal.
    method Destroy(m: nat) returns (ok: bool)
      requires Inv(Contents()) && Enabled(Contents(), DoDestroy(m))
      modifies this`mrms
      ensures Contents() == Step(old(Contents()), DoDestroy(m)) && Inv(Contents())
      ensures ok <==> forall i :: 0 <= i < leases.Length && leases[i].key.Some? ==> leases[i].key.value.mrm != m
    {
      ghost var s := Contents();
      StepOk(s, DoDestroy(m));
      RefusedIffLeased(s, m);
      var M := mrms[m];
      var active := ActiveLease(m);
      var held := if M.curr.Some? then 1 else 0;
      ok := !((M.curr.Some? && M.At(M.curr.value).nUsers > 0) || active
              || M.meta.nMax - |M.meta.free| != held || M.dataMem.nMax - |M.dataMem.free| != held);
      if ok { mrms := mrms - {m}; }
      assert forall i :: 0 <= i < leases.Length ==> leases[i] == s.leases[i];
    }
  }
}
