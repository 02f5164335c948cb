// The order of by-reference messages, over every run: what happens at one receiver, direct deliveries and
// all, is what a mailbox would do, and from each sender messages are received in the order they were sent.

module MesgOrder {
  import opened Basics
  import opened Mem
  import opened TaskQueue
  import opened MesgSpec
  import opened MesgProof

  // ---- a mailbox ------------------------------------------------------------------------------------------

  datatype Letter = Letter(m: Mid, sender: Option<Tid>)

  // What an outsider sees of a receiver: a letter sent to it, the first letter one of its receives would
  // take being taken, the end of its life.
  datatype Mail = Sent(l: Letter) | Took(f: Filter, l: Letter) | Dropped

  predicate Wanted(l: Letter, f: Filter) {
    f == None || l.sender == f
  }

  function FirstWanted(box: seq<Letter>, f: Filter, i: nat := 0): (r: nat)
    requires i <= |box|
    ensures i <= r <= |box| && (r < |box| ==> Wanted(box[r], f))
    ensures forall j :: i <= j < r ==> !Wanted(box[j], f)
    decreases |box| - i
  {
    if i == |box| || Wanted(box[i], f) then i else FirstWanted(box, f, i + 1)
  }

  function MailStep(box: seq<Letter>, e: Mail): Option<seq<Letter>> {
    match e
    case Sent(l) => Some(box + [l])
    case Took(f, l) =>
      var i := FirstWanted(box, f);
      if i < |box| && box[i] == l then Some(box[..i] + box[i + 1..]) else None
    case Dropped => Some([])
  }

  function Replay(es: seq<Mail>): Option<seq<Letter>> {
    if es == [] then Some([])
    else match Replay(es[..|es| - 1])
      case None => None
      case Some(box) => MailStep(box, es[|es| - 1])
  }

  // ---- per sender, first in, first out ----------------------------------------------------------------------

  function From(box: seq<Letter>, from: Tid): seq<Mid> {
    if box == [] then []
    else From(box[..|box| - 1], from) + if box[|box| - 1].sender == Some(from) then [box[|box| - 1].m] else []
  }

  function SentFrom(es: seq<Mail>, from: Tid): seq<Mid> {
    if es == [] then []
    else
      var e := es[|es| - 1];
      SentFrom(es[..|es| - 1], from) + if e.Sent? && e.l.sender == Some(from) then [e.l.m] else []
  }

  function TookFrom(es: seq<Mail>, from: Tid): seq<Mid> {
    if es == [] then []
    else
      var e := es[|es| - 1];
      TookFrom(es[..|es| - 1], from) + if e.Took? && e.l.sender == Some(from) then [e.l.m] else []
  }

  lemma {:induction false} FromConcat(a: seq<Letter>, b: seq<Letter>, from: Tid)
    ensures From(a + b, from) == From(a, from) + From(b, from)
  {
    if b == [] {
      assert a + b == a;
    } else {
      assert (a + b)[..|a + b| - 1] == a + b[..|b| - 1];
      FromConcat(a, b[..|b| - 1], from);
    }
  }

  lemma {:induction false} NoneFrom(box: seq<Letter>, from: Tid)
    requires forall l <- box :: l.sender != Some(from)
    ensures From(box, from) == []
  {
    if box != [] { NoneFrom(box[..|box| - 1], from); }
  }

  lemma FromOne(l: Letter, from: Tid)
    ensures From([l], from) == if l.sender == Some(from) then [l.m] else []
  {
    assert [l][..0] == [];
  }

  lemma FromAround(pre: seq<Letter>, l: Letter, post: seq<Letter>, from: Tid)
    ensures From(pre + [l] + post, from)
         == From(pre, from) + (if l.sender == Some(from) then [l.m] else []) + From(post, from)
    ensures From(pre + post, from) == From(pre, from) + From(post, from)
  {
    FromConcat(pre + [l], post, from);
    FromConcat(pre, [l], from);
    FromConcat(pre, post, from);
    FromOne(l, from);
  }

  lemma NoneBefore(box: seq<Letter>, f: Filter, from: Tid)
    requires FirstWanted(box, f) < |box| && box[FirstWanted(box, f)].sender == Some(from)
    ensures From(box[..FirstWanted(box, f)], from) == []
  {
    var pre := box[..FirstWanted(box, f)];
    forall j | 0 <= j < |pre| ensures pre[j].sender != Some(from) { assert !Wanted(box[j], f); }
    NoneFrom(pre, from);
  }

  lemma TakenOut(box: seq<Letter>, i: nat, from: Tid)
    requires i < |box| && (box[i].sender == Some(from) ==> From(box[..i], from) == [])
    ensures From(box, from) == (if box[i].sender == Some(from) then [box[i].m] else []) + From(box[..i] + box[i + 1..], from)
  {
    assert box == box[..i] + [box[i]] + box[i + 1..];
    FromAround(box[..i], box[i], box[i + 1..], from);
  }

  // Taking the first wanted letter takes the first one of its sender, and leaves the other senders' alone.
  lemma TookIsFirst(box: seq<Letter>, f: Filter, from: Tid)
    requires FirstWanted(box, f) < |box|
    ensures var i := FirstWanted(box, f);
      From(box, from) == (if box[i].sender == Some(from) then [box[i].m] else []) + From(box[..i] + box[i + 1..], from)
  {
    var i := FirstWanted(box, f);
    if box[i].sender == Some(from) { NoneBefore(box, f, from); }
    TakenOut(box, i, from);
  }

  lemma Regroup(a: seq<Mid>, b: seq<Mid>, c: seq<Mid>)
    ensures a + (b + c) == a + b + c
  {
  }

  lemma ReplayFront(es: seq<Mail>)
    requires es != [] && Replay(es).Some?
    ensures Replay(es[..|es| - 1]).Some?
    ensures MailStep(Replay(es[..|es| - 1]).value, es[|es| - 1]) == Replay(es)
  {
  }

  lemma NextIsFifo(box: seq<Letter>, e: Mail, from: Tid)
    requires MailStep(box, e).Some? && e != Dropped
    ensures var x := if e.l.sender == Some(from) then [e.l.m] else [];
      if e.Sent? then From(MailStep(box, e).value, from) == From(box, from) + x
      else From(box, from) == x + From(MailStep(box, e).value, from)
  {
    if e.Sent? {
      FromConcat(box, [e.l], from);
      FromOne(e.l, from);
    } else {
      TookIsFirst(box, e.f, from);
    }
  }

  // While the receiver lives, what a sender sent is what was taken from it, in order, and what is left of it.
  lemma {:induction false} ReplayIsFifoPerSender(es: seq<Mail>, from: Tid)
    requires Replay(es).Some? && Dropped !in es
    ensures SentFrom(es, from) == TookFrom(es, from) + From(Replay(es).value, from)
  {
    if es != [] {
      var pre, e := es[..|es| - 1], es[|es| - 1];
      assert es == pre + [e];
      ReplayFront(es);
      ReplayIsFifoPerSender(pre, from);
      var box, after := Replay(pre).value, Replay(es).value;
      NextIsFifo(box, e, from);
      var x := if e.l.sender == Some(from) then [e.l.m] else [];
      Regroup(TookFrom(pre, from), From(box, from), x);
      Regroup(TookFrom(pre, from), x, From(after, from));
    }
  }

  // ---- the mail of a run ------------------------------------------------------------------------------------

  function LetterOf(s: System, m: Mid): Letter {
    Letter(m, s.Hdr(m).sender)
  }

  // The letters queued to a task.
  function Box(s: System, t: Tid): (r: seq<Letter>)
    ensures |r| == |At(s.queues, t)| && forall i :: 0 <= i < |r| ==> r[i] == LetterOf(s, At(s.queues, t)[i])
  {
    seq(|At(s.queues, t)|, i requires 0 <= i < |At(s.queues, t)| => LetterOf(s, At(s.queues, t)[i]))
  }

  // What a step means for task t.
  function MailOf(s: System, op: Op, t: Tid): seq<Mail> {
    if !Enabled(s, op) then []
    else match op
      case DoSend(from, to, m) =>
        if to != t || Send(s, from, to, m).1 != Done then []
        else
          var l := Letter(m, Some(from));
          if s.Ep(t).waiting && s.Ep(t).pc.Waiting? && Wanted(l, s.Ep(t).pc.from)
          then [Sent(l), Took(s.Ep(t).pc.from, l)] else [Sent(l)]
      case DoWait(r, f, wait) => if r == t && s.Ep(t).init then Received(s, t, f) else []
      case DoResume(r) =>
        var e := s.Ep(t);
        if r == t && !e.timedOut && e.got.None? && e.pc.Waiting? && e.init then Received(s, t, e.pc.from) else []
      case DoKill(r) => if r == t then [Dropped] else []
      case _ => []
  }

  function Received(s: System, t: Tid, f: Filter): seq<Mail> {
    match Select(s, t, f).1
    case Some(m) => [Took(f, LetterOf(s, m))]
    case None => []
  }

  function MailRun(s0: System, ops: seq<Op>, t: Tid): seq<Mail> {
    if ops == [] then []
    else MailRun(s0, ops[..|ops| - 1], t) + MailOf(Run(s0, ops[..|ops| - 1]), ops[|ops| - 1], t)
  }

  lemma ReplayMore(es: seq<Mail>, e: Mail, f: Mail)
    ensures Replay(es + [e]) == if Replay(es).None? then None else MailStep(Replay(es).value, e)
    ensures Replay(es + [e, f]) == if Replay(es + [e]).None? then None else MailStep(Replay(es + [e]).value, f)
  {
    assert (es + [e])[..|es|] == es;
    assert (es + [e, f])[..|es| + 1] == es + [e];
  }

  // ---- frames -------------------------------------------------------------------------------------------------

  // Nothing of t's queue changed.
  ghost predicate Quiet(s: System, s1: System, t: Tid) {
    && At(s1.queues, t) == At(s.queues, t)
    && forall m <- At(s.queues, t) :: s1.Hdr(m).sender == s.Hdr(m).sender
  }

  lemma QuietBox(s: System, s1: System, t: Tid)
    requires Quiet(s, s1, t)
    ensures Box(s1, t) == Box(s, t)
  {
  }

  // Only message m changed, which is not queued.
  lemma QuietBut(s: System, s1: System, m: Mid, t: Tid)
    requires Inv(s) && s.Hdr(m).st != Queued
    requires At(s1.queues, t) == At(s.queues, t) && forall x: Mid :: x != m ==> s1.Hdr(x) == s.Hdr(x)
    ensures Quiet(s, s1, t) && m !in At(s.queues, t)
  {
    assert m in At(s.queues, t) <==> s.Hdr(m).st == Queued && s.Hdr(m).owner == Some(t) && None != Some(m);
  }

  // The head of a pool's free list becomes r's message, and nothing else changes hands.
  lemma AllocMoves(s: System, r: Tid, p: nat, wait: Wait)
    requires Inv(s) && p in s.pools && s.pools[p].mem.free != []
    ensures var m, s1 := Mid(p, s.pools[p].mem.free[0]), Alloc(s, r, p, wait).0;
      s1.queues == s.queues && s1.eps == s.eps && forall x: Mid :: x != m ==> s1.Hdr(x) == s.Hdr(x)
  {
    var m := Mid(p, s.pools[p].mem.free[0]);
    var s0 := s.(pools := s.pools[p := s.pools[p].(mem := s.pools[p].mem.Take().0)]);
    OwnFrame(s, s0);
    InitAllocatedOk(s0, m, r);
  }

  lemma FreeBlockIsFree(s: System, p: nat)
    requires p in s.pools && PoolOk(s, p) && s.pools[p].mem.free != []
    ensures s.Hdr(Mid(p, s.pools[p].mem.free[0])).st == Free
  {
    assert !s.pools[p].mem.Held(s.pools[p].mem.free[0]);
  }

  lemma QuietAlloc(s: System, r: Tid, p: nat, wait: Wait, t: Tid)
    requires Inv(s) && p in s.pools
    ensures Quiet(s, Alloc(s, r, p, wait).0, t)
  {
    if s.pools[p].mem.free != [] {
      FreeBlockIsFree(s, p);
      AllocMoves(s, r, p, wait);
      QuietBut(s, Alloc(s, r, p, wait).0, Mid(p, s.pools[p].mem.free[0]), t);
    }
  }

  // A message given back takes no header with it but its own.
  lemma GiveBackMoves(s: System, m: Mid)
    requires OwnOk(s) && m.pool in s.pools
    ensures var s1 := GiveBack(s, m); s1.queues == s.queues && forall x: Mid :: x != m ==> s1.Hdr(x) == s.Hdr(x)
  {
    if s.pools[m.pool].waiters != [] { HandoffIs(s, m); } else { SetOwnerOk(s, m, None); }
  }

  lemma QuietFree(s: System, m: Mid, t: Tid)
    requires Inv(s)
    ensures Quiet(s, FreeMesg(s, m).0, t)
  {
    if FreeMesg(s, m).1 == Done {
      GiveBackMoves(s, m);
      QuietBut(s, FreeMesg(s, m).0, m, t);
    }
  }

  // ---- death of another task ------------------------------------------------------------------------------

  // What belongs to t stays as it is; only an allocator's record may change.
  ghost predicate Untouched(s: System, s1: System, t: Tid) {
    && At(s1.queues, t) == At(s.queues, t)
    && (forall m: Mid :: s.Hdr(m).owner == Some(t) ==> s1.Hdr(m) == s.Hdr(m))
    && SameCall(s, s1, t)
  }

  ghost predicate SameCall(s: System, s1: System, t: Tid) {
    s1.Ep(t).pc == s.Ep(t).pc && (s.Ep(t).pc.Waiting? ==> s1.Ep(t) == s.Ep(t))
  }

  lemma UntouchedThen(s: System, s1: System, s2: System, t: Tid)
    requires Untouched(s, s1, t) && Untouched(s1, s2, t)
    ensures Untouched(s, s2, t)
  {
    forall m: Mid | s.Hdr(m).owner == Some(t) ensures s2.Hdr(m) == s.Hdr(m) { assert s1.Hdr(m) == s.Hdr(m); }
  }

  lemma GiveBackUntouched(s: System, m: Mid, t: Tid)
    requires OwnOk(s) && PoolsOk(s) && EpsOk(s) && m.pool in s.pools && s.Hdr(m).owner != Some(t)
    ensures Untouched(s, GiveBack(s, m), t)
  {
    GiveBackMoves(s, m);
    GiveBackCalls(s, m, t);
  }

  // A waiting allocator is in an allocation, not in a receive.
  lemma GiveBackCalls(s: System, m: Mid, t: Tid)
    requires OwnOk(s) && PoolsOk(s) && EpsOk(s) && m.pool in s.pools
    ensures SameCall(s, GiveBack(s, m), t)
  {
    if s.pools[m.pool].waiters != [] {
      HandoffIs(s, m);
      var h := s.pools[m.pool].waiters[0];
      assert WaitsOn(s, m.pool, h) && EpOk(s, h);
    } else {
      SetOwnerOk(s, m, None);
    }
  }

  lemma CleanQueueStep(s: System, d: Tid, n: nat)
    requires 0 < n == |At(s.queues, d)| && At(s.queues, d)[0].pool in s.pools
    ensures CleanQueue(s, d, n) == CleanQueue(CleanHead(s, d), d, n - 1)
  {
  }

  lemma {:induction false} CleanQueueUntouched(s: System, d: Tid, n: nat, t: Tid)
    requires Dying(s, d) && d != t && n == |At(s.queues, d)|
    ensures Untouched(s, CleanQueue(s, d, n), t)
    decreases n
  {
    if n > 0 {
      var s1 := CleanHead(s, d);
      CleanHeadOk(s, d);
      CleanHeadUntouched(s, d, t);
      CleanQueueUntouched(s1, d, n - 1, t);
      UntouchedThen(s, s1, CleanQueue(s1, d, n - 1), t);
      CleanQueueStep(s, d, n);
    }
  }

  lemma CleanHeadUntouched(s: System, d: Tid, t: Tid)
    requires Dying(s, d) && d != t && At(s.queues, d) != []
    ensures At(s.queues, d)[0].pool in s.pools && Untouched(s, CleanHead(s, d), t)
  {
    var q := At(s.queues, d);
    PopOk(s, d);
    var s0 := s.(queues := s.queues[d := q[1..]]);
    assert forall m: Mid :: s0.Hdr(m) == s.Hdr(m);
    GiveBackUntouched(s0, q[0], t);
    UntouchedThen(s, s0, CleanHead(s, d), t);
  }

  lemma {:induction false} CleanOwnedUntouched(s: System, d: Tid, n: nat, t: Tid)
    requires Dying(s, d) && d != t && At(s.queues, d) == [] && n == |At(s.owned, d)|
    ensures Untouched(s, CleanOwned(s, d, n), t)
    decreases n
  {
    if n > 0 {
      var m := At(s.owned, d)[0];
      assert m in At(s.owned, d);
      OwnedMayGo(s, d, m);
      CleanFirstOwnedOk(s, d);
      GiveBackUntouched(s, m, t);
      CleanOwnedUntouched(GiveBack(s, m), d, n - 1, t);
      UntouchedThen(s, GiveBack(s, m), CleanOwned(s, d, n), t);
    }
  }

  lemma LoopsUntouched(s: System, d: Tid, t: Tid)
    requires Dying(s, d) && d != t
    ensures var s2 := CleanQueue(s, d, |At(s.queues, d)|); Untouched(s, CleanOwned(s2, d, |At(s2.owned, d)|), t)
  {
    CleanQueueUntouched(s, d, |At(s.queues, d)|, t);
    CleanQueueOk(s, d, |At(s.queues, d)|);
    var s2 := CleanQueue(s, d, |At(s.queues, d)|);
    CleanOwnedUntouched(s2, d, |At(s2.owned, d)|, t);
    UntouchedThen(s, s2, CleanOwned(s2, d, |At(s2.owned, d)|), t);
  }

  lemma KillUntouched(s: System, d: Tid, t: Tid)
    requires Inv(s) && d != t
    ensures Untouched(s, Kill(s, d), t)
  {
    var e := Endpoint(s.Ep(d).init, Idle, false, false, false, None);
    var s1 := Unlink(s, d).WithEp(d, e);
    UnlinkOk(s, d, e);
    LoopsUntouched(s1, d, t);
    SameForOthers(s, s1, d, t);
    KillEnds(s, d, t);
  }

  lemma KillEnds(s: System, d: Tid, t: Tid)
    requires d != t
    requires var s1 := Unlink(s, d).WithEp(d, Endpoint(s.Ep(d).init, Idle, false, false, false, None));
      var s2 := CleanQueue(s1, d, |At(s1.queues, d)|);
      Untouched(s, s1, t) && Untouched(s1, CleanOwned(s2, d, |At(s2.owned, d)|), t)
    ensures Untouched(s, Kill(s, d), t)
  {
    var s1 := Unlink(s, d).WithEp(d, Endpoint(s.Ep(d).init, Idle, false, false, false, None));
    var s2 := CleanQueue(s1, d, |At(s1.queues, d)|);
    var s3 := CleanOwned(s2, d, |At(s2.owned, d)|);
    UntouchedThen(s, s1, s3, t);
    SameForOthers(s3, Kill(s, d), d, t);
    UntouchedThen(s, s3, Kill(s, d), t);
  }

  lemma SameForOthers(s: System, s1: System, d: Tid, t: Tid)
    requires s1.hdrs == s.hdrs && d != t && (s1.queues == s.queues || s1.queues == s.queues[d := []])
    requires s1.Ep(t) == s.Ep(t)
    ensures Untouched(s, s1, t)
  {
  }

  lemma QuietKill(s: System, d: Tid, t: Tid)
    requires Inv(s) && d != t
    ensures Quiet(s, Kill(s, d), t)
  {
    KillUntouched(s, d, t);
    forall m <- At(s.queues, t) ensures Kill(s, d).Hdr(m).sender == s.Hdr(m).sender {
      assert s.Hdr(m).st == Queued && s.Hdr(m).owner == Some(t) && None != Some(m);
    }
  }

  // ---- sends and receives ---------------------------------------------------------------------------------

  lemma {:induction false} MatchIsWanted(s: System, t: Tid, f: Filter, i: nat)
    requires i <= |At(s.queues, t)|
    ensures FirstMatch(s, At(s.queues, t), f, i) == FirstWanted(Box(s, t), f, i)
    decreases |At(s.queues, t)| - i
  {
    if i < |At(s.queues, t)| { MatchIsWanted(s, t, f, i + 1); }
  }

  lemma BoxWithout(s: System, s1: System, t: Tid, i: nat)
    requires i < |At(s.queues, t)| && At(s1.queues, t) == At(s.queues, t)[..i] + At(s.queues, t)[i + 1..]
    requires forall x: Mid :: s1.Hdr(x).sender == s.Hdr(x).sender
    ensures Box(s1, t) == Box(s, t)[..i] + Box(s, t)[i + 1..]
  {
  }

  // A receive takes the first letter it wants out of the box.
  lemma SelectTakes(s: System, t: Tid, f: Filter)
    ensures var (s1, got) := Select(s, t, f);
      match got
      case None => s1 == s
      case Some(m) => MailStep(Box(s, t), Took(f, LetterOf(s, m))) == Some(Box(s1, t))
  {
    MatchIsWanted(s, t, f, 0);
    var i := FirstMatch(s, At(s.queues, t), f);
    if i < |At(s.queues, t)| {
      var s1 := Select(s, t, f).0;
      assert forall x: Mid :: s1.Hdr(x).sender == s.Hdr(x).sender;
      BoxWithout(s, s1, t, i);
    }
  }

  lemma QuietSelect(s: System, r: Tid, f: Filter, t: Tid)
    requires r != t
    ensures Quiet(s, Select(s, r, f).0, t)
  {
  }

  // The receiver owns the message and nothing is queued yet.
  lemma TransferQuiet(s: System, from: Tid, t: Tid, m: Mid)
    requires Inv(s) && Owned(s.Hdr(m).st)
    ensures var s0 := SetOwner(s.WithHdr(m, s.Hdr(m).(sender := Some(from))), m, Some(t));
      && s0.queues == s.queues && s0.eps == s.eps && s0.Hdr(m).sender == Some(from) && m !in At(s.queues, t)
      && Box(s0, t) == Box(s, t)
  {
    TransferOk(s, from, t, m);
    var s0 := SetOwner(s.WithHdr(m, s.Hdr(m).(sender := Some(from))), m, Some(t));
    QuietBut(s, s0, m, t);
    QuietBox(s, s0, t);
  }

  lemma StoreBox(s: System, t: Tid, m: Mid)
    requires m !in At(s.queues, t)
    ensures Box(Store(s, t, m), t) == Box(s, t) + [LetterOf(s, m)]
  {
    forall x <- At(s.queues, t) ensures x != m {}
  }

  lemma DeliverBox(s: System, t: Tid, m: Mid)
    requires m !in At(s.queues, t)
    ensures Box(Deliver(s, t, m), t) == Box(s, t)
  {
    forall x <- At(s.queues, t) ensures x != m {}
  }

  // The message joins the box, or is wanted at once.
  lemma SendPuts(s: System, from: Tid, t: Tid, m: Mid)
    requires Inv(s) && Send(s, from, t, m).1 == Done
    ensures var l, s1 := Letter(m, Some(from)), Send(s, from, t, m).0;
      if MailOf(s, DoSend(from, t, m), t) == [Sent(l)] then Box(s1, t) == Box(s, t) + [l]
      else MailOf(s, DoSend(from, t, m), t) == [Sent(l), Took(s.Ep(t).pc.from, l)] && Box(s1, t) == Box(s, t)
           && FirstWanted(Box(s, t) + [l], s.Ep(t).pc.from) == |Box(s, t)|
  {
    TransferQuiet(s, from, t, m);
    var s0 := SetOwner(s.WithHdr(m, s.Hdr(m).(sender := Some(from))), m, Some(t));
    if WaitMatches(s0, t, m) {
      assert EpOk(s, t);
      NothingWanted(s, t, s.Ep(t).pc.from);
      FirstWantedAppend(Box(s, t), Letter(m, Some(from)), s.Ep(t).pc.from);
      DeliverBox(s0, t, m);
    } else {
      StoreBox(s0, t, m);
    }
  }

  lemma NothingWanted(s: System, t: Tid, f: Filter)
    requires NoMatch(s, At(s.queues, t), f)
    ensures forall l <- Box(s, t) :: !Wanted(l, f)
  {
    forall l <- Box(s, t) ensures !Wanted(l, f) {
      var i :| 0 <= i < |Box(s, t)| && Box(s, t)[i] == l;
      assert At(s.queues, t)[i] in At(s.queues, t);
    }
  }

  lemma FirstWantedAppend(box: seq<Letter>, l: Letter, f: Filter)
    requires (forall x <- box :: !Wanted(x, f)) && Wanted(l, f)
    ensures FirstWanted(box + [l], f) == |box|
  {
    var i := FirstWanted(box + [l], f);
    assert (box + [l])[|box|] == l;
    assert forall j :: 0 <= j < |box| ==> (box + [l])[j] in box;
  }

  lemma QuietSend(s: System, from: Tid, to: Tid, m: Mid, t: Tid)
    requires Inv(s) && to != t
    ensures Quiet(s, Send(s, from, to, m).0, t)
  {
    if Send(s, from, to, m).1 == Done {
      TransferOk(s, from, to, m);
      QuietBut(s, Send(s, from, to, m).0, m, t);
    }
  }

  // ---- every run --------------------------------------------------------------------------------------------

  ghost predicate Delivers(s: System, s1: System, es: seq<Mail>, t: Tid) {
    match |es|
    case 0 => Box(s1, t) == Box(s, t)
    case 1 => MailStep(Box(s, t), es[0]) == Some(Box(s1, t))
    case 2 => MailStep(Box(s, t), es[0]).Some? && MailStep(MailStep(Box(s, t), es[0]).value, es[1]) == Some(Box(s1, t))
    case _ => false
  }

  lemma SentAndTook(box: seq<Letter>, l: Letter, f: Filter)
    requires FirstWanted(box + [l], f) == |box|
    ensures MailStep(box + [l], Took(f, l)) == Some(box)
  {
    assert (box + [l])[..|box|] + (box + [l])[|box| + 1..] == box;
  }

  lemma DeliversTwo(s: System, s1: System, t: Tid, l: Letter, f: Filter)
    requires Box(s1, t) == Box(s, t) && FirstWanted(Box(s, t) + [l], f) == |Box(s, t)|
    ensures Delivers(s, s1, [Sent(l), Took(f, l)], t)
  {
    SentAndTook(Box(s, t), l, f);
  }

  lemma DeliversOne(s: System, s1: System, t: Tid, l: Letter)
    requires Box(s1, t) == Box(s, t) + [l]
    ensures Delivers(s, s1, [Sent(l)], t)
  {
  }

  lemma SendDelivers(s: System, from: Tid, to: Tid, m: Mid, t: Tid)
    requires Inv(s)
    ensures Delivers(s, Send(s, from, to, m).0, MailOf(s, DoSend(from, to, m), t), t)
  {
    var s1, l := Send(s, from, to, m).0, Letter(m, Some(from));
    if to != t {
      QuietSend(s, from, to, m, t);
      QuietBox(s, s1, t);
    } else if Send(s, from, to, m).1 == Done {
      SendPuts(s, from, t, m);
      if MailOf(s, DoSend(from, t, m), t) == [Sent(l)] { DeliversOne(s, s1, t, l); }
      else { DeliversTwo(s, s1, t, l, s.Ep(t).pc.from); }
    }
  }

  lemma WaitDelivers(s: System, r: Tid, f: Filter, wait: Wait, t: Tid)
    requires Inv(s) && Enabled(s, DoWait(r, f, wait))
    ensures Delivers(s, WaitMesg(s, r, f, wait).0, MailOf(s, DoWait(r, f, wait), t), t)
  {
    if r == t {
      SelectTakes(s, t, f);
      var s1 := WaitMesg(s, r, f, wait).0;
      if s.Ep(t).init && Select(s, t, f).1.None? { QuietBox(s, s1, t); }
    } else {
      QuietSelect(s, r, f, t);
      QuietBox(s, WaitMesg(s, r, f, wait).0, t);
    }
  }

  lemma ResumeDelivers(s: System, r: Tid, t: Tid)
    requires Inv(s) && Enabled(s, DoResume(r))
    ensures Delivers(s, Resume(s, r).0, MailOf(s, DoResume(r), t), t)
  {
    assert EpOk(s, r);
    assert s.Ep(r).timedOut || s.Ep(r).got.Some?;
    QuietBox(s, Resume(s, r).0, t);
  }

  lemma StepDelivers(s: System, op: Op, t: Tid)
    requires Inv(s)
    ensures Delivers(s, Step(s, op), MailOf(s, op, t), t)
  {
    if Enabled(s, op) {
      match op
      case DoInit(r) => QuietBox(s, Step(s, op), t);
      case DoAlloc(r, p, wait) => QuietAlloc(s, r, p, wait, t); QuietBox(s, Step(s, op), t);
      case DoFree(m) => QuietFree(s, m, t); QuietBox(s, Step(s, op), t);
      case DoSend(from, to, m) => SendDelivers(s, from, to, m, t);
      case DoWait(r, f, wait) => WaitDelivers(s, r, f, wait, t);
      case DoResume(r) => ResumeDelivers(s, r, t);
      case DoTimeout(r) => QuietBox(s, Step(s, op), t);
      case DoKill(r) =>
        if r == t { KillOk(s, t); } else { QuietKill(s, r, t); QuietBox(s, Step(s, op), t); }
    }
  }

  // Every run, with its direct deliveries, timeouts and deaths, is at each receiver a run of a mailbox from
  // which every receive takes the earliest letter it wants.
  lemma {:induction false} RunRefinesMailbox(sizes: seq<nat>, prios: Prios, ops: seq<Op>, t: Tid)
    ensures Replay(MailRun(Boot(sizes, prios), ops, t)) == Some(Box(Run(Boot(sizes, prios), ops), t))
  {
    var s0 := Boot(sizes, prios);
    if ops != [] {
      var pre, op := ops[..|ops| - 1], ops[|ops| - 1];
      RunRefinesMailbox(sizes, prios, pre, t);
      RunOk(sizes, prios, pre);
      StepDelivers(Run(s0, pre), op, t);
      var es, more := MailRun(s0, pre, t), MailOf(Run(s0, pre), op, t);
      if |more| == 0 { assert es + more == es; }
      if |more| == 1 { assert more == [more[0]]; ReplayMore(es, more[0], more[0]); }
      if |more| == 2 { assert more == [more[0], more[1]]; ReplayMore(es, more[0], more[1]); }
    }
  }

  // Over every run in which the receiver does not die: from each sender it takes the messages in the order
  // they were sent, and those not taken yet are the last ones and still queued.
  lemma PerSenderFifo(sizes: seq<nat>, prios: Prios, ops: seq<Op>, t: Tid, from: Tid)
    requires DoKill(t) !in ops
    ensures var s0 := Boot(sizes, prios); var es := MailRun(s0, ops, t);
      SentFrom(es, from) == TookFrom(es, from) + From(Box(Run(s0, ops), t), from)
  {
    RunRefinesMailbox(sizes, prios, ops, t);
    NeverDropped(Boot(sizes, prios), ops, t);
    ReplayIsFifoPerSender(MailRun(Boot(sizes, prios), ops, t), from);
  }

  lemma {:induction false} NeverDropped(s0: System, ops: seq<Op>, t: Tid)
    requires DoKill(t) !in ops
    ensures Dropped !in MailRun(s0, ops, t)
  {
    if ops != [] {
      var pre := ops[..|ops| - 1];
      assert forall op <- pre :: op in ops;
      NeverDropped(s0, pre, t);
      assert ops[|ops| - 1] in ops;
    }
  }

  // ---- what the calls return ------------------------------------------------------------------------------

  function TakenOf(es: seq<Mail>): seq<Mid> {
    if es == [] then [] else TakenOf(es[..|es| - 1]) + if es[|es| - 1].Took? then [es[|es| - 1].l.m] else []
  }

  // The message that was delivered to a suspended receive, until it runs again.
  function InHand(s: System, t: Tid): seq<Mid> {
    if s.Ep(t).pc.Waiting? && s.Ep(t).got.Some? then [s.Ep(t).got.value] else []
  }

  // What the receive that ends in this step returns.
  function ReturnOf(s: System, op: Op, t: Tid): seq<Mid> {
    if !Enabled(s, op) then []
    else match op
      case DoWait(r, f, wait) =>
        if r == t && WaitMesg(s, t, f, wait).2.Some? then [WaitMesg(s, t, f, wait).2.value] else []
      case DoResume(r) =>
        if r == t && s.Ep(t).pc.Waiting? && Resume(s, t).2.Some? then [Resume(s, t).2.value] else []
      case _ => []
  }

  function Returns(s0: System, ops: seq<Op>, t: Tid): seq<Mid> {
    if ops == [] then []
    else Returns(s0, ops[..|ops| - 1], t) + ReturnOf(Run(s0, ops[..|ops| - 1]), ops[|ops| - 1], t)
  }

  lemma SameHand(s: System, s1: System, t: Tid)
    requires SameCall(s, s1, t)
    ensures InHand(s1, t) == InHand(s, t)
  {
  }

  lemma TookFew(es: seq<Mail>)
    ensures |es| == 0 ==> TakenOf(es) == []
    ensures |es| == 1 ==> TakenOf(es) == if es[0].Took? then [es[0].l.m] else []
    ensures |es| == 2 && es[0].Sent? && es[1].Took? ==> TakenOf(es) == [es[1].l.m]
  {
    if |es| > 0 { assert es[..|es| - 1] == if |es| == 1 then [] else es[..|es| - 1]; }
    if |es| == 2 { assert es[..1][..0] == []; }
  }

  ghost predicate Accounts(s: System, s1: System, took: seq<Mid>, returned: seq<Mid>, t: Tid) {
    InHand(s, t) + took == returned + InHand(s1, t)
  }

  // A message sent to t ends up in its queue or in its hand.
  lemma SendHands(s: System, from: Tid, t: Tid, m: Mid)
    requires Inv(s) && Send(s, from, t, m).1 == Done
    ensures var es := MailOf(s, DoSend(from, t, m), t);
      InHand(Send(s, from, t, m).0, t) == InHand(s, t) + if |es| == 2 then [m] else []
  {
    TransferQuiet(s, from, t, m);
    assert EpOk(s, t);
  }

  lemma SendReturns(s: System, from: Tid, to: Tid, m: Mid, t: Tid)
    requires Inv(s)
    ensures Accounts(s, Send(s, from, to, m).0, TakenOf(MailOf(s, DoSend(from, to, m), t)), [], t)
  {
    TookFew(MailOf(s, DoSend(from, to, m), t));
    if to == t && Send(s, from, t, m).1 == Done {
      SendHands(s, from, t, m);
    } else if Send(s, from, to, m).1 == Done {
      TransferQuiet(s, from, to, m);
      SameHand(s, Send(s, from, to, m).0, t);
    }
  }

  lemma WaitReturns(s: System, r: Tid, f: Filter, wait: Wait, t: Tid)
    requires Inv(s) && Enabled(s, DoWait(r, f, wait))
    ensures var op := DoWait(r, f, wait);
      Accounts(s, WaitMesg(s, r, f, wait).0, TakenOf(MailOf(s, op, t)), ReturnOf(s, op, t), t)
  {
    var s1, es := WaitMesg(s, r, f, wait).0, MailOf(s, DoWait(r, f, wait), t);
    TookFew(es);
    if r != t {
      assert s1.Ep(t) == s.Ep(t);
    } else {
      assert EpOk(s, r);
      assert InHand(s, t) == [] == InHand(s1, t);
    }
  }

  lemma ResumeReturns(s: System, r: Tid, t: Tid)
    requires Inv(s) && Enabled(s, DoResume(r))
    ensures var op := DoResume(r); Accounts(s, Resume(s, r).0, TakenOf(MailOf(s, op, t)), ReturnOf(s, op, t), t)
  {
    assert EpOk(s, r);
    assert s.Ep(r).timedOut || s.Ep(r).got.Some?;
    TookFew(MailOf(s, DoResume(r), t));
  }

  lemma AllocCalls(s: System, r: Tid, p: nat, wait: Wait, t: Tid)
    requires Inv(s) && Enabled(s, DoAlloc(r, p, wait))
    ensures InHand(Alloc(s, r, p, wait).0, t) == InHand(s, t)
  {
    if s.pools[p].mem.free != [] { AllocMoves(s, r, p, wait); }
  }

  lemma FreeCalls(s: System, m: Mid, t: Tid)
    requires Inv(s)
    ensures InHand(FreeMesg(s, m).0, t) == InHand(s, t)
  {
    if FreeMesg(s, m).1 == Done {
      GiveBackCalls(s, m, t);
      SameHand(s, FreeMesg(s, m).0, t);
    }
  }

  lemma StepReturns(s: System, op: Op, t: Tid)
    requires Inv(s) && op != DoKill(t)
    ensures Accounts(s, Step(s, op), TakenOf(MailOf(s, op, t)), ReturnOf(s, op, t), t)
  {
    TookFew(MailOf(s, op, t));
    if Enabled(s, op) {
      match op
      case DoInit(r) => assert EpOk(s, t); SameHand(s, Step(s, op), t);
      case DoAlloc(r, p, wait) => AllocCalls(s, r, p, wait, t);
      case DoFree(m) => FreeCalls(s, m, t);
      case DoSend(from, to, m) => SendReturns(s, from, to, m, t);
      case DoWait(r, f, wait) => WaitReturns(s, r, f, wait, t);
      case DoResume(r) => ResumeReturns(s, r, t);
      case DoTimeout(r) => assert EpOk(s, r);
      case DoKill(r) =>
        KillUntouched(s, r, t);
        SameHand(s, Step(s, op), t);
    }
  }

  lemma TookConcat(es: seq<Mail>, more: seq<Mail>)
    ensures TakenOf(es + more) == TakenOf(es) + TakenOf(more)
    decreases |more|
  {
    if more == [] {
      assert es + more == es;
    } else {
      assert (es + more)[..|es + more| - 1] == es + more[..|more| - 1];
      TookConcat(es, more[..|more| - 1]);
    }
  }

  // Over every run in which the receiver does not die, its receives return the messages taken for it, in that
  // order; at most one, delivered to a suspended receive, is still to be returned.
  lemma {:induction false} EveryTakenIsReturned(sizes: seq<nat>, prios: Prios, ops: seq<Op>, t: Tid)
    requires DoKill(t) !in ops
    ensures var s0 := Boot(sizes, prios);
      TakenOf(MailRun(s0, ops, t)) == Returns(s0, ops, t) + InHand(Run(s0, ops), t)
  {
    var s0 := Boot(sizes, prios);
    if ops != [] {
      var pre, op := ops[..|ops| - 1], ops[|ops| - 1];
      assert forall o <- pre :: o in ops;
      assert op in ops;
      EveryTakenIsReturned(sizes, prios, pre, t);
      RunOk(sizes, prios, pre);
      var s := Run(s0, pre);
      StepReturns(s, op, t);
      TookConcat(MailRun(s0, pre, t), MailOf(s, op, t));
      Regroup(Returns(s0, pre, t), InHand(s, t), TakenOf(MailOf(s, op, t)));
      Regroup(Returns(s0, pre, t), ReturnOf(s, op, t), InHand(Run(s0, ops), t));
    }
  }
}
