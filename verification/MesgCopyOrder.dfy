// The order of copied messages, over every run: what happens at one receiver, direct copies and all, is what
// a mailbox would do, each message being received once. Since receives have a size limit, messages of one
// sender may overtake each other; this module says exactly when.

module MesgCopyOrder {
  import opened Basics
  import opened MesgCopySpec
  import opened MesgCopyProof

  // ---- a mailbox that numbers its letters ---------------------------------------------------------------

  datatype Letter = Letter(no: nat, sender: Tid, payload: Payload)

  datatype Mail = Posted(sender: Tid, payload: Payload) | Took(w: Want, sender: Tid, payload: Payload) | Dropped

  // The letters in the box, those taken out of it, the number of the next one.
  datatype Post = Post(box: seq<Letter>, taken: seq<Letter>, next: nat)

  predicate Fitting(l: Letter, w: Want) {
    w.Takes(l.sender, |l.payload|)
  }

  function FirstFitting(box: seq<Letter>, w: Want, i: nat := 0): (r: nat)
    requires i <= |box|
    ensures i <= r <= |box| && (r < |box| ==> Fitting(box[r], w))
    ensures forall j :: i <= j < r ==> !Fitting(box[j], w)
    decreases |box| - i
  {
    if i == |box| || Fitting(box[i], w) then i else FirstFitting(box, w, i + 1)
  }

  function MailStep(p: Post, e: Mail): Option<Post> {
    match e
    case Posted(f, payload) => Some(p.(box := p.box + [Letter(p.next, f, payload)], next := p.next + 1))
    case Took(w, f, payload) =>
      var i := FirstFitting(p.box, w);
      if i < |p.box| && p.box[i].sender == f && p.box[i].payload == payload then Some(TakeOut(p, i)) else None
    case Dropped => Some(p.(box := []))
  }

  function TakeOut(p: Post, i: nat): Post
    requires i < |p.box|
  {
    p.(box := p.box[..i] + p.box[i + 1..], taken := p.taken + [p.box[i]])
  }

  function Replay(es: seq<Mail>): Option<Post> {
    if es == [] then Some(Post([], [], 0))
    else match Replay(es[..|es| - 1])
      case None => None
      case Some(p) => MailStep(p, es[|es| - 1])
  }

  // ---- which letters are taken out of order ---------------------------------------------------------------

  // Numbers are given in the order of the sends, and each letter is in one place.
  ghost predicate Numbered(p: Post) {
    && (forall i, j :: 0 <= i < j < |p.box| ==> p.box[i].no < p.box[j].no)
    && (forall l <- p.box :: l.no < p.next)
    && (forall l <- p.taken :: l.no < p.next)
    && (forall i, j :: 0 <= i < j < |p.taken| ==> p.taken[i].no != p.taken[j].no)
    && (forall i, j :: 0 <= i < |p.box| && 0 <= j < |p.taken| ==> p.box[i].no != p.taken[j].no)
  }

  // Some letter of f was taken before an older one of f.
  ghost predicate OutOfOrder(p: Post, f: Tid) {
    || (exists i, j :: 0 <= i < j < |p.taken| && Before(p.taken[j], p.taken[i], f))
    || (exists i, j :: 0 <= i < |p.taken| && 0 <= j < |p.box| && Before(p.box[j], p.taken[i], f))
  }

  // Both are letters of f, and a is the older one.
  predicate Before(a: Letter, b: Letter, f: Tid) {
    a.sender == f && b.sender == f && a.no < b.no
  }

  // A letter of f is taken past an older one of f, which was too long for the receive.
  ghost predicate Overtakes(p: Post, e: Mail, f: Tid) {
    e.Took? && e.sender == f
    && exists j :: 0 <= j < FirstFitting(p.box, e.w) && p.box[j].sender == f
  }

  ghost predicate Overtook(es: seq<Mail>, f: Tid) {
    es != [] && (Overtook(es[..|es| - 1], f)
                 || (Replay(es[..|es| - 1]).Some? && Overtakes(Replay(es[..|es| - 1]).value, es[|es| - 1], f)))
  }

  lemma OvertakenIsTooLong(p: Post, e: Mail, f: Tid, j: nat)
    requires e.Took? && e.sender == f && MailStep(p, e).Some?
    requires j < FirstFitting(p.box, e.w) && p.box[j].sender == f
    ensures |p.box[j].payload| > e.w.room
  {
    assert !Fitting(p.box[j], e.w);
  }

  lemma SentNumbered(p: Post, f: Tid, payload: Payload)
    requires Numbered(p)
    ensures Numbered(MailStep(p, Posted(f, payload)).value)
  {
  }

  lemma TakeOutIndex(p: Post, i: nat)
    requires i < |p.box|
    ensures var q := TakeOut(p, i);
      && |q.box| == |p.box| - 1 && (forall j :: 0 <= j < |q.box| ==> q.box[j] == p.box[if j < i then j else j + 1])
      && |q.taken| == |p.taken| + 1
      && (forall j :: 0 <= j < |q.taken| ==> q.taken[j] == if j < |p.taken| then p.taken[j] else p.box[i])
  {
  }

  lemma TakeOutNumbers(p: Post, i: nat)
    requires Numbered(p) && i < |p.box|
    ensures (forall l <- TakeOut(p, i).box :: l.no < p.next) && (forall l <- TakeOut(p, i).taken :: l.no < p.next)
  {
    TakeOutIndex(p, i);
    var q := TakeOut(p, i);
    forall l <- q.box ensures l.no < q.next {
      var j :| 0 <= j < |q.box| && q.box[j] == l;
      assert l in p.box;
    }
    forall l <- q.taken ensures l.no < q.next {
      var j :| 0 <= j < |q.taken| && q.taken[j] == l;
      if j < |p.taken| { assert l in p.taken; } else { assert l in p.box; }
    }
  }

  lemma TakeOutNumbered(p: Post, i: nat)
    requires Numbered(p) && i < |p.box|
    ensures Numbered(TakeOut(p, i))
  {
    TakeOutIndex(p, i);
    TakeOutNumbers(p, i);
  }

  // A new letter is younger than all the others.
  lemma SentOrder(p: Post, g: Tid, payload: Payload, f: Tid)
    requires Numbered(p)
    ensures OutOfOrder(MailStep(p, Posted(g, payload)).value, f) <==> OutOfOrder(p, f)
  {
    var q := MailStep(p, Posted(g, payload)).value;
    assert forall j :: 0 <= j < |p.box| ==> q.box[j] == p.box[j];
    if i, j :| 0 <= i < |q.taken| && 0 <= j < |q.box| && Before(q.box[j], q.taken[i], f) {
      assert q.taken[i] in p.taken;
      assert j < |p.box| && Before(p.box[j], p.taken[i], f);
    }
    if i, j :| 0 <= i < |p.taken| && 0 <= j < |p.box| && Before(p.box[j], p.taken[i], f) {
      assert Before(q.box[j], q.taken[i], f);
    }
  }

  // What was out of order stays so.
  lemma TakeOutStays(p: Post, i: nat, f: Tid)
    requires i < |p.box| && OutOfOrder(p, f)
    ensures OutOfOrder(TakeOut(p, i), f)
  {
    TakeOutIndex(p, i);
    var q := TakeOut(p, i);
    if a, b :| 0 <= a < b < |p.taken| && Before(p.taken[b], p.taken[a], f) {
      assert Before(q.taken[b], q.taken[a], f);
    } else {
      var a, b :| 0 <= a < |p.taken| && 0 <= b < |p.box| && Before(p.box[b], p.taken[a], f);
      if b == i { assert Before(q.taken[|p.taken|], q.taken[a], f); }
      else { assert Before(q.box[if b < i then b else b - 1], q.taken[a], f); }
    }
  }

  // Taking a letter past an older one of its sender puts them out of order.
  lemma TakeOutBreaks(p: Post, i: nat, j: nat, f: Tid)
    requires Numbered(p) && j < i < |p.box| && p.box[i].sender == f && p.box[j].sender == f
    ensures OutOfOrder(TakeOut(p, i), f)
  {
    TakeOutIndex(p, i);
    var q := TakeOut(p, i);
    assert Before(q.box[j], q.taken[|p.taken|], f);
  }

  // And nothing else does.
  lemma TakeOutKeeps(p: Post, i: nat, f: Tid)
    requires Numbered(p) && i < |p.box| && OutOfOrder(TakeOut(p, i), f)
    ensures OutOfOrder(p, f) || (p.box[i].sender == f && exists j :: 0 <= j < i && p.box[j].sender == f)
  {
    TakeOutIndex(p, i);
    var q := TakeOut(p, i);
    if a, b :| 0 <= a < b < |q.taken| && Before(q.taken[b], q.taken[a], f) {
      if b < |p.taken| { assert Before(p.taken[b], p.taken[a], f); } else { assert Before(p.box[i], p.taken[a], f); }
    } else {
      var a, b :| 0 <= a < |q.taken| && 0 <= b < |q.box| && Before(q.box[b], q.taken[a], f);
      var b0 := if b < i then b else b + 1;
      if a < |p.taken| { assert Before(p.box[b0], p.taken[a], f); } else { assert p.box[b0].no < p.box[i].no; }
    }
  }

  lemma TookOrder(p: Post, e: Mail, f: Tid)
    requires Numbered(p) && e.Took? && MailStep(p, e).Some?
    ensures Numbered(MailStep(p, e).value)
    ensures OutOfOrder(MailStep(p, e).value, f) <==> OutOfOrder(p, f) || Overtakes(p, e, f)
  {
    var i := FirstFitting(p.box, e.w);
    TakeOutNumbered(p, i);
    if OutOfOrder(p, f) { TakeOutStays(p, i, f); }
    if Overtakes(p, e, f) {
      var j :| 0 <= j < i && p.box[j].sender == f;
      TakeOutBreaks(p, i, j, f);
    }
    if OutOfOrder(TakeOut(p, i), f) { TakeOutKeeps(p, i, f); }
  }

  // While the receiver lives: every letter sent was taken once or is in the box, and a sender's letters are
  // taken out of order exactly if a receive took one past an older one that was too long for it.
  lemma {:induction false} ReplayOrder(es: seq<Mail>, f: Tid)
    requires Replay(es).Some? && Dropped !in es
    ensures var p := Replay(es).value;
      && Numbered(p) && |p.taken| + |p.box| == p.next
      && (OutOfOrder(p, f) <==> Overtook(es, f))
  {
    if es != [] {
      var pre, e := es[..|es| - 1], es[|es| - 1];
      assert es == pre + [e];
      ReplayOrder(pre, f);
      var p := Replay(pre).value;
      match e
      case Posted(g, payload) => SentNumbered(p, g, payload); SentOrder(p, g, payload, f);
      case Took(w, g, payload) => TookOrder(p, e, f);
    }
  }

  // With room for everything that is sent, no letter is passed over for its length.
  ghost predicate Roomy(e: Mail, n: nat) {
    (e.Posted? ==> |e.payload| <= n) && (e.Took? ==> e.w.room >= n)
  }

  lemma RoomyKeepsOrder(p: Post, e: Mail, n: nat, f: Tid)
    requires (forall l <- p.box :: |l.payload| <= n) && Roomy(e, n) && MailStep(p, e).Some?
    ensures !Overtakes(p, e, f)
  {
    if e.Took? && e.sender == f {
      forall j | 0 <= j < FirstFitting(p.box, e.w) ensures p.box[j].sender != f {
        assert p.box[j] in p.box && !Fitting(p.box[j], e.w);
      }
    }
  }

  lemma {:induction false} RoomyIsInOrder(es: seq<Mail>, n: nat, f: Tid)
    requires Replay(es).Some? && forall e <- es :: Roomy(e, n)
    ensures (forall l <- Replay(es).value.box :: |l.payload| <= n) && !Overtook(es, f)
  {
    if es != [] {
      var pre, e := es[..|es| - 1], es[|es| - 1];
      assert forall d <- pre :: d in es;
      assert e in es;
      RoomyIsInOrder(pre, n, f);
      var p := Replay(pre).value;
      RoomyKeepsOrder(p, e, n, f);
    }
  }

  // ---- the mail of a run ------------------------------------------------------------------------------------

  // What a step means for task t.
  function MailOf(s: System, op: Op, t: Tid): seq<Mail> {
    if !Enabled(s, op) then []
    else match op
      case DoSend(from, to, payload) =>
        if to != t || Send(s, from, to, payload).1 != Sent then []
        else
          var want := s.Ep(t).want;
          [Posted(from, payload)]
          + if want.Some? && want.value.Takes(from, |payload|) then [Took(want.value, from, payload)] else []
      case DoRecv(r, w, wait) =>
        var i := FirstFit(s, s.Queue(t), w);
        if r == t && Recv(s, t, w, wait).1.Done? && i < |s.Queue(t)|
        then [Took(w, s.blocks[s.Queue(t)[i]].sender, s.blocks[s.Queue(t)[i]].payload)] else []
      case DoKill(r) => if r == t then [Dropped] else []
      case _ => []
  }

  function MailRun(s0: System, ops: seq<Op>, t: Tid): seq<Mail> {
    if ops == [] then []
    else MailRun(s0, ops[..|ops| - 1], t) + MailOf(Run(s0, ops[..|ops| - 1]), ops[|ops| - 1], t)
  }

  // The letters in the box are the messages queued to t.
  ghost predicate Holds(p: Post, s: System, t: Tid) {
    |p.box| == |s.Queue(t)| && forall i :: 0 <= i < |p.box| ==> InBlock(p.box[i], s, s.Queue(t)[i], t)
  }

  ghost predicate InBlock(l: Letter, s: System, b: nat, t: Tid) {
    b < |s.blocks| && s.blocks[b] == Used(t, l.sender, l.payload)
  }

  ghost predicate Quiet(s: System, s1: System, t: Tid) {
    s1.Queue(t) == s.Queue(t) && forall b <- s.Queue(t) :: b < |s.blocks| && b < |s1.blocks| && s1.blocks[b] == s.blocks[b]
  }

  lemma QuietHolds(p: Post, s: System, s1: System, t: Tid)
    requires Holds(p, s, t) && Quiet(s, s1, t)
    ensures Holds(p, s1, t)
  {
    forall i | 0 <= i < |p.box| ensures InBlock(p.box[i], s1, s1.Queue(t)[i], t) {
      assert InBlock(p.box[i], s, s.Queue(t)[i], t) && s.Queue(t)[i] in s.Queue(t);
    }
  }

  // Taking a block off r's queue and freeing it is nothing to t.
  lemma QuietTakeOut(s: System, r: Tid, i: nat, t: Tid)
    requires Inv(s) && i < |s.Queue(r)| && r != t
    ensures s.Queue(r)[i] < |s.blocks|
    ensures var q := s.Queue(r); Quiet(s, FreeBlock(s.(queues := s.queues[r := q[..i] + q[i + 1..]]), q[i]), t)
  {
    assert s.Queue(r)[i] in s.Queue(r);
    assert QueuedFor(s, s.Queue(r)[i], r);
    forall b <- s.Queue(t) ensures b < |s.blocks| && b != s.Queue(r)[i] { assert QueuedFor(s, b, t); }
  }

  lemma QuietTrans(s: System, s1: System, s2: System, t: Tid)
    requires Quiet(s, s1, t) && Quiet(s1, s2, t)
    ensures Quiet(s, s2, t)
  {
  }

  lemma {:induction false} QuietDrain(s: System, r: Tid, t: Tid)
    requires Inv(s) && r != t
    ensures Quiet(s, Drain(s, r), t)
    decreases |s.Queue(r)|
  {
    if s.Queue(r) != [] {
      TakeHeadOk(s, r);
      QuietTakeOut(s, r, 0, t);
      assert s.Queue(r)[..0] + s.Queue(r)[0 + 1..] == s.Queue(r)[1..];
      QuietDrain(TakenHead(s, r), r, t);
      QuietTrans(s, TakenHead(s, r), Drain(s, r), t);
    } else {
      QuietSelf(s, t);
    }
  }

  lemma QuietSelf(s: System, t: Tid)
    requires Inv(s)
    ensures Quiet(s, s, t)
  {
    forall b <- s.Queue(t) ensures b < |s.blocks| { assert QueuedFor(s, b, t); }
  }

  lemma QuietKill(s: System, r: Tid, t: Tid)
    requires Inv(s) && r != t
    ensures Quiet(s, Kill(s, r), t)
  {
    QuietDrain(s, r, t);
    QuietTrans(s, Drain(s, r), Kill(s, r), t);
  }

  lemma QuietStore(s: System, from: Tid, to: Tid, payload: Payload, t: Tid)
    requires Inv(s) && s.free != [] && to != t
    ensures s.free[0] < |s.blocks| && Quiet(s, Store(s, from, to, payload).0, t)
  {
    assert s.free[0] in s.free;
    forall b <- s.Queue(t) ensures b < |s.blocks| && b != s.free[0] { assert QueuedFor(s, b, t); }
  }

  // ---- every run --------------------------------------------------------------------------------------------

  lemma FitIsFitting(p: Post, s: System, t: Tid, w: Want, i: nat)
    requires Holds(p, s, t) && i <= |p.box|
    ensures FirstFit(s, s.Queue(t), w, i) == FirstFitting(p.box, w, i)
    decreases |p.box| - i
  {
    if i < |p.box| {
      assert InBlock(p.box[i], s, s.Queue(t)[i], t);
      FitIsFitting(p, s, t, w, i + 1);
    }
  }

  ghost predicate Delivers(p: Post, s1: System, es: seq<Mail>, t: Tid) {
    match |es|
    case 0 => Holds(p, s1, t)
    case 1 => MailStep(p, es[0]).Some? && Holds(MailStep(p, es[0]).value, s1, t)
    case 2 =>
      && MailStep(p, es[0]).Some?
      && MailStep(MailStep(p, es[0]).value, es[1]).Some?
      && Holds(MailStep(MailStep(p, es[0]).value, es[1]).value, s1, t)
    case _ => false
  }

  // A receive takes the first letter that fits it.
  lemma OwnRecvDelivers(p: Post, s: System, t: Tid, w: Want, wait: Wait)
    requires Inv(s) && Holds(p, s, t) && Enabled(s, DoRecv(t, w, wait)) && Recv(s, t, w, wait).1.Done?
    ensures Delivers(p, Recv(s, t, w, wait).0, MailOf(s, DoRecv(t, w, wait), t), t)
  {
    var i := FirstFit(s, s.Queue(t), w);
    FitIsFitting(p, s, t, w, 0);
    TakeOutOk(s, t, i);
    TakeOutHolds(p, s, t, i);
    assert InBlock(p.box[i], s, s.Queue(t)[i], t);
    var e := Took(w, p.box[i].sender, p.box[i].payload);
    assert MailOf(s, DoRecv(t, w, wait), t) == [e];
    assert MailStep(p, e) == Some(TakeOut(p, i));
  }

  lemma RecvDelivers(p: Post, s: System, r: Tid, w: Want, wait: Wait, t: Tid)
    requires Inv(s) && Holds(p, s, t) && Enabled(s, DoRecv(r, w, wait))
    ensures Delivers(p, Recv(s, r, w, wait).0, MailOf(s, DoRecv(r, w, wait), t), t)
  {
    var (s1, ret) := Recv(s, r, w, wait);
    if !ret.Done? {
      QuietSelf(s, t);
      QuietHolds(p, s, s1, t);
    } else if r != t {
      QuietTakeOut(s, r, FirstFit(s, s.Queue(r), w), t);
      QuietHolds(p, s, s1, t);
    } else {
      OwnRecvDelivers(p, s, t, w, wait);
    }
  }

  lemma TakeOutHolds(p: Post, s: System, t: Tid, i: nat)
    requires Inv(s) && Holds(p, s, t) && i < |p.box| && s.Queue(t)[i] < |s.blocks|
    ensures var q := s.Queue(t);
      Holds(TakeOut(p, i), FreeBlock(s.(queues := s.queues[t := q[..i] + q[i + 1..]]), q[i]), t)
  {
    var q := s.Queue(t);
    var s1, p1 := FreeBlock(s.(queues := s.queues[t := q[..i] + q[i + 1..]]), q[i]), TakeOut(p, i);
    TakeOutIndex(p, i);
    assert Distinct(q);
    forall j | 0 <= j < |p1.box| ensures InBlock(p1.box[j], s1, s1.Queue(t)[j], t) {
      var j0 := if j < i then j else j + 1;
      assert InBlock(p.box[j0], s, q[j0], t) && s1.Queue(t)[j] == q[j0] != q[i];
    }
  }

  lemma StoreHolds(p: Post, s: System, from: Tid, t: Tid, payload: Payload)
    requires Inv(s) && s.free != [] && Holds(p, s, t)
    ensures s.free[0] < |s.blocks| && Holds(MailStep(p, Posted(from, payload)).value, Store(s, from, t, payload).0, t)
  {
    assert s.free[0] in s.free;
    var s1, p1 := Store(s, from, t, payload).0, MailStep(p, Posted(from, payload)).value;
    forall i | 0 <= i < |p1.box| ensures InBlock(p1.box[i], s1, s1.Queue(t)[i], t) {
      if i < |p.box| { assert InBlock(p.box[i], s, s.Queue(t)[i], t); }
    }
  }

  // A direct copy is a letter that comes and is taken at once, nothing before it being wanted.
  lemma DirectTakes(p: Post, s: System, from: Tid, t: Tid, payload: Payload, w: Want)
    requires Inv(s) && Holds(p, s, t) && s.Ep(t).want == Some(w) && w.Takes(from, |payload|)
    ensures var p1 := MailStep(p, Posted(from, payload)).value;
      var p2 := MailStep(p1, Took(w, from, payload)); p2.Some? && p2.value.box == p.box
  {
    var p1 := MailStep(p, Posted(from, payload)).value;
    assert EpOk(s, t);
    forall j | 0 <= j < |p.box| ensures !Fitting(p1.box[j], w) {
      assert InBlock(p.box[j], s, s.Queue(t)[j], t) && s.Queue(t)[j] in s.Queue(t);
    }
    assert p1.box[|p.box|].sender == from && Fitting(p1.box[|p.box|], w);
    assert FirstFitting(p1.box, w) == |p.box|;
    assert p1.box[..|p.box|] + p1.box[|p.box| + 1..] == p.box;
  }

  lemma SendDelivers(p: Post, s: System, from: Tid, to: Tid, payload: Payload, t: Tid)
    requires Inv(s) && Holds(p, s, t)
    ensures var op := DoSend(from, to, payload);
      Enabled(s, op) ==> Delivers(p, Send(s, from, to, payload).0, MailOf(s, op, t), t)
  {
    assert s.free != [] ==> s.free[0] in s.free;
    var (s1, ret) := Send(s, from, to, payload);
    var want := s.Ep(to).want;
    if ret != Sent {
    } else if want.Some? && want.value.Takes(from, |payload|) {
      QuietSelf(s, t);
      QuietHolds(p, s, s1, t);
      if to == t { DirectTakes(p, s, from, t, payload, want.value); }
    } else if to == t {
      StoreHolds(p, s, from, t, payload);
    } else {
      QuietStore(s, from, to, payload, t);
      QuietHolds(p, s, s1, t);
    }
  }

  lemma StepDelivers(p: Post, s: System, op: Op, t: Tid)
    requires Inv(s) && Holds(p, s, t)
    ensures Delivers(p, Step(s, op), MailOf(s, op, t), t)
  {
    if Enabled(s, op) {
      match op
      case DoSend(from, to, payload) => SendDelivers(p, s, from, to, payload, t);
      case DoRecv(r, w, wait) => RecvDelivers(p, s, r, w, wait, t);
      case DoKill(r) =>
        if r == t { KillOk(s, t); } else { QuietKill(s, r, t); QuietHolds(p, s, Step(s, op), t); }
      case _ => QuietSelf(s, t); QuietHolds(p, s, Step(s, op), t);
    }
  }

  lemma ReplayOne(es: seq<Mail>, e: Mail)
    ensures Replay(es + [e]) == if Replay(es).None? then None else MailStep(Replay(es).value, e)
  {
    assert (es + [e])[..|es + [e]| - 1] == es;
  }

  lemma ReplayTwo(es: seq<Mail>, e: Mail, f: Mail)
    ensures Replay(es + [e, f]) ==
      match Replay(es + [e]) case None => None case Some(p) => MailStep(p, f)
  {
    ReplayOne(es + [e], f);
    assert es + [e, f] == es + [e] + [f];
  }

  lemma ReplayMore(es: seq<Mail>, more: seq<Mail>, s1: System, t: Tid)
    requires Replay(es).Some? && Delivers(Replay(es).value, s1, more, t)
    ensures Replay(es + more).Some? && Holds(Replay(es + more).value, s1, t)
  {
    if |more| == 0 {
      assert es + more == es;
    } else {
      ReplayOne(es, more[0]);
      if |more| == 1 {
        assert more == [more[0]];
      } else {
        ReplayTwo(es, more[0], more[1]);
        assert more == [more[0], more[1]];
      }
    }
  }

  // Every run, with its direct copies, timeouts and deaths, is at each receiver a run of a mailbox from which
  // every receive takes the earliest letter that fits it.
  lemma {:induction false} RunRefinesMailbox(n: nat, maxBytes: nat, ops: seq<Op>, t: Tid)
    ensures var s0 := Boot(n, maxBytes);
      Replay(MailRun(s0, ops, t)).Some? && Holds(Replay(MailRun(s0, ops, t)).value, Run(s0, ops), t)
  {
    var s0 := Boot(n, maxBytes);
    if ops != [] {
      var pre, op := ops[..|ops| - 1], ops[|ops| - 1];
      RunRefinesMailbox(n, maxBytes, pre, t);
      RunOk(n, maxBytes, pre);
      StepDelivers(Replay(MailRun(s0, pre, t)).value, Run(s0, pre), op, t);
      ReplayMore(MailRun(s0, pre, t), MailOf(Run(s0, pre), op, t), Run(s0, ops), t);
    }
  }

  lemma StepDropsNot(s: System, op: Op, t: Tid)
    requires op != DoKill(t)
    ensures Dropped !in MailOf(s, op, t)
  {
  }

  lemma {:induction false} NeverDropped(s0: System, ops: seq<Op>, t: Tid)
    requires DoKill(t) !in ops
    ensures Dropped !in MailRun(s0, ops, t)
  {
    if ops != [] {
      var pre := ops[..|ops| - 1];
      assert forall op <- pre :: op in ops;
      NeverDropped(s0, pre, t);
      assert ops[|ops| - 1] in ops;
      StepDropsNot(Run(s0, pre), ops[|ops| - 1], t);
    }
  }

  // Over every run in which the receiver does not die: each message sent was received once or is queued, and
  // the messages of a sender are received out of order exactly if a receive, or a direct copy, took one past
  // an older one that was too long for it.
  lemma OutOfOrderIff(n: nat, maxBytes: nat, ops: seq<Op>, t: Tid, f: Tid)
    requires DoKill(t) !in ops
    ensures var es := MailRun(Boot(n, maxBytes), ops, t);
      && Replay(es).Some?
      && (var p := Replay(es).value;
          && Numbered(p) && |p.taken| + |p.box| == p.next
          && (OutOfOrder(p, f) <==> Overtook(es, f)))
  {
    RunRefinesMailbox(n, maxBytes, ops, t);
    NeverDropped(Boot(n, maxBytes), ops, t);
    ReplayOrder(MailRun(Boot(n, maxBytes), ops, t), f);
  }

  ghost predicate RoomyRecvs(ops: seq<Op>, t: Tid, n: nat) {
    forall op <- ops :: op.DoRecv? && op.t == t ==> op.w.room >= n
  }

  ghost predicate RoomyWant(s: System, t: Tid, n: nat) {
    s.Ep(t).want.Some? ==> s.Ep(t).want.value.room >= n
  }

  lemma StepRoomy(s: System, op: Op, t: Tid)
    requires Inv(s) && RoomyWant(s, t, s.maxBytes) && (op.DoRecv? && op.t == t ==> op.w.room >= s.maxBytes)
    ensures Step(s, op).maxBytes == s.maxBytes && RoomyWant(Step(s, op), t, s.maxBytes)
    ensures forall e <- MailOf(s, op, t) :: Roomy(e, s.maxBytes)
  {
    match op
    case DoKill(r) => KillOk(s, r); KillMax(s, r);
    case _ =>
  }

  lemma {:induction false} DrainMax(s: System, t: Tid)
    ensures Drain(s, t).maxBytes == s.maxBytes
    decreases |s.Queue(t)|
  {
    if s.Queue(t) != [] && s.Queue(t)[0] < |s.blocks| { DrainMax(TakenHead(s, t), t); }
  }

  lemma KillMax(s: System, t: Tid)
    ensures Kill(s, t).maxBytes == s.maxBytes
  {
    DrainMax(s, t);
  }

  lemma {:induction false} RunRoomy(n: nat, maxBytes: nat, ops: seq<Op>, t: Tid)
    requires RoomyRecvs(ops, t, maxBytes)
    ensures var s := Run(Boot(n, maxBytes), ops); s.maxBytes == maxBytes && RoomyWant(s, t, maxBytes)
    ensures forall e <- MailRun(Boot(n, maxBytes), ops, t) :: Roomy(e, maxBytes)
  {
    if ops != [] {
      var pre := ops[..|ops| - 1];
      assert ops[|ops| - 1] in ops && forall op <- pre :: op in ops;
      RunRoomy(n, maxBytes, pre, t);
      RunOk(n, maxBytes, pre);
      StepRoomy(Run(Boot(n, maxBytes), pre), ops[|ops| - 1], t);
    }
  }

  // A receiver whose buffers always hold the longest message gets each sender's messages in order.
  lemma RoomyBuffersKeepOrder(n: nat, maxBytes: nat, ops: seq<Op>, t: Tid, f: Tid)
    requires DoKill(t) !in ops && RoomyRecvs(ops, t, maxBytes)
    ensures var es := MailRun(Boot(n, maxBytes), ops, t); Replay(es).Some? && !OutOfOrder(Replay(es).value, f)
  {
    OutOfOrderIff(n, maxBytes, ops, t, f);
    RunRoomy(n, maxBytes, ops, t);
    RoomyIsInOrder(MailRun(Boot(n, maxBytes), ops, t), maxBytes, f);
  }

  lemma RunOn(s0: System, ops: seq<Op>, op: Op, t: Tid)
    ensures Run(s0, ops + [op]) == Step(Run(s0, ops), op)
    ensures MailRun(s0, ops + [op], t) == MailRun(s0, ops, t) + MailOf(Run(s0, ops), op, t)
  {
    assert (ops + [op])[..|ops + [op]| - 1] == ops;
  }

  // Task 0 sends two bytes and then one; task 1 has room for one byte.
  const LONG_SEND := DoSend(0, 1, [7, 7])
  const SHORT_SEND := DoSend(0, 1, [9])
  const SHORT := Want(None, 1)
  const SHORT_RECV := DoRecv(1, SHORT, NoWait)
  const LONG_LETTER := Letter(0, 0, [7, 7])
  const SHORT_LETTER := Letter(1, 0, [9])
  const READY := System(10, [Free, Free], [0, 1], map[], map[1 := NO_ENDPOINT.(init := true)])
  const LONG_QUEUED := READY.(blocks := [Used(1, 0, [7, 7]), Free], free := [1], queues := map[1 := [0]])
  const BOTH_QUEUED :=
    READY.(blocks := [Used(1, 0, [7, 7]), Used(1, 0, [9])], free := [], queues := map[1 := [0, 1]])

  lemma FirstQueued()
    ensures Step(Boot(2, 10), DoInit(1)) == READY && Step(READY, LONG_SEND) == LONG_QUEUED
    ensures MailOf(Boot(2, 10), DoInit(1), 1) == [] && MailOf(READY, LONG_SEND, 1) == [Posted(0, [7, 7])]
  {
    assert seq(2, _ => Free) == READY.blocks && seq(2, b => b) == READY.free;
    assert READY.free[1..] == [1] && READY.Queue(1) + [0] == [0];
    assert READY.blocks[0 := Used(1, 0, [7, 7])] == LONG_QUEUED.blocks;
    assert Send(READY, 0, 1, [7, 7]) == Store(READY, 0, 1, [7, 7]) == (LONG_QUEUED, Sent);
  }

  lemma SecondQueued()
    ensures Step(LONG_QUEUED, SHORT_SEND) == BOTH_QUEUED && MailOf(LONG_QUEUED, SHORT_SEND, 1) == [Posted(0, [9])]
  {
    assert LONG_QUEUED.free[1..] == [] && LONG_QUEUED.Queue(1) + [1] == [0, 1];
    assert LONG_QUEUED.blocks[1 := Used(1, 0, [9])] == BOTH_QUEUED.blocks;
    assert LONG_QUEUED.queues[1 := [0, 1]] == BOTH_QUEUED.queues;
    assert Send(LONG_QUEUED, 0, 1, [9]) == Store(LONG_QUEUED, 0, 1, [9]) == (BOTH_QUEUED, Sent);
  }

  lemma SecondReceived()
    ensures MailOf(BOTH_QUEUED, SHORT_RECV, 1) == [Took(SHORT, 0, [9])]
  {
    var q := BOTH_QUEUED.Queue(1);
    assert !BOTH_QUEUED.Fits(q[0], SHORT) && BOTH_QUEUED.Fits(q[1], SHORT);
    assert FirstFit(BOTH_QUEUED, q, SHORT, 0) == FirstFit(BOTH_QUEUED, q, SHORT, 1) == 1;
  }

  lemma TakenPast()
    ensures MailStep(Post([LONG_LETTER, SHORT_LETTER], [], 2), Took(SHORT, 0, [9]))
         == Some(Post([LONG_LETTER], [SHORT_LETTER], 2))
  {
    var box := [LONG_LETTER, SHORT_LETTER];
    assert !Fitting(box[0], SHORT) && Fitting(box[1], SHORT);
    assert FirstFitting(box, SHORT, 0) == FirstFitting(box, SHORT, 1) == 1;
    assert box[..1] + box[1 + 1..] == [LONG_LETTER] && [] + [SHORT_LETTER] == [SHORT_LETTER];
  }

  lemma MailOvertakes()
    ensures Replay([Posted(0, [7, 7]), Posted(0, [9]), Took(SHORT, 0, [9])])
         == Some(Post([LONG_LETTER], [SHORT_LETTER], 2))
  {
    var es := [Posted(0, [7, 7]), Posted(0, [9])];
    ReplayOne([], es[0]);
    ReplayOne([es[0]], es[1]);
    assert [] + [es[0]] == [es[0]] && [es[0]] + [es[1]] == es;
    assert [] + [LONG_LETTER] == [LONG_LETTER] && [LONG_LETTER] + [SHORT_LETTER] == [LONG_LETTER, SHORT_LETTER];
    assert Replay([es[0]]) == Some(Post([LONG_LETTER], [], 1));
    assert Replay(es) == Some(Post([LONG_LETTER, SHORT_LETTER], [], 2));
    assert es + [Took(SHORT, 0, [9])] == [es[0], es[1], Took(SHORT, 0, [9])];
    ReplayOne(es, Took(SHORT, 0, [9]));
    TakenPast();
  }

  lemma OvertakingMail()
    ensures MailRun(Boot(2, 10), [DoInit(1), LONG_SEND, SHORT_SEND, SHORT_RECV], 1)
         == [Posted(0, [7, 7]), Posted(0, [9]), Took(SHORT, 0, [9])]
  {
    var s0, ops := Boot(2, 10), [DoInit(1), LONG_SEND, SHORT_SEND];
    RunOn(s0, [], DoInit(1), 1);
    RunOn(s0, [DoInit(1)], LONG_SEND, 1);
    RunOn(s0, [DoInit(1), LONG_SEND], SHORT_SEND, 1);
    RunOn(s0, ops, SHORT_RECV, 1);
    assert [] + [DoInit(1)] == [DoInit(1)];
    assert [DoInit(1)] + [LONG_SEND] == [DoInit(1), LONG_SEND];
    assert [DoInit(1), LONG_SEND] + [SHORT_SEND] == ops;
    assert ops + [SHORT_RECV] == [DoInit(1), LONG_SEND, SHORT_SEND, SHORT_RECV];
    FirstQueued();
    SecondQueued();
    SecondReceived();
  }

  // With a shorter buffer they may overtake each other: the second message is received, the first stays queued.
  lemma OvertakingHappens()
    ensures var p := Replay(MailRun(Boot(2, 10), [DoInit(1), LONG_SEND, SHORT_SEND, SHORT_RECV], 1));
      p == Some(Post([LONG_LETTER], [SHORT_LETTER], 2)) && OutOfOrder(p.value, 0)
  {
    OvertakingMail();
    MailOvertakes();
    var p := Post([LONG_LETTER], [SHORT_LETTER], 2);
    assert Before(p.box[0], p.taken[0], 0);
  }

  // ---- what the calls return ------------------------------------------------------------------------------

  function Payloads(ls: seq<Letter>): (r: seq<Payload>)
    ensures |r| == |ls| && forall i :: 0 <= i < |ls| ==> r[i] == ls[i].payload
  {
    seq(|ls|, i requires 0 <= i < |ls| => ls[i].payload)
  }

  function Returned(r: Ret): seq<Payload> {
    if r.Done? then [r.payload] else []
  }

  // The payload that was copied to a suspended receive, until it runs again.
  function InHand(s: System, t: Tid): seq<Payload> {
    if s.Ep(t).result.Some? then Returned(s.Ep(t).result.value) else []
  }

  // What the receive that ends in this step returns.
  function ReturnOf(s: System, op: Op, t: Tid): seq<Payload> {
    if !Enabled(s, op) then []
    else match op
      case DoRecv(r, w, wait) => if r == t then Returned(Recv(s, t, w, wait).1) else []
      case DoResume(r) => if r == t then Returned(Resume(s, t).1) else []
      case _ => []
  }

  function Returns(s0: System, ops: seq<Op>, t: Tid): seq<Payload> {
    if ops == [] then []
    else Returns(s0, ops[..|ops| - 1], t) + ReturnOf(Run(s0, ops[..|ops| - 1]), ops[|ops| - 1], t)
  }

  function TakenOf(es: seq<Mail>): seq<Payload> {
    if es == [] then [] else TakenOf(es[..|es| - 1]) + if es[|es| - 1].Took? then [es[|es| - 1].payload] else []
  }

  lemma {:induction false} TakenAreTaken(es: seq<Mail>)
    requires Replay(es).Some?
    ensures Payloads(Replay(es).value.taken) == TakenOf(es)
  {
    if es != [] {
      var pre, e := es[..|es| - 1], es[|es| - 1];
      TakenAreTaken(pre);
      if e.Took? { TakeOutIndex(Replay(pre).value, FirstFitting(Replay(pre).value.box, e.w)); }
    }
  }

  lemma {:induction false} TakenConcat(es: seq<Mail>, more: seq<Mail>)
    ensures TakenOf(es + more) == TakenOf(es) + TakenOf(more)
    decreases |more|
  {
    if more == [] {
      assert es + more == es;
    } else {
      assert (es + more)[..|es + more| - 1] == es + more[..|more| - 1];
      TakenConcat(es, more[..|more| - 1]);
    }
  }

  lemma TakenFew(es: seq<Mail>)
    ensures |es| == 0 ==> TakenOf(es) == []
    ensures |es| == 1 ==> TakenOf(es) == if es[0].Took? then [es[0].payload] else []
    ensures |es| == 2 && es[0].Posted? && es[1].Took? ==> TakenOf(es) == [es[1].payload]
  {
    if |es| == 2 { assert es[..1][..0] == []; }
  }

  ghost predicate Accounts(s: System, s1: System, took: seq<Payload>, returned: seq<Payload>, t: Tid) {
    InHand(s, t) + took == returned + InHand(s1, t)
  }

  lemma SendReturns(s: System, from: Tid, to: Tid, payload: Payload, t: Tid)
    requires Inv(s)
    ensures var op := DoSend(from, to, payload); Accounts(s, Step(s, op), TakenOf(MailOf(s, op, t)), [], t)
  {
    TakenFew(MailOf(s, DoSend(from, to, payload), t));
    assert EpOk(s, t);
  }

  lemma RecvReturns(s: System, r: Tid, w: Want, wait: Wait, t: Tid)
    requires Inv(s)
    ensures var op := DoRecv(r, w, wait); Accounts(s, Step(s, op), TakenOf(MailOf(s, op, t)), ReturnOf(s, op, t), t)
  {
    TakenFew(MailOf(s, DoRecv(r, w, wait), t));
    assert EpOk(s, t);
  }

  lemma ResumeReturns(s: System, r: Tid, t: Tid)
    requires Inv(s) && Enabled(s, DoResume(r))
    ensures Accounts(s, Resume(s, r).0, [], ReturnOf(s, DoResume(r), t), t)
  {
    assert EpOk(s, t);
    if r == t { assert InHand(Resume(s, r).0, t) == []; } else { assert Resume(s, r).0.Ep(t) == s.Ep(t); }
  }

  lemma SameHand(s: System, s1: System, t: Tid)
    requires s1.Ep(t).result == s.Ep(t).result
    ensures Accounts(s, s1, [], [], t)
  {
  }

  // A cancelled receive had nothing in hand, and gets nothing.
  lemma KillReturns(s: System, r: Tid, t: Tid)
    requires Inv(s) && r != t
    ensures Accounts(s, Kill(s, r), [], [], t)
  {
    KillOk(s, r);
    assert EpOk(s, t);
    if WantsFrom(s.Ep(t), r) { assert InHand(s, t) == [] == InHand(Kill(s, r), t); } else { SameHand(s, Kill(s, r), t); }
  }

  lemma StepReturns(s: System, op: Op, t: Tid)
    requires Inv(s) && op != DoKill(t)
    ensures Accounts(s, Step(s, op), TakenOf(MailOf(s, op, t)), ReturnOf(s, op, t), t)
  {
    if !Enabled(s, op) {
      SameHand(s, s, t);
    } else {
      match op
      case DoInit(r) => SameHand(s, Step(s, op), t);
      case DoSend(from, to, payload) => SendReturns(s, from, to, payload, t);
      case DoRecv(r, w, wait) => RecvReturns(s, r, w, wait, t);
      case DoResume(r) => ResumeReturns(s, r, t);
      case DoTimeout(r) => SameHand(s, Step(s, op), t);
      case DoKill(r) => KillReturns(s, r, t);
    }
  }

  lemma Regroup(a: seq<Payload>, b: seq<Payload>, c: seq<Payload>)
    ensures a + (b + c) == a + b + c
  {
  }

  // Over every run in which the receiver does not die, its receives return the payloads of the letters taken
  // for it, in that order; at most one, copied to a suspended receive, is still to be returned.
  lemma EveryTakenIsReturned(n: nat, maxBytes: nat, ops: seq<Op>, t: Tid)
    requires DoKill(t) !in ops
    ensures var s0 := Boot(n, maxBytes); var p := Replay(MailRun(s0, ops, t));
      p.Some? && Payloads(p.value.taken) == Returns(s0, ops, t) + InHand(Run(s0, ops), t)
  {
    RunRefinesMailbox(n, maxBytes, ops, t);
    TakenAreTaken(MailRun(Boot(n, maxBytes), ops, t));
    TakenIsReturned(n, maxBytes, ops, t);
  }

  lemma {:induction false} TakenIsReturned(n: nat, maxBytes: nat, ops: seq<Op>, t: Tid)
    requires DoKill(t) !in ops
    ensures var s0 := Boot(n, maxBytes);
      TakenOf(MailRun(s0, ops, t)) == Returns(s0, ops, t) + InHand(Run(s0, ops), t)
  {
    var s0 := Boot(n, maxBytes);
    if ops != [] {
      var pre, op := ops[..|ops| - 1], ops[|ops| - 1];
      assert op in ops && forall o <- pre :: o in ops;
      TakenIsReturned(n, maxBytes, pre, t);
      RunOk(n, maxBytes, pre);
      var s := Run(s0, pre);
      StepReturns(s, op, t);
      TakenConcat(MailRun(s0, pre, t), MailOf(s, op, t));
      Regroup(Returns(s0, pre, t), InHand(s, t), TakenOf(MailOf(s, op, t)));
      Regroup(Returns(s0, pre, t), ReturnOf(s, op, t), InHand(Run(s0, ops), t));
    }
  }
}
