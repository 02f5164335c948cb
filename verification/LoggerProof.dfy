// What every step of the logger keeps.

module LoggerProof {
  import opened Basics
  import opened Mem
  import opened Logger

  // ---- records and their holders ------------------------------------------------------------------------

  // The records in the consumer's hands and in the queue, the next one first.
  function Carried(s: State): seq<nat> {
    (if s.consumer.Away? || s.consumer.Waiting? then [] else [s.consumer.r]) + s.queue
  }

  // Those of them whose text is still to be printed.
  function OnTheWay(s: State): seq<nat> {
    (if s.consumer.Away? || s.consumer.Waiting? || s.consumer.Shown? then [] else [s.consumer.r]) + s.queue
  }

  // A record in use is with one submitter, on its way, or leaked, never two of these and never twice.
  ghost predicate Owned(pool: Pool, carried: seq<nat>, subs: map<Tid, Sub>, leaked: set<nat>) {
    && pool.Valid() && pool.nMax == LOG_POOL_SIZE
    && Distinct(carried)
    && (forall r <- carried :: pool.Held(r) && r !in leaked)
    && (forall t <- subs :: pool.Held(subs[t].r) && subs[t].r !in carried && subs[t].r !in leaked)
    && (forall t, u :: t in subs && u in subs && t != u ==> subs[t].r != subs[u].r)
    && (forall r <- leaked :: pool.Held(r))
  }

  ghost predicate InHands(subs: map<Tid, Sub>, r: nat) {
    exists t :: t in subs && subs[t].r == r
  }

  // And every record in use is with somebody.
  ghost predicate NoneLost(pool: Pool, carried: seq<nat>, subs: map<Tid, Sub>, leaked: set<nat>) {
    forall r: nat :: pool.Held(r) ==> r in carried || InHands(subs, r) || r in leaked
  }

  ghost predicate Holders(pool: Pool, carried: seq<nat>, subs: map<Tid, Sub>, leaked: set<nat>) {
    Owned(pool, carried, subs, leaked) && NoneLost(pool, carried, subs, leaked)
  }

  lemma HoldersTake(pool: Pool, carried: seq<nat>, subs: map<Tid, Sub>, leaked: set<nat>, t: Tid, r: nat)
    requires Holders(pool, carried, subs, leaked) && t !in subs && pool.Take().1 == Some(r)
    ensures Holders(pool.Take().0, carried, subs[t := Sub(r, false)], leaked) && !pool.Held(r)
  {
    TakeKeeps(pool);
    var pool1, subs1 := pool.Take().0, subs[t := Sub(r, false)];
    forall b: nat | pool1.Held(b) && b !in carried && b !in leaked
      ensures InHands(subs1, b)
    {
      if b == r {
        assert subs1[t].r == r;
      } else {
        var u :| u in subs && subs[u].r == b;
        assert subs1[u].r == b;
      }
    }
  }

  lemma HoldersFill(pool: Pool, carried: seq<nat>, subs: map<Tid, Sub>, leaked: set<nat>, t: Tid)
    requires Holders(pool, carried, subs, leaked) && t in subs
    ensures Holders(pool, carried, subs[t := Sub(subs[t].r, true)], leaked)
  {
    var subs1 := subs[t := Sub(subs[t].r, true)];
    forall b: nat | pool.Held(b) && b !in carried && b !in leaked
      ensures InHands(subs1, b)
    {
      var u :| u in subs && subs[u].r == b;
      assert subs1[u].r == b;
    }
  }

  lemma HoldersSend(pool: Pool, carried: seq<nat>, subs: map<Tid, Sub>, leaked: set<nat>, t: Tid)
    requires Holders(pool, carried, subs, leaked) && t in subs
    ensures Holders(pool, carried + [subs[t].r], subs - {t}, leaked)
  {
    var r, carried1, subs1 := subs[t].r, carried + [subs[t].r], subs - {t};
    assert forall x :: x in carried1 <==> x in carried || x == r;
    forall b: nat | pool.Held(b) && b !in carried1 && b !in leaked
      ensures InHands(subs1, b)
    {
      var u :| u in subs && subs[u].r == b;
      assert u in subs1 && subs1[u].r == b;
    }
  }

  lemma HoldersRelease(pool: Pool, carried: seq<nat>, subs: map<Tid, Sub>, leaked: set<nat>)
    requires Holders(pool, carried, subs, leaked) && carried != []
    ensures pool.Held(carried[0]) && Holders(pool.Give(carried[0]), carried[1..], subs, leaked)
  {
    DistinctRest(carried);
    GiveKeeps(pool, carried[0]);
  }

  lemma HoldersLeak(pool: Pool, carried: seq<nat>, subs: map<Tid, Sub>, leaked: set<nat>)
    requires Holders(pool, carried, subs, leaked) && carried != []
    ensures carried[0] !in leaked && Holders(pool, carried[1..], subs, leaked + {carried[0]})
  {
    DistinctRest(carried);
  }

  // No more records are queued than are in use, and a submitter's record is in use and not queued.
  lemma QueueHasRoom(pool: Pool, carried: seq<nat>, subs: map<Tid, Sub>, leaked: set<nat>, t: Tid)
    requires Owned(pool, carried, subs, leaked) && t in subs
    ensures |carried| < LOG_POOL_SIZE
  {
    var all := carried + [subs[t].r];
    assert Distinct(all);
    CardinalityOfDistinct(all);
    SubsetSize((set x | x in all), UpTo(LOG_POOL_SIZE));
  }

  // ---- the free list in memory ----------------------------------------------------------------------------

  lemma AddrsDiffer(base: nat, a: nat, b: nat)
    requires a != b
    ensures Addr(base, a) != Addr(base, b)
  {
  }

  ghost predicate Threads(base: nat, pool: Pool, words: map<nat, nat>) {
    && base > 0 && Linked(words, Addrs(base, pool.free))
    && forall b: nat :: b < LOG_POOL_SIZE ==> Addr(base, b) in words
  }

  // Writing into a record that is no free block leaves the list alone.
  lemma ThreadsWrite(base: nat, pool: Pool, words: map<nat, nat>, r: nat, v: nat)
    requires Threads(base, pool, words) && r !in pool.free
    ensures Threads(base, pool, words[Addr(base, r) := v])
  {
    var addrs, words1 := Addrs(base, pool.free), words[Addr(base, r) := v];
    AddrsHave(base, RECORD_BYTES, pool.free, r);
    forall k | 0 <= k < |addrs| ensures LinkedAt(words1, addrs, k) { assert LinkedAt(words, addrs, k); }
  }

  lemma AddrsRest(base: nat, blocks: seq<nat>)
    requires blocks != []
    ensures Addrs(base, blocks)[1..] == Addrs(base, blocks[1..])
  {
  }

  lemma ThreadsTake(base: nat, pool: Pool, words: map<nat, nat>)
    requires Threads(base, pool, words) && pool.free != []
    ensures Threads(base, pool.Take().0, words)
  {
    var addrs, addrs1 := Addrs(base, pool.free), Addrs(base, pool.free[1..]);
    AddrsRest(base, pool.free);
    forall k | 0 <= k < |addrs1| ensures LinkedAt(words, addrs1, k) { assert LinkedAt(words, addrs, k + 1); }
  }

  lemma ThreadsGive(base: nat, pool: Pool, words: map<nat, nat>, r: nat)
    requires Threads(base, pool, words) && r !in pool.free && r < LOG_POOL_SIZE
    ensures Threads(base, pool.Give(r), words[Addr(base, r) := AddrFrom(Addrs(base, pool.free), 0)])
  {
    var addrs := Addrs(base, pool.free);
    var words1 := words[Addr(base, r) := AddrFrom(addrs, 0)];
    var addrs1 := Addrs(base, [r] + pool.free);
    AddrsRest(base, [r] + pool.free);
    assert ([r] + pool.free)[1..] == pool.free;
    ThreadsWrite(base, pool, words, r, AddrFrom(addrs, 0));
    forall k | 0 <= k < |addrs1| ensures LinkedAt(words1, addrs1, k) {
      if k > 0 { assert addrs1[k] == addrs[k - 1] && LinkedAt(words1, addrs, k - 1); }
    }
  }

  lemma {:induction false} ThreadedFrom(base: nat, n: nat)
    requires n <= LOG_POOL_SIZE
    ensures forall b: nat :: b < n ==>
      Addr(base, b) in Threaded(base, n)
      && Threaded(base, n)[Addr(base, b)] == if b + 1 < LOG_POOL_SIZE then Addr(base, b + 1) else 0
  {
    if n > 0 { ThreadedFrom(base, n - 1); }
  }

  lemma ThreadsInitial(base: nat)
    requires base > 0
    ensures Threads(base, FreshPool(LOG_POOL_SIZE), Threaded(base, LOG_POOL_SIZE))
  {
    var words, pool := Threaded(base, LOG_POOL_SIZE), FreshPool(LOG_POOL_SIZE);
    ThreadedFrom(base, LOG_POOL_SIZE);
    var addrs := Addrs(base, pool.free);
    forall k | 0 <= k < |addrs| ensures LinkedAt(words, addrs, k) {
      assert pool.free[k] == k && addrs[k] == Addr(base, k);
      if k + 1 < |addrs| { assert addrs[k + 1] == Addr(base, k + 1); }
    }
  }

  // ---- the walk -------------------------------------------------------------------------------------------

  // A record was taken and written since it was free.
  ghost predicate Written(s: State, a: nat) {
    || (exists t :: t in s.submitting && s.submitting[t].filled && Addr(s.base, s.submitting[t].r) == a)
    || (exists r :: r in s.queue && Addr(s.base, r) == a)
  }

  // The walk stands where its own list says.
  predicate OnList(w: Consumer)
    requires w.Walking?
  {
    w.at == AddrFrom(w.start, w.i)
  }

  ghost predicate LinkStands(s: State, start: seq<nat>, j: nat)
    requires j < |start|
  {
    LinkedAt(s.words, start, j) || Written(s, start[j])
  }

  // Since the walk began, blocks only left the free list, at its head, and every block of its list
  // carries its link until a submitter writes it.
  ghost predicate WalkOk(s: State) {
    s.consumer.Walking? ==>
      var w := s.consumer;
      && |s.pool.free| <= |w.start| && Addrs(s.base, s.pool.free) == w.start[|w.start| - |s.pool.free|..]
      && w.i <= |w.start| && (w.compared ==> w.i < |w.start|)
      && Addr(s.base, w.r) !in w.start
      && (forall j :: 0 <= j < |w.start| ==> w.start[j] != 0 && w.start[j] in s.words && LinkStands(s, w.start, j))
  }

  function Texts(s: State, rs: seq<nat>): (r: seq<string>)
    ensures |r| == |rs| && forall i :: 0 <= i < |rs| ==> r[i] == TextOf(s, rs[i])
  {
    seq(|rs|, i requires 0 <= i < |rs| => TextOf(s, rs[i]))
  }

  function TextsOf(outcomes: seq<Outcome>): (r: seq<string>)
    ensures |r| == |outcomes| && forall i :: 0 <= i < |outcomes| ==> r[i] == outcomes[i].text
  {
    seq(|outcomes|, i requires 0 <= i < |outcomes| => outcomes[i].text)
  }

  function Losses(outcomes: seq<Outcome>): nat {
    if outcomes == [] then 0
    else Losses(outcomes[..|outcomes| - 1]) + if outcomes[|outcomes| - 1].Lost? then 1 else 0
  }

  // What was accepted has an outcome or is on its way, in order and unchanged.
  ghost predicate InOrder(s: State) {
    s.accepted == TextsOf(s.outcomes) + Texts(s, OnTheWay(s))
  }

  ghost predicate Counts(s: State) {
    s.errSend == 0 && s.errConsume == |s.leaked| == Losses(s.outcomes) && (s.consumer.Waiting? ==> s.queue == [])
  }

  ghost predicate Inv(s: State) {
    && Holders(s.pool, Carried(s), s.submitting, s.leaked)
    && Threads(s.base, s.pool, s.words)
    && WalkOk(s) && InOrder(s) && Counts(s)
  }

  // ---- steps ------------------------------------------------------------------------------------------------

  lemma InitialOk(base: nat)
    requires base > 0
    ensures Inv(Initial(base))
  {
    ThreadsInitial(base);
    var p := FreshPool(LOG_POOL_SIZE);
    forall b: nat | b < LOG_POOL_SIZE ensures b in p.free { assert p.free[b] == b; }
  }

  // The links and the writers a walk depends on.
  lemma WalkStays(s: State, s1: State)
    requires WalkOk(s) && s1.base == s.base && s1.consumer == s.consumer && s1.words == s.words
    requires s.consumer.Walking? ==>
      && |s1.pool.free| <= |s.pool.free|
      && s1.pool.free == s.pool.free[|s.pool.free| - |s1.pool.free|..]
    requires forall a: nat :: Written(s, a) ==> Written(s1, a)
    ensures WalkOk(s1)
  {
    if s.consumer.Walking? {
      var w := s.consumer;
      var d := |s.pool.free| - |s1.pool.free|;
      AddrsDrop(s.base, s.pool.free, d);
      assert w.start[|w.start| - |s.pool.free|..][d..] == w.start[|w.start| - |s1.pool.free|..];
      forall j | 0 <= j < |w.start| ensures LinkStands(s1, w.start, j) { assert LinkStands(s, w.start, j); }
    }
  }

  lemma AddrsDrop(base: nat, blocks: seq<nat>, d: nat)
    requires d <= |blocks|
    ensures Addrs(base, blocks)[d..] == Addrs(base, blocks[d..])
  {
  }

  lemma TakeOk(s: State, t: Tid)
    requires Inv(s) && t !in s.submitting
    ensures Inv(TakeRecord(s, t))
  {
    var s1 := TakeRecord(s, t);
    if s.pool.Take().1.Some? {
      HoldersTake(s.pool, Carried(s), s.submitting, s.leaked, t, s.pool.Take().1.value);
      ThreadsTake(s.base, s.pool, s.words);
      forall a: nat | Written(s, a) ensures Written(s1, a) { WrittenStays(s, s1, a); }
      WalkStays(s, s1);
      assert OnTheWay(s1) == OnTheWay(s) && Carried(s1) == Carried(s);
      assert Texts(s1, OnTheWay(s1)) == Texts(s, OnTheWay(s));
    }
  }

  lemma WrittenStays(s: State, s1: State, a: nat)
    requires Written(s, a) && s1.base == s.base && s1.queue == s.queue
    requires forall t :: t in s.submitting && s.submitting[t].filled ==> t in s1.submitting && s1.submitting[t] == s.submitting[t]
    ensures Written(s1, a)
  {
    if t :| t in s.submitting && s.submitting[t].filled && Addr(s.base, s.submitting[t].r) == a {
      assert s1.submitting[t] == s.submitting[t];
    }
  }

  lemma FillOk(s: State, t: Tid, text: string, tick: nat)
    requires Inv(s) && t in s.submitting && !s.submitting[t].filled
    ensures Inv(FillRecord(s, t, text, tick))
  {
    var r, s1 := s.submitting[t].r, FillRecord(s, t, text, tick);
    HoldersFill(s.pool, Carried(s), s.submitting, s.leaked, t);
    ThreadsWrite(s.base, s.pool, s.words, r, tick);
    assert Carried(s1) == Carried(s) && OnTheWay(s1) == OnTheWay(s);
    assert r !in OnTheWay(s);
    assert Texts(s1, OnTheWay(s1)) == Texts(s, OnTheWay(s));
    FillWalk(s, s1, t, tick);
  }

  // The block a submitter writes now counts as written; every other link stands.
  lemma FillWalk(s: State, s1: State, t: Tid, tick: nat)
    requires WalkOk(s) && t in s.submitting && !s.submitting[t].filled
    requires s1.base == s.base && s1.pool == s.pool && s1.consumer == s.consumer && s1.queue == s.queue
    requires s1.submitting == s.submitting[t := Sub(s.submitting[t].r, true)]
    requires s1.words == s.words[Addr(s.base, s.submitting[t].r) := tick]
    ensures WalkOk(s1)
  {
    if s.consumer.Walking? {
      var w, a := s.consumer, Addr(s.base, s.submitting[t].r);
      forall j | 0 <= j < |w.start| ensures LinkStands(s1, w.start, j) {
        assert LinkStands(s, w.start, j);
        if w.start[j] == a {
          assert s1.submitting[t].filled;
        } else if Written(s, w.start[j]) {
          WrittenStays(s, s1, w.start[j]);
        }
      }
    }
  }

  lemma SendOk(s: State, t: Tid)
    requires Inv(s) && t in s.submitting && s.submitting[t].filled
    ensures Inv(SendRecord(s, t)) && |s.queue| < LOG_POOL_SIZE
  {
    QueueHasRoom(s.pool, Carried(s), s.submitting, s.leaked, t);
    SentOk(s, SendRecord(s, t), t);
  }

  lemma SentOk(s: State, s1: State, t: Tid)
    requires Inv(s) && t in s.submitting && |s.queue| < LOG_POOL_SIZE && s1 == SendRecord(s, t)
    ensures Inv(s1)
  {
    SentHands(s, s1, t);
    HoldersSend(s.pool, Carried(s), s.submitting, s.leaked, t);
    SendWalk(s, s1, t);
    SendInOrder(s, s1, s.submitting[t].r);
  }

  lemma SentHands(s: State, s1: State, t: Tid)
    requires t in s.submitting && |s.queue| < LOG_POOL_SIZE && s1 == SendRecord(s, t)
    requires s.consumer.Waiting? ==> s.queue == []
    ensures var r := s.submitting[t].r;
      && Carried(s1) == Carried(s) + [r] && OnTheWay(s1) == OnTheWay(s) + [r]
      && s1 == s.(consumer := s1.consumer, queue := s1.queue, submitting := s.submitting - {t},
                  accepted := s.accepted + [TextOf(s, r)])
  {
  }

  lemma SendWalk(s: State, s1: State, t: Tid)
    requires WalkOk(s) && t in s.submitting && |s.queue| < LOG_POOL_SIZE && s1 == SendRecord(s, t)
    ensures WalkOk(s1)
  {
    if s.consumer.Walking? {
      forall a: nat | Written(s, a) ensures Written(s1, a) { SentStaysWritten(s, s1, t, a); }
      WalkStays(s, s1);
    }
  }

  lemma SentStaysWritten(s: State, s1: State, t: Tid, a: nat)
    requires Written(s, a) && t in s.submitting && s1.base == s.base
    requires s1.submitting == s.submitting - {t} && s1.queue == s.queue + [s.submitting[t].r]
    ensures Written(s1, a)
  {
    var r := s.submitting[t].r;
    assert s1.queue[|s.queue|] == r;
    if u :| u in s.submitting && s.submitting[u].filled && Addr(s.base, s.submitting[u].r) == a {
      if u == t { assert r in s1.queue; } else { assert u in s1.submitting && s1.submitting[u] == s.submitting[u]; }
    } else {
      var q :| q in s.queue && Addr(s.base, q) == a;
      assert q in s1.queue;
    }
  }

  lemma SendInOrder(s: State, s1: State, r: nat)
    requires InOrder(s) && OnTheWay(s1) == OnTheWay(s) + [r]
    requires s1.texts == s.texts && s1.outcomes == s.outcomes && s1.accepted == s.accepted + [TextOf(s, r)]
    ensures InOrder(s1)
  {
    var way := OnTheWay(s);
    assert Texts(s1, way + [r]) == Texts(s, way) + [TextOf(s, r)];
    assert TextsOf(s.outcomes) + (Texts(s, way) + [TextOf(s, r)]) == TextsOf(s.outcomes) + Texts(s, way) + [TextOf(s, r)];
  }

  // A step that moves only the consumer, with the same record in its hands.
  lemma ConsumerOk(s: State, s1: State)
    requires Inv(s) && s1 == s.(consumer := s1.consumer, queue := s1.queue)
    requires Carried(s1) == Carried(s) && OnTheWay(s1) == OnTheWay(s)
    requires WalkOk(s1) && (s1.consumer.Waiting? ==> s1.queue == [])
    ensures Inv(s1)
  {
    assert Texts(s1, OnTheWay(s1)) == Texts(s, OnTheWay(s));
  }

  lemma ReceiveOk(s: State)
    requires Inv(s) && s.consumer.Away?
    ensures Inv(ReceiveRecord(s))
  {
    ConsumerOk(s, ReceiveRecord(s));
  }

  lemma CarriedIsHeld(s: State)
    requires Owned(s.pool, Carried(s), s.submitting, s.leaked) && !s.consumer.Away? && !s.consumer.Waiting?
    ensures s.pool.Held(s.consumer.r)
  {
    assert s.consumer.r == Carried(s)[0];
  }

  lemma CheckHands(s: State)
    requires s.consumer.Got? || s.consumer.Ready?
    ensures Carried(StartCheck(s)) == Carried(s) && OnTheWay(StartCheck(s)) == OnTheWay(s)
    ensures StartCheck(s) == s.(consumer := StartCheck(s).consumer) && OnList(StartCheck(s).consumer)
  {
  }

  lemma CheckWalk(s: State)
    requires Inv(s) && (s.consumer.Got? || s.consumer.Ready?)
    ensures WalkOk(StartCheck(s))
  {
    CarriedIsHeld(s);
    WalkBegins(s, StartCheck(s));
  }

  lemma CheckOk(s: State)
    requires Inv(s) && (s.consumer.Got? || s.consumer.Ready?)
    ensures Inv(StartCheck(s))
  {
    CheckHands(s);
    CheckWalk(s);
    ConsumerOk(s, StartCheck(s));
  }

  // A walk begins on the free list as it is, for a record that is not free.
  lemma WalkBegins(s: State, s1: State)
    requires Threads(s.base, s.pool, s.words) && (s.consumer.Got? || s.consumer.Ready?) && s.consumer.r !in s.pool.free
    requires s1 == StartCheck(s)
    ensures WalkOk(s1)
  {
    var start := Addrs(s.base, s.pool.free);
    AddrsHave(s.base, RECORD_BYTES, s.pool.free, s.consumer.r);
    assert start[0..] == start;
    ListedStands(s1, start);
  }

  lemma ListedStands(s: State, start: seq<nat>)
    requires Linked(s.words, start)
    ensures forall j :: 0 <= j < |start| ==> start[j] != 0 && start[j] in s.words && LinkStands(s, start, j)
  {
    forall j | 0 <= j < |start| ensures start[j] != 0 && start[j] in s.words && LinkStands(s, start, j) {
      assert LinkedAt(s.words, start, j);
    }
  }

  lemma TextsOfMore(outcomes: seq<Outcome>, o: Outcome)
    ensures TextsOf(outcomes + [o]) == TextsOf(outcomes) + [o.text]
    ensures Losses(outcomes + [o]) == Losses(outcomes) + if o.Lost? then 1 else 0
  {
    assert (outcomes + [o])[..|outcomes|] == outcomes;
  }

  lemma TextsHead(s: State, s1: State, rs: seq<nat>)
    requires rs != [] && s1.texts == s.texts
    ensures Texts(s, rs) == [TextOf(s, rs[0])] + Texts(s1, rs[1..])
  {
  }

  lemma Regroup(a: seq<string>, x: string, b: seq<string>)
    ensures a + ([x] + b) == a + [x] + b
  {
  }

  // The outcome of a record that leaves the way.
  lemma OutcomeInOrder(s: State, s1: State, o: Outcome)
    requires InOrder(s) && OnTheWay(s) != [] && OnTheWay(s1) == OnTheWay(s)[1..]
    requires s1.texts == s.texts && s1.accepted == s.accepted && s1.outcomes == s.outcomes + [o]
    requires o.text == TextOf(s, OnTheWay(s)[0])
    ensures InOrder(s1) && Losses(s1.outcomes) == Losses(s.outcomes) + if o.Lost? then 1 else 0
  {
    TextsHead(s, s1, OnTheWay(s));
    TextsOfMore(s.outcomes, o);
    Regroup(TextsOf(s.outcomes), o.text, Texts(s1, OnTheWay(s1)));
  }

  lemma RefuseOk(s: State)
    requires Inv(s) && s.consumer.Walking? && s.consumer.final
    ensures Inv(Conclude(s, false))
  {
    var r, s1 := s.consumer.r, Conclude(s, false);
    assert Carried(s) == [r] + s.queue && OnTheWay(s) == [r] + s.queue;
    assert Carried(s1) == Carried(s)[1..] && OnTheWay(s1) == OnTheWay(s)[1..];
    HoldersLeak(s.pool, Carried(s), s.submitting, s.leaked);
    OutcomeInOrder(s, s1, Lost(TextOf(s, r)));
  }

  lemma CompareOk(s: State)
    requires Inv(s) && s.consumer.Walking? && !s.consumer.compared
    ensures Inv(CompareBlock(s))
  {
    var w, s1 := s.consumer, CompareBlock(s);
    if w.final && w.i < |s.pool.free| && w.at != 0 && w.at == Addr(s.base, w.r) {
      RefuseOk(s);
    } else {
      if s1.consumer.Walking? {
        forall j | 0 <= j < |w.start| ensures LinkStands(s1, w.start, j) { SameLink(s, s1, w.start, j); }
      }
      ConsumerOk(s, s1);
    }
  }

  lemma SameLink(s: State, s1: State, start: seq<nat>, j: nat)
    requires j < |start| && LinkStands(s, start, j)
    requires s1.words == s.words && s1.submitting == s.submitting && s1.queue == s.queue && s1.base == s.base
    ensures LinkStands(s1, start, j)
  {
  }

  lemma FollowOk(s: State, junk: nat)
    requires Inv(s) && s.consumer.Walking? && s.consumer.compared
    ensures Inv(FollowLink(s, junk))
  {
    var w, s1 := s.consumer, FollowLink(s, junk);
    forall j | 0 <= j < |w.start| ensures LinkStands(s1, w.start, j) { SameLink(s, s1, w.start, j); }
    ConsumerOk(s, s1);
  }

  lemma PrintOk(s: State)
    requires Inv(s) && s.consumer.Passed?
    ensures Inv(PrintRecord(s))
  {
    var r, s1 := s.consumer.r, PrintRecord(s);
    assert OnTheWay(s) == [r] + s.queue;
    assert Carried(s1) == Carried(s) && OnTheWay(s1) == OnTheWay(s)[1..];
    OutcomeInOrder(s, s1, Printed(TextOf(s, r)));
  }

  lemma ReleaseOk(s: State)
    requires Inv(s) && s.consumer.Shown?
    ensures Inv(ReleaseRecord(s)) && s.pool.Held(s.consumer.r)
  {
    var r, s1 := s.consumer.r, ReleaseRecord(s);
    assert Carried(s) == [r] + s.queue;
    assert Carried(s1) == Carried(s)[1..] && OnTheWay(s1) == OnTheWay(s);
    HoldersRelease(s.pool, Carried(s), s.submitting, s.leaked);
    ThreadsGive(s.base, s.pool, s.words, r);
    assert Texts(s1, OnTheWay(s1)) == Texts(s, OnTheWay(s));
  }

  lemma StepOk(s: State, step: Step)
    requires Inv(s)
    ensures Inv(Apply(s, step))
  {
    if Enabled(s, step) {
      match step
      case Take(t) => TakeOk(s, t);
      case Fill(t, text, tick) => FillOk(s, t, text, tick);
      case Send(t) => SendOk(s, t);
      case Receive => ReceiveOk(s);
      case Check => CheckOk(s);
      case Compare => CompareOk(s);
      case Follow(junk) => FollowOk(s, junk);
      case Print => PrintOk(s);
      case Release => ReleaseOk(s);
      case SetOutput(on) =>
        forall a: nat | Written(s, a) ensures Written(Apply(s, step), a) { WrittenStays(s, Apply(s, step), a); }
        WalkStays(s, Apply(s, step));
        assert Carried(Apply(s, step)) == Carried(s) && OnTheWay(Apply(s, step)) == OnTheWay(s);
        assert Texts(Apply(s, step), OnTheWay(s)) == Texts(s, OnTheWay(s));
    }
  }

  lemma {:induction false} RunOk(base: nat, steps: seq<Step>)
    requires base > 0
    ensures Inv(Run(base, steps))
  {
    if steps == [] {
      InitialOk(base);
    } else {
      RunOk(base, steps[..|steps| - 1]);
      StepOk(Run(base, steps[..|steps| - 1]), steps[|steps| - 1]);
    }
  }
}
