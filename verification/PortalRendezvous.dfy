/** The rendezvous of portal callers with service receivers in kjvm/trunk/core/portal.c. Interrupts
    are off from one scheduling point to the next, so what lies between two of them is one step;
    any runnable thread may take the next one. Threads and services are indices. */
module PortalRendezvous {
  import opened Pointers

  datatype State = Runnable | WaitForRcv | WaitForRet | WaitForSnd

  /** inSend: blockedInDomain is set. serves: the service in whose receive loop the thread is.
      params, myparams: the parameters offered and those copied; calledBy: mostRecentlyCalledBy. */
  datatype Thread = Thread(state: State, next: int, inSend: bool, blockedIn: nat, blockedThread: int, params: int,
                           ret: int, serves: int, calledBy: int, myparams: int)

  /** first, last: firstWaitingSender and lastWaitingSender. */
  datatype Service = Service(receiver: nat, first: int, last: int)

  datatype Status = Waiting | Served(who: nat) | Replied(who: nat, value: int) | Returned(who: nat, value: int)

  datatype Call = Call(sender: nat, svc: nat, params: int, status: Status)

  /** All calls ever made, the current call of each thread, the waiting threads of each service, per
      service the calls in the order in which they were queued and in which their parameters were
      read, and where in the former the call of a waiting thread is. */
  datatype History = History(calls: seq<Call>, cur: seq<int>, queue: seq<seq<nat>>, pos: seq<nat>,
                             arrivals: seq<seq<nat>>, taken: seq<seq<nat>>)

  // ------------------------------------------------------------ what all steps keep

  ghost predicate CallOk(x: Thread, t: nat, c: Call, th: seq<Thread>, h: History)
    requires t < |h.pos|
  {
    && c.sender == t && c.svc == x.blockedIn < |h.queue|
    && match c.status
       case Waiting =>
         && x.state == WaitForRcv && x.params == c.params && x.blockedThread == NULL
         && |h.taken| == |h.queue| && |h.taken[c.svc]| <= h.pos[t] < |h.taken[c.svc]| + |h.queue[c.svc]|
         && h.queue[c.svc][h.pos[t] - |h.taken[c.svc]|] == t
       case Served(r) =>
         && x.state == WaitForRet && x.params == NULL && x.blockedThread == r < |th|
         && th[r].calledBy == t && th[r].serves == c.svc && th[r].myparams == c.params
       case Replied(r, value) => x.state == Runnable && x.params == NULL && x.blockedThread == r && x.ret == value
       case Returned(_, _) => false
  }

  ghost predicate ThreadOk(x: Thread, t: nat, th: seq<Thread>, sv: seq<Service>, h: History)
    requires t < |h.cur| == |h.pos| == |th|
  {
    && (x.inSend <==> h.cur[t] != NULL)
    && (x.inSend ==> 0 <= h.cur[t] < |h.calls| && CallOk(x, t, h.calls[h.cur[t]], th, h))
    && (!x.inSend ==> (x.state == Runnable || x.state == WaitForSnd) && x.blockedThread == NULL && x.params == NULL)
    && (x.state != WaitForRcv ==> x.next == NULL)
    && (x.serves != NULL ==> 0 <= x.serves < |sv| == |h.queue| && sv[x.serves].receiver == t)
    && (x.state == WaitForSnd ==> x.serves != NULL && h.queue[x.serves] == [] && x.calledBy == NULL)
    && (x.calledBy != NULL ==>
          && 0 <= x.calledBy < |th| && 0 <= h.cur[x.calledBy] < |h.calls|
          && h.calls[h.cur[x.calledBy]].status == Served(t))
  }

  ghost predicate QueueOk(s: nat, x: Service, th: seq<Thread>, h: History)
    requires s < |h.queue| == |h.taken| && |h.pos| == |th|
  {
    && x.first == At(h.queue[s], 0) && x.last == At(h.queue[s], |h.queue[s]| - 1)
    && x.receiver < |th| && th[x.receiver].serves == s
    && (forall p :: 0 <= p < |h.queue[s]| ==>
          h.queue[s][p] < |th| && Queued(th[h.queue[s][p]], h.queue[s], s, p)
          && h.pos[h.queue[s][p]] == |h.taken[s]| + p)
  }

  ghost predicate Queued(x: Thread, q: seq<nat>, s: nat, p: nat) {
    x.state == WaitForRcv && x.inSend && x.blockedIn == s && x.next == At(q, p + 1)
  }

  /** Calls are queued in the order of their numbers, and read in the order in which they were queued. */
  ghost predicate OrderOk(s: nat, h: History)
    requires s < |h.arrivals| == |h.taken| == |h.queue|
  {
    && ArrivalsOk(h.arrivals[s], h.calls, s) && Pending(h.queue[s], h.cur, h.arrivals[s], |h.taken[s]|)
    && h.taken[s] <= h.arrivals[s] && AllTaken(h.taken[s], h.calls)
  }

  /** Every call of the service has arrived, once, and they have in the order of their numbers. */
  ghost predicate ArrivalsOk(a: seq<nat>, calls: seq<Call>, s: nat) {
    && (forall i, j :: 0 <= i < j < |a| ==> a[i] < a[j])
    && (forall i :: 0 <= i < |a| ==> a[i] < |calls| && calls[a[i]].svc == s)
    && (forall c :: 0 <= c < |calls| && calls[c].svc == s ==> c in a)
  }

  /** The waiting threads are those of the calls that were queued and not yet taken, in that order. */
  ghost predicate Pending(q: seq<nat>, cur: seq<int>, arrivals: seq<nat>, n: nat) {
    |arrivals| == n + |q| && forall p :: 0 <= p < |q| ==> q[p] < |cur| && cur[q[p]] == arrivals[n + p]
  }

  ghost predicate AllTaken(taken: seq<nat>, calls: seq<Call>) {
    forall i :: 0 <= i < |taken| ==> taken[i] < |calls| && calls[taken[i]].status != Waiting
  }

  ghost predicate Sized(th: seq<Thread>, sv: seq<Service>, h: History) {
    && |h.cur| == |h.pos| == |th| && |h.queue| == |h.arrivals| == |h.taken| == |sv|
  }

  ghost predicate Inv(th: seq<Thread>, sv: seq<Service>, h: History) {
    && Sized(th, sv, h)
    && (forall t :: 0 <= t < |th| ==> ThreadOk(th[t], t, th, sv, h))
    && (forall s :: 0 <= s < |sv| ==> QueueOk(s, sv[s], th, h) && OrderOk(s, h))
  }

  // ------------------------------------------------------------ what the invariant says

  /** A thread is called back by exactly the receiver that it is blocked in. */
  lemma MutualInverses(th: seq<Thread>, sv: seq<Service>, h: History, r: nat, t: nat)
    requires Inv(th, sv, h) && r < |th| && t < |th|
    ensures th[r].calledBy == t <==> th[t].state == WaitForRet && th[t].blockedThread == r
  {
    assert ThreadOk(th[r], r, th, sv, h) && ThreadOk(th[t], t, th, sv, h);
    hide QueueOk, OrderOk;
  }

  /** No sender is served by two receivers, and none waits twice. */
  lemma ServedAndQueuedOnce(th: seq<Thread>, sv: seq<Service>, h: History, t: nat)
    requires Inv(th, sv, h) && t < |th|
    ensures forall r, r' :: 0 <= r < |th| && 0 <= r' < |th| && th[r].calledBy == t && th[r'].calledBy == t ==> r == r'
    ensures forall s, s', p, p' ::
              (0 <= s < |sv| && 0 <= s' < |sv| && 0 <= p < |h.queue[s]| && 0 <= p' < |h.queue[s']|
               && h.queue[s][p] == t && h.queue[s'][p'] == t) ==> s == s' && p == p'
    ensures forall r, s, p :: 0 <= r < |th| && 0 <= s < |sv| && 0 <= p < |h.queue[s]| ==>
              !(th[r].calledBy == t && h.queue[s][p] == t)
  {
    forall r | 0 <= r < |th| && th[r].calledBy == t ensures th[t].state == WaitForRet && th[t].blockedThread == r {
      MutualInverses(th, sv, h, r, t);
    }
    forall s, p | 0 <= s < |sv| && 0 <= p < |h.queue[s]| && h.queue[s][p] == t
      ensures th[t].state == WaitForRcv && th[t].blockedIn == s && h.pos[t] == |h.taken[s]| + p
    {
      assert QueueOk(s, sv[s], th, h);
    }
    hide QueueOk, OrderOk, ThreadOk;
  }

  /** No receiver sleeps while a sender waits for it. */
  lemma NoReceiverSleepsInVain(th: seq<Thread>, sv: seq<Service>, h: History, s: nat)
    requires Inv(th, sv, h) && s < |sv|
    ensures sv[s].receiver < |th| && (th[sv[s].receiver].state == WaitForSnd ==>
            sv[s].first == NULL && h.queue[s] == [])
  {
    assert QueueOk(s, sv[s], th, h);
    assert ThreadOk(th[sv[s].receiver], sv[s].receiver, th, sv, h);
    hide OrderOk;
  }

  /** Parameters are read in the order in which the calls were made, of every call once, and no call
      is passed over. */
  lemma ReadInArrivalOrder(th: seq<Thread>, sv: seq<Service>, h: History, s: nat, i: nat, j: nat)
    requires Inv(th, sv, h) && s < |sv| && i < j < |h.taken[s]|
    ensures h.taken[s][i] < h.taken[s][j] < |h.calls|
    ensures forall c :: 0 <= c < |h.calls| && h.calls[c].svc == s && c < h.taken[s][j] ==> c in h.taken[s]
  {
    assert OrderOk(s, h);
    hide QueueOk, ThreadOk, OrderOk;
    ReadsAreFirst(h, s, j);
    assert h.taken[s][i] == h.arrivals[s][i] by { ReadsAreFirst(h, s, i); }
    assert OrderOk(s, h);
  }

  lemma ReadsAreFirst(h: History, s: nat, j: nat)
    requires s < |h.arrivals| == |h.taken| == |h.queue| && OrderOk(s, h) && j < |h.taken[s]|
    ensures |h.taken[s]| <= |h.arrivals[s]| && h.taken[s][j] == h.arrivals[s][j]
    ensures forall k :: j < k < |h.arrivals[s]| ==> h.arrivals[s][j] < h.arrivals[s][k]
    ensures forall c :: c in h.arrivals[s] && c < h.arrivals[s][j] ==> c in h.taken[s]
    ensures forall k :: 0 <= k < j ==> h.arrivals[s][k] < h.arrivals[s][j]
    ensures h.arrivals[s][j] < |h.calls|
  {
    forall c | c in h.arrivals[s] && c < h.arrivals[s][j] ensures c in h.taken[s] {
      var k :| 0 <= k < |h.arrivals[s]| && h.arrivals[s][k] == c;
      assert k < j;
      assert h.taken[s][k] == c;
    }
  }

  // ------------------------------------------------------------ a call is queued

  ghost function SendHistory(h: History, t: nat, s: nat, params: int): History
    requires t < |h.cur| == |h.pos| && s < |h.queue| == |h.arrivals| == |h.taken|
  {
    h.(calls := h.calls + [Call(t, s, params, Waiting)], cur := h.cur[t := |h.calls|],
       queue := h.queue[s := h.queue[s] + [t]], pos := h.pos[t := |h.arrivals[s]|],
       arrivals := h.arrivals[s := h.arrivals[s] + [|h.calls|]])
  }

  /** The threads after t was queued as a sender for s and the receiver r, if it slept, was woken. */
  ghost predicate SentThreads(th: seq<Thread>, th': seq<Thread>, sv: seq<Service>, t: nat, s: nat, params: int)
    requires t < |th| && s < |sv|
  {
    var last, r := sv[s].last, sv[s].receiver;
    && |th'| == |th|
    && th'[t] == th[t].(state := WaitForRcv, next := NULL, inSend := true, blockedIn := s, params := params)
    && (forall u :: 0 <= u < |th| && u != t ==>
          th'[u] == th[u].(next := if u == last then t else th[u].next,
                           state := if u == r && th[u].state == WaitForSnd then Runnable else th[u].state))
  }

  ghost predicate SentServices(sv: seq<Service>, sv': seq<Service>, t: nat, s: nat)
    requires s < |sv|
  {
    sv' == sv[s := sv[s].(first := if sv[s].last == NULL then t else sv[s].first, last := t)]
  }

  lemma SendThread(th: seq<Thread>, sv: seq<Service>, h: History, t: nat, s: nat, params: int,
                   th': seq<Thread>, sv': seq<Service>, h': History, u: nat)
    requires Sized(th, sv, h) && t < |th| && s < |sv| && u < |th| && !th[t].inSend && th[t].state == Runnable
    requires ThreadOk(th[u], u, th, sv, h) && (u == sv[s].last ==> th[u].state == WaitForRcv)
    requires ThreadOk(th[t], t, th, sv, h) && OrderOk(s, h)
    requires th[u].state == WaitForSnd && th[u].serves == s ==> u == sv[s].receiver
    requires SentThreads(th, th', sv, t, s, params) && SentServices(sv, sv', t, s) && h' == SendHistory(h, t, s, params)
    ensures ThreadOk(th'[u], u, th', sv', h')
  {
  }

  lemma SendQueue(th: seq<Thread>, sv: seq<Service>, h: History, t: nat, s: nat, params: int,
                  th': seq<Thread>, sv': seq<Service>, h': History, k: nat)
    requires Sized(th, sv, h) && t < |th| && s < |sv| && k < |sv| && th[t].state == Runnable
    requires QueueOk(s, sv[s], th, h) && QueueOk(k, sv[k], th, h) && OrderOk(s, h)
    requires SentThreads(th, th', sv, t, s, params) && SentServices(sv, sv', t, s) && h' == SendHistory(h, t, s, params)
    ensures QueueOk(k, sv'[k], th', h')
  {
    var q, q' := h.queue[k], h'.queue[k];
    if h.queue[s] != [] {
      assert Queued(th[h.queue[s][|h.queue[s]| - 1]], h.queue[s], s, |h.queue[s]| - 1);
    }
    forall p | 0 <= p < |q|
      ensures q[p] < |th'| && Queued(th'[q[p]], q', k, p) && h'.pos[q[p]] == |h.taken[k]| + p
    {
      assert Queued(th[q[p]], q, k, p) && q[p] != t;
      if k == s {
        assert q[p] == sv[s].last <==> p == |q| - 1;
      }
    }
    hide OrderOk;
  }

  lemma ArrivalsMore(a: seq<nat>, calls: seq<Call>, s: nat, c: Call)
    requires ArrivalsOk(a, calls, s)
    ensures ArrivalsOk(if c.svc == s then a + [|calls|] else a, calls + [c], s)
  {
    var a' := if c.svc == s then a + [|calls|] else a;
    forall k | 0 <= k < |calls + [c]| && (calls + [c])[k].svc == s ensures k in a' {
      if k == |calls| { assert a'[|a|] == k; }
    }
  }

  lemma TakenMore(taken: seq<nat>, calls: seq<Call>, c: Call)
    requires AllTaken(taken, calls)
    ensures AllTaken(taken, calls + [c])
  {
  }

  lemma SendOrder(th: seq<Thread>, sv: seq<Service>, h: History, t: nat, s: nat, params: int, h': History, k: nat)
    requires Sized(th, sv, h) && t < |th| && s < |sv| && k < |sv| && h' == SendHistory(h, t, s, params)
    requires OrderOk(k, h) && QueueOk(k, sv[k], th, h) && th[t].state == Runnable
    ensures OrderOk(k, h')
  {
    hide AllTaken, ArrivalsOk;
    ArrivalsMore(h.arrivals[k], h.calls, k, Call(t, s, params, Waiting));
    TakenMore(h.taken[k], h.calls, Call(t, s, params, Waiting));
    assert t !in h.queue[k];
    hide QueueOk;
    assert Pending(h'.queue[k], h'.cur, h'.arrivals[k], |h.taken[k]|);
    hide Pending;
  }

  lemma SendKeeps(th: seq<Thread>, sv: seq<Service>, h: History, t: nat, s: nat, params: int,
                  th': seq<Thread>, sv': seq<Service>, h': History)
    requires Inv(th, sv, h) && t < |th| && s < |sv| && !th[t].inSend && th[t].state == Runnable
    requires SentThreads(th, th', sv, t, s, params) && SentServices(sv, sv', t, s)
    requires h' == SendHistory(h, t, s, params)
    ensures Inv(th', sv', h')
  {
    hide ThreadOk, OrderOk, SentThreads;
    assert |th'| == |th| by { SentSize(th, th', sv, t, s, params); }
    assert sv[s].last != NULL ==> 0 <= sv[s].last < |th| && th[sv[s].last].state == WaitForRcv by {
      assert QueueOk(s, sv[s], th, h);
    }
    hide QueueOk, SendHistory, SentServices;
    SentSizes(sv, sv', h, t, s, params);
    forall u | 0 <= u < |th| ensures ThreadOk(th'[u], u, th', sv', h') {
      assert th[u].state == WaitForSnd && th[u].serves == s ==> u == sv[s].receiver by {
        Receives(th, sv, h, u);
      }
      SendThread(th, sv, h, t, s, params, th', sv', h', u);
    }
    forall k | 0 <= k < |sv| ensures QueueOk(k, sv'[k], th', h') && OrderOk(k, h') {
      SendQueue(th, sv, h, t, s, params, th', sv', h', k);
      SendOrder(th, sv, h, t, s, params, h', k);
    }
  }

  lemma SentSize(th: seq<Thread>, th': seq<Thread>, sv: seq<Service>, t: nat, s: nat, params: int)
    requires t < |th| && s < |sv| && SentThreads(th, th', sv, t, s, params)
    ensures |th'| == |th|
  {
  }

  lemma SentSizes(sv: seq<Service>, sv': seq<Service>, h: History, t: nat, s: nat, params: int)
    requires t < |h.cur| == |h.pos| && s < |h.queue| == |h.arrivals| == |h.taken| == |sv| && SentServices(sv, sv', t, s)
    ensures |sv'| == |sv|
    ensures var h' := SendHistory(h, t, s, params);
            |h'.cur| == |h'.pos| == |h.cur| && |h'.queue| == |h'.arrivals| == |h'.taken| == |h.queue|
  {
  }

  lemma Receives(th: seq<Thread>, sv: seq<Service>, h: History, u: nat)
    requires Sized(th, sv, h) && u < |th| && ThreadOk(th[u], u, th, sv, h)
    ensures th[u].serves != NULL ==> 0 <= th[u].serves < |sv| && sv[th[u].serves].receiver == u
  {
  }

  // ------------------------------------------------------------ a call is taken

  ghost function TakeHistory(h: History, s: nat, r: nat, c: nat): History
    requires s < |h.queue| == |h.taken| && |h.queue[s]| > 0 && c < |h.calls|
  {
    h.(calls := h.calls[c := h.calls[c].(status := Served(r))], queue := h.queue[s := h.queue[s][1..]],
       taken := h.taken[s := h.taken[s] + [c]])
  }

  ghost predicate TakenThreads(th: seq<Thread>, th': seq<Thread>, r: nat, t: nat)
    requires r < |th| && t < |th|
  {
    && |th'| == |th| && r != t
    && th'[t] == th[t].(state := WaitForRet, next := NULL, params := NULL, blockedThread := r)
    && th'[r] == th[r].(calledBy := t, myparams := th[t].params)
    && (forall u :: 0 <= u < |th| && u != t && u != r ==> th'[u] == th[u])
  }

  ghost predicate TakenServices(sv: seq<Service>, sv': seq<Service>, s: nat, next: int)
    requires s < |sv|
  {
    sv' == sv[s := sv[s].(first := next, last := if next == NULL then NULL else sv[s].last)]
  }

  /** Receiver r of service s takes the first waiting thread t, whose call is c. */
  ghost predicate Takes(th: seq<Thread>, sv: seq<Service>, h: History, s: nat, r: nat, t: nat, c: nat) {
    && Sized(th, sv, h) && s < |sv| && r < |th| && t < |th| && th[r].serves == s && th[r].state == Runnable
    && !th[r].inSend && th[r].calledBy == NULL && |h.queue[s]| > 0 && h.queue[s][0] == t && h.cur[t] == c < |h.calls|
  }

  lemma TakeThread(th: seq<Thread>, sv: seq<Service>, h: History, s: nat, r: nat, t: nat, c: nat,
                   th': seq<Thread>, sv': seq<Service>, h': History, u: nat)
    requires Takes(th, sv, h, s, r, t, c) && u < |th| && h' == TakeHistory(h, s, r, c)
    requires ThreadOk(th[u], u, th, sv, h) && ThreadOk(th[t], t, th, sv, h) && th[t].state == WaitForRcv
             && th[t].blockedIn == s
    requires h.pos[t] == |h.taken[s]| && (u != t && th[u].state == WaitForRcv && th[u].blockedIn == s ==>
             h.pos[u] > |h.taken[s]|)
    requires th[u].state == WaitForSnd ==> th[u].serves != s
    requires TakenThreads(th, th', r, t) && TakenServices(sv, sv', s, th[t].next)
    ensures ThreadOk(th'[u], u, th', sv', h')
  {
    if u != t && u != r {
      TakeOther(th, sv, h, s, r, t, c, th', sv', h', u);
    }
  }

  lemma TakeOther(th: seq<Thread>, sv: seq<Service>, h: History, s: nat, r: nat, t: nat, c: nat,
                  th': seq<Thread>, sv': seq<Service>, h': History, u: nat)
    requires Takes(th, sv, h, s, r, t, c) && u < |th| && u != t && u != r && h' == TakeHistory(h, s, r, c)
    requires ThreadOk(th[u], u, th, sv, h) && ThreadOk(th[t], t, th, sv, h) && th[t].state == WaitForRcv
    requires th[u].state == WaitForRcv && th[u].blockedIn == s ==> h.pos[u] > |h.taken[s]|
    requires th[u].state == WaitForSnd ==> th[u].serves != s
    requires TakenThreads(th, th', r, t) && TakenServices(sv, sv', s, th[t].next)
    ensures ThreadOk(th'[u], u, th', sv', h')
  {
  }

  lemma TakeQueue(th: seq<Thread>, sv: seq<Service>, h: History, s: nat, r: nat, t: nat, c: nat,
                  th': seq<Thread>, sv': seq<Service>, h': History, k: nat)
    requires Takes(th, sv, h, s, r, t, c) && k < |sv| && h' == TakeHistory(h, s, r, c)
    requires QueueOk(s, sv[s], th, h) && QueueOk(k, sv[k], th, h)
    requires TakenThreads(th, th', r, t) && TakenServices(sv, sv', s, th[t].next)
    ensures QueueOk(k, sv'[k], th', h')
  {
    if k == s {
      var q := h.queue[s];
      assert Queued(th[q[0]], q, s, 0);
      assert forall p :: 0 <= p < |q[1..]| ==> q[1..][p] == q[p + 1];
    }
  }

  lemma TakeOrder(th: seq<Thread>, sv: seq<Service>, h: History, s: nat, r: nat, t: nat, c: nat, h': History, k: nat)
    requires Takes(th, sv, h, s, r, t, c) && k < |sv| && h' == TakeHistory(h, s, r, c) && OrderOk(k, h)
    ensures OrderOk(k, h')
  {
    assert ArrivalsOk(h.arrivals[k], h'.calls, k);
    assert AllTaken(h'.taken[k], h'.calls);
    assert Pending(h'.queue[k], h'.cur, h'.arrivals[k], |h'.taken[k]|);
    assert h'.taken[k] <= h'.arrivals[k];
    hide ArrivalsOk, AllTaken, Pending;
  }

  lemma TakeKeeps(th: seq<Thread>, sv: seq<Service>, h: History, s: nat, r: nat, t: nat, c: nat,
                  th': seq<Thread>, sv': seq<Service>, h': History)
    requires Inv(th, sv, h) && Takes(th, sv, h, s, r, t, c) && h' == TakeHistory(h, s, r, c)
    requires TakenThreads(th, th', r, t) && TakenServices(sv, sv', s, th[t].next)
    ensures Inv(th', sv', h')
  {
    assert |th'| == |th| && |sv'| == |sv|;
    hide OrderOk, TakenThreads, TakenServices;
    forall u | 0 <= u < |th| ensures ThreadOk(th'[u], u, th', sv', h') {
      WaitsBehind(th, sv, h, s, t, u);
      Receives(th, sv, h, u);
      TakeThread(th, sv, h, s, r, t, c, th', sv', h', u);
    }
    hide ThreadOk;
    forall k | 0 <= k < |sv| ensures QueueOk(k, sv'[k], th', h') && OrderOk(k, h') {
      TakeQueue(th, sv, h, s, r, t, c, th', sv', h', k);
      TakeOrder(th, sv, h, s, r, t, c, h', k);
    }
    hide QueueOk;
  }

  /** The other senders for a service wait behind the first one. */
  lemma WaitsBehind(th: seq<Thread>, sv: seq<Service>, h: History, s: nat, t: nat, u: nat)
    requires Inv(th, sv, h) && s < |sv| && u < |th| && |h.queue[s]| > 0 && h.queue[s][0] == t
    ensures t < |th| && th[t].state == WaitForRcv && th[t].inSend && th[t].blockedIn == s && h.pos[t] == |h.taken[s]|
    ensures 0 <= h.cur[t] < |h.calls| && h.calls[h.cur[t]].sender == t && h.calls[h.cur[t]].params == th[t].params
    ensures u != t && th[u].state == WaitForRcv && th[u].blockedIn == s ==> h.pos[u] > |h.taken[s]|
    ensures th[u].state == WaitForSnd ==> th[u].serves != s
  {
    assert QueueOk(s, sv[s], th, h);
    assert ThreadOk(th[u], u, th, sv, h) && ThreadOk(th[t], t, th, sv, h);
    hide OrderOk;
  }

  // ------------------------------------------------------------ a receiver goes to sleep

  lemma SleepKeeps(th: seq<Thread>, sv: seq<Service>, h: History, s: nat, r: nat, th': seq<Thread>)
    requires Inv(th, sv, h) && r < |th| && s < |sv| && th[r].serves == s && h.queue[s] == []
    requires th[r].state == Runnable && !th[r].inSend && th[r].calledBy == NULL
    requires th' == th[r := th[r].(state := WaitForSnd)]
    ensures Inv(th', sv, h)
  {
    hide OrderOk;
    forall u | 0 <= u < |th| ensures ThreadOk(th'[u], u, th', sv, h) {
      assert ThreadOk(th[u], u, th, sv, h);
    }
    hide ThreadOk;
    forall k | 0 <= k < |sv| ensures QueueOk(k, sv[k], th', h) {
      assert QueueOk(k, sv[k], th, h);
    }
  }

  // ------------------------------------------------------------ a reply, and the return of a call

  /** The calls after the current one of thread t got a new status. */
  ghost function Restatus(h: History, t: nat, status: Status, cur: int): History
    requires t < |h.cur| && 0 <= h.cur[t] < |h.calls|
  {
    h.(calls := h.calls[h.cur[t] := h.calls[h.cur[t]].(status := status)], cur := h.cur[t := cur])
  }

  lemma RestatusOrder(th: seq<Thread>, sv: seq<Service>, h: History, t: nat, status: Status, cur: int, h': History,
                      k: nat)
    requires Sized(th, sv, h) && t < |th| && k < |sv| && 0 <= h.cur[t] < |h.calls| && status != Waiting
    requires OrderOk(k, h) && QueueOk(k, sv[k], th, h) && th[t].state != WaitForRcv && h' == Restatus(h, t, status, cur)
    ensures OrderOk(k, h')
  {
    assert t !in h.queue[k];
    assert ArrivalsOk(h.arrivals[k], h'.calls, k);
    assert AllTaken(h'.taken[k], h'.calls);
    assert Pending(h'.queue[k], h'.cur, h'.arrivals[k], |h'.taken[k]|);
    hide ArrivalsOk, AllTaken, Pending, QueueOk;
  }

  ghost predicate RepliedThreads(th: seq<Thread>, th': seq<Thread>, r: nat, t: nat, value: int)
    requires r < |th| && t < |th|
  {
    && r != t && th' == th[t := th[t].(ret := value, state := Runnable)][r := th[r].(calledBy := NULL)]
  }

  lemma ReplyThread(th: seq<Thread>, sv: seq<Service>, h: History, r: nat, t: nat, value: int,
                    th': seq<Thread>, h': History, u: nat)
    requires Sized(th, sv, h) && r < |th| && t < |th| && u < |th| && th[r].calledBy == t && th[r].state == Runnable
    requires ThreadOk(th[r], r, th, sv, h) && ThreadOk(th[t], t, th, sv, h) && ThreadOk(th[u], u, th, sv, h)
    requires RepliedThreads(th, th', r, t, value) && 0 <= h.cur[t] < |h.calls|
    requires h' == Restatus(h, t, Replied(r, value), h.cur[t])
    ensures ThreadOk(th'[u], u, th', sv, h')
  {
  }

  lemma ReplyKeeps(th: seq<Thread>, sv: seq<Service>, h: History, r: nat, t: nat, value: int, th': seq<Thread>,
                   h': History)
    requires Inv(th, sv, h) && r < |th| && t < |th| && th[r].calledBy == t && th[r].state == Runnable
    requires 0 <= h.cur[t] < |h.calls| && RepliedThreads(th, th', r, t, value)
    requires h' == Restatus(h, t, Replied(r, value), h.cur[t])
    ensures Inv(th', sv, h')
  {
    MutualInverses(th, sv, h, r, t);
    assert |th'| == |th|;
    hide OrderOk, RepliedThreads, QueueOk;
    forall u | 0 <= u < |th| ensures ThreadOk(th'[u], u, th', sv, h') {
      ReplyThread(th, sv, h, r, t, value, th', h', u);
    }
    hide ThreadOk;
    forall k | 0 <= k < |sv| ensures QueueOk(k, sv[k], th', h') && OrderOk(k, h') {
      ReplyQueue(th, sv, h, r, t, value, th', h', k);
      RestatusOrder(th, sv, h, t, Replied(r, value), h.cur[t], h', k);
    }
  }

  lemma ReplyQueue(th: seq<Thread>, sv: seq<Service>, h: History, r: nat, t: nat, value: int, th': seq<Thread>,
                   h': History, k: nat)
    requires Sized(th, sv, h) && r < |th| && t < |th| && k < |sv| && th[r].state == Runnable
             && th[t].state == WaitForRet
    requires QueueOk(k, sv[k], th, h) && RepliedThreads(th, th', r, t, value) && 0 <= h.cur[t] < |h.calls|
    requires h' == Restatus(h, t, Replied(r, value), h.cur[t])
    ensures QueueOk(k, sv[k], th', h')
  {
  }

  ghost predicate ReturnedThreads(th: seq<Thread>, th': seq<Thread>, t: nat)
    requires t < |th|
  {
    th' == th[t := th[t].(inSend := false, blockedIn := 0, blockedThread := NULL, params := NULL)]
  }

  lemma ReturnKeeps(th: seq<Thread>, sv: seq<Service>, h: History, t: nat, status: Status, th': seq<Thread>,
                    h': History)
    requires Inv(th, sv, h) && t < |th| && th[t].inSend && th[t].state == Runnable && 0 <= h.cur[t] < |h.calls|
    requires ReturnedThreads(th, th', t) && status.Returned? && h' == Restatus(h, t, status, NULL)
    ensures Inv(th', sv, h')
  {
    hide OrderOk;
    assert ThreadOk(th[t], t, th, sv, h);
    forall u | 0 <= u < |th| ensures ThreadOk(th'[u], u, th', sv, h') {
      assert ThreadOk(th[u], u, th, sv, h);
    }
    hide ThreadOk;
    forall k | 0 <= k < |sv| ensures QueueOk(k, sv[k], th', h') && OrderOk(k, h') {
      assert QueueOk(k, sv[k], th, h);
      RestatusOrder(th, sv, h, t, status, NULL, h', k);
    }
  }

  // ------------------------------------------------------------ the steps

  /** Refused: the target domain is gone or inactive, or its service is being changed. */
  datatype Sent = Refused | Blocked | HandedOff

  class Rendezvous {
    var threads: seq<Thread>
    var services: seq<Service>
    ghost var h: History

    ghost predicate Valid()
      reads this
    {
      Inv(threads, services, h)
    }

    /** n threads, and for each service the thread that is about to enter its receive loop. */
    constructor (n: nat, receivers: seq<nat>)
      requires forall s :: 0 <= s < |receivers| ==> receivers[s] < n
      requires forall s, k :: 0 <= s < k < |receivers| ==> receivers[s] != receivers[k]
      ensures Valid() && |threads| == n && |services| == |receivers| && h.calls == []
      ensures forall t :: 0 <= t < n ==>
                threads[t].state == Runnable && !threads[t].inSend && threads[t].calledBy == NULL
      ensures forall s :: 0 <= s < |receivers| ==>
                services[s].receiver == receivers[s] && threads[receivers[s]].serves == s
    {
      var th := seq(n, _ => Thread(Runnable, NULL, false, 0, NULL, NULL, 0, NULL, NULL, NULL));
      var sv := seq(|receivers|, s requires 0 <= s < |receivers| => Service(receivers[s], NULL, NULL));
      var s := 0;
      while s < |receivers|
        invariant 0 <= s <= |receivers| && |th| == n
        invariant forall t :: 0 <= t < n ==> th[t] == Thread(Runnable, NULL, false, 0, NULL, NULL, 0, th[t].serves,
                    NULL, NULL)
        invariant forall t :: 0 <= t < n && th[t].serves != NULL ==>
                    0 <= th[t].serves < s && receivers[th[t].serves] == t
        invariant forall k :: 0 <= k < s ==> th[receivers[k]].serves == k
      {
        th := th[receivers[s] := th[receivers[s]].(serves := s)];
        s := s + 1;
      }
      threads, services := th, sv;
      h := History([], seq(n, _ => NULL), seq(|receivers|, _ => []), seq(n, _ => 0), seq(|receivers|, _ => []),
                   seq(|receivers|, _ => []));
    }

    /** portal_add_sender */
    method AddSender(s: nat, t: nat)
      requires s < |services| && t < |threads| && NULL <= services[s].last < |threads| && services[s].last != t
      modifies this`threads, this`services
      ensures |threads| == |old(threads)| && threads[t] == old(threads[t]).(next := NULL)
      ensures forall u :: 0 <= u < |threads| && u != t ==>
                threads[u] == old(threads)[u].(next := if u == old(services[s].last) then t else old(threads)[u].next)
      ensures SentServices(old(services), services, t, s)
    {
      threads := threads[t := threads[t].(next := NULL)];
      if services[s].last == NULL {
        services := services[s := services[s].(last := t, first := t)];
      } else {
        threads := threads[services[s].last := threads[services[s].last].(next := t)];
        services := services[s := services[s].(last := t)];
      }
    }

    /** portal_dequeue_sender */
    method DequeueSender(s: nat) returns (t: int)
      requires s < |services| && NULL <= services[s].first < |threads|
      modifies this`threads, this`services
      ensures t == old(services[s].first)
      ensures t == NULL ==> threads == old(threads) && services == old(services)
      ensures t != NULL ==>
                && threads == old(threads)[t := old(threads[t]).(next := NULL)]
                && TakenServices(old(services), services, s, old(threads)[t].next)
    {
      t := services[s].first;
      if t == NULL {
        return;
      }
      services := services[s := services[s].(first := threads[t].next)];
      if services[s].first == NULL {
        services := services[s := services[s].(last := NULL)];
      }
      threads := threads[t := threads[t].(next := NULL)];
    }

    /** send_portalcall of thread t to another domain, up to where it blocks: the call is queued, and
        a receiver that sleeps is woken. */
    method Send(t: nat, s: nat, params: int, active: bool) returns (r: Sent)
      requires Valid() && t < |threads| && s < |services| && threads[t].state == Runnable && !threads[t].inSend
      modifies this
      ensures Valid()
      ensures r == if !active then Refused else if old(threads[services[s].receiver].state) == WaitForSnd then HandedOff
                   else Blocked
      ensures r == Refused ==> threads == old(threads) && services == old(services) && h == old(h)
      ensures r != Refused ==>
                && SentThreads(old(threads), threads, old(services), t, s, params)
                && SentServices(old(services), services, t, s) && h == SendHistory(old(h), t, s, params)
    {
      hide Inv, ThreadOk, QueueOk, OrderOk, Sized;
      SendFacts(threads, services, h, t, s);
      if !active {
        return Refused;
      }
      ghost var th0, sv0, h0 := threads, services, h;
      threads := threads[t := threads[t].(inSend := true, blockedIn := s, params := params)];
      AddSender(s, t);
      threads := threads[t := threads[t].(state := WaitForRcv)];
      var target := services[s].receiver;
      if threads[target].state != WaitForSnd {
        r := Blocked;
      } else {
        threads := threads[target := threads[target].(state := Runnable)];
        r := HandedOff;
      }
      h := SendHistory(h0, t, s, params);
      SendKeeps(th0, sv0, h0, t, s, params, threads, services, h);
    }

    /** One pass of the receive loop of thread r up to the execution of the service: it sleeps if no
        sender waits, or reads the parameters of the first one. */
    method Receive(r: nat) returns (t: int)
      requires Valid() && r < |threads| && threads[r].serves != NULL && threads[r].state == Runnable
      requires !threads[r].inSend && threads[r].calledBy == NULL
      modifies this
      ensures Valid() && |threads| == |old(threads)| == |old(h.cur)| && threads[r].serves == old(threads[r].serves)
      ensures 0 <= threads[r].serves < |old(h.queue)| == |old(h.taken)|
      ensures t == At(old(h.queue)[threads[r].serves], 0)
      ensures t == NULL ==>
                threads == old(threads)[r := old(threads[r]).(state := WaitForSnd)] && services == old(services)
                  && h == old(h)
      ensures t != NULL ==>
                && t < |old(threads)| && |old(h.queue)[threads[r].serves]| > 0
                  && TakenThreads(old(threads), threads, r, t)
                && threads[r].serves < |old(services)|
                && TakenServices(old(services), services, threads[r].serves, old(threads)[t].next)
                && 0 <= old(h.cur)[t] < |old(h.calls)| && old(h.calls)[old(h.cur)[t]].params == threads[r].myparams
                && h == TakeHistory(old(h), threads[r].serves, r, old(h.cur)[t])
    {
      hide Inv, ThreadOk, QueueOk, OrderOk, Sized;
      var s := threads[r].serves;
      ghost var th0, sv0, h0 := threads, services, h;
      ReceiveFacts(th0, sv0, h0, s, r);
      t := DequeueSender(s);
      if t == NULL {
        threads := threads[r := threads[r].(state := WaitForSnd)];
        SleepKeeps(th0, sv0, h0, s, r, threads);
        return;
      }
      WaitsBehind(th0, sv0, h0, s, t, t);
      threads := threads[r := threads[r].(calledBy := t)];
      threads := threads[t := threads[t].(blockedThread := r)];
      threads := threads[r := threads[r].(myparams := threads[t].params)];
      threads := threads[t := threads[t].(params := NULL)];
      threads := threads[t := threads[t].(state := WaitForRet)];
      h := TakeHistory(h0, s, r, h0.cur[t]);
      TakeKeeps(th0, sv0, h0, s, r, t, h0.cur[t], threads, services, h);
    }

    /** The end of a pass: the reply goes to the caller whose parameters were read, and to no other. */
    method Reply(r: nat, value: int) returns (t: nat)
      requires Valid() && r < |threads| && threads[r].calledBy != NULL && threads[r].state == Runnable
               && !threads[r].inSend
      modifies this
      ensures Valid() && t == old(threads[r].calledBy) && t < |old(threads)| && t != r
      ensures 0 <= old(h.cur)[t] < |old(h.calls)|
      ensures var c := old(h.calls)[old(h.cur)[t]];
              && c.sender == t && c.svc == old(threads[r].serves) && c.params == old(threads[r].myparams)
              && c.status == Served(r)
      ensures RepliedThreads(old(threads), threads, r, t, value) && services == old(services)
      ensures h == Restatus(old(h), t, Replied(r, value), old(h.cur)[t])
    {
      hide Inv, ThreadOk, QueueOk, OrderOk, Sized;
      ReplyFacts(threads, services, h, r);
      ghost var th0, h0 := threads, h;
      t := threads[r].calledBy;
      threads := threads[t := threads[t].(ret := value)];
      threads := threads[r := threads[r].(calledBy := NULL)];
      threads := threads[t := threads[t].(state := Runnable)];
      h := Restatus(h0, t, Replied(r, value), h0.cur[t]);
      assert threads == th0[t := th0[t].(ret := value, state := Runnable)][r := th0[r].(calledBy := NULL)];
      ReplyKeeps(th0, services, h0, r, t, value, threads, h);
    }

    /** The end of send_portalcall: the caller gets the reply to its own call. */
    method Finish(t: nat) returns (value: int)
      requires Valid() && t < |threads| && threads[t].inSend && threads[t].state == Runnable
      modifies this
      ensures Valid() && 0 <= old(h.cur)[t] < |old(h.calls)|
      ensures var c := old(h.calls)[old(h.cur)[t]];
              && c.sender == t && c.status.Replied? && value == c.status.value
              && h == Restatus(old(h), t, Returned(c.status.who, value), NULL)
      ensures ReturnedThreads(old(threads), threads, t) && services == old(services)
    {
      hide Inv, ThreadOk, QueueOk, OrderOk, Sized;
      FinishFacts(threads, services, h, t);
      ghost var th0, h0 := threads, h;
      ghost var c := h.calls[h.cur[t]];
      threads := threads[t := threads[t].(inSend := false, blockedIn := 0, blockedThread := NULL, params := NULL)];
      value := threads[t].ret;
      h := Restatus(h0, t, Returned(c.status.who, value), NULL);
      ReturnKeeps(th0, services, h0, t, Returned(c.status.who, value), threads, h);
    }
  }

  lemma SendFacts(th: seq<Thread>, sv: seq<Service>, h: History, t: nat, s: nat)
    requires Inv(th, sv, h) && t < |th| && s < |sv| && th[t].state == Runnable
    ensures NULL <= sv[s].last < |th| && sv[s].last != t && sv[s].receiver < |th|
    ensures t < |h.cur| == |h.pos| && s < |h.queue| == |h.arrivals| == |h.taken|
  {
    assert QueueOk(s, sv[s], th, h);
    hide OrderOk, ThreadOk;
  }

  lemma ReceiveFacts(th: seq<Thread>, sv: seq<Service>, h: History, s: int, r: nat)
    requires Inv(th, sv, h) && r < |th| && th[r].serves == s != NULL
    ensures 0 <= s < |sv| == |h.queue| == |h.taken| && sv[s].first == At(h.queue[s], 0) && NULL <= sv[s].first < |th|
    ensures Sized(th, sv, h) && |h.cur| == |th|
  {
    Receives(th, sv, h, r);
    assert QueueOk(s, sv[s], th, h);
    hide OrderOk, ThreadOk;
  }

  lemma ReplyFacts(th: seq<Thread>, sv: seq<Service>, h: History, r: nat)
    requires Inv(th, sv, h) && r < |th| && th[r].calledBy != NULL && th[r].state == Runnable
    ensures 0 <= th[r].calledBy < |th| == |h.cur| && th[r].calledBy != r && 0 <= h.cur[th[r].calledBy] < |h.calls|
    ensures var t := th[r].calledBy;
            var c := h.calls[h.cur[t]];
            c.sender == t && c.svc == th[r].serves && c.params == th[r].myparams && c.status == Served(r)
  {
    var t := th[r].calledBy;
    assert ThreadOk(th[r], r, th, sv, h) && ThreadOk(th[t], t, th, sv, h);
    hide OrderOk, QueueOk;
  }

  lemma FinishFacts(th: seq<Thread>, sv: seq<Service>, h: History, t: nat)
    requires Inv(th, sv, h) && t < |th| && th[t].inSend && th[t].state == Runnable
    ensures |th| == |h.cur| && 0 <= h.cur[t] < |h.calls|
    ensures var c := h.calls[h.cur[t]]; c.sender == t && c.status.Replied? && c.status.value == th[t].ret
  {
    assert ThreadOk(th[t], t, th, sv, h);
    hide OrderOk, QueueOk;
  }

  // ------------------------------------------------------------ runs

  datatype Step =
    | SendStep(t: nat, s: nat, params: int, active: bool)
    | ReceiveStep(r: nat)
    | ReplyStep(r: nat, value: int)
    | FinishStep(t: nat)

  /** Any interleaving: each step is taken if the thread can take it. */
  method Run(m: Rendezvous, steps: seq<Step>)
    requires m.Valid()
    modifies m
    ensures m.Valid()
  {
    hide Inv;
    var i := 0;
    while i < |steps|
      invariant 0 <= i <= |steps| && m.Valid()
    {
      Take(m, steps[i]);
      i := i + 1;
    }
  }

  method Take(m: Rendezvous, step: Step)
    requires m.Valid()
    modifies m
    ensures m.Valid()
  {
    hide Inv;
    match step
    case SendStep(t, s, params, active) =>
      if t < |m.threads| && s < |m.services| && m.threads[t].state == Runnable && !m.threads[t].inSend {
        var _ := m.Send(t, s, params, active);
      }
    case ReceiveStep(r) =>
      if r < |m.threads| && m.threads[r].serves != NULL && m.threads[r].state == Runnable
         && !m.threads[r].inSend && m.threads[r].calledBy == NULL {
        var _ := m.Receive(r);
      }
    case ReplyStep(r, value) =>
      if r < |m.threads| && m.threads[r].calledBy != NULL && m.threads[r].state == Runnable && !m.threads[r].inSend {
        var _ := m.Reply(r, value);
      }
    case FinishStep(t) =>
      if t < |m.threads| && m.threads[t].inSend && m.threads[t].state == Runnable {
        var _ := m.Finish(t);
      }
  }
}
