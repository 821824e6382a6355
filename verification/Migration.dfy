/**
 Thread migration (thread_consider_migration in kern/thread/thread.c). The run
 queues of all CPUs are visited one lock at a time; between two such sections
 other CPUs may add threads to any queue and take threads from any place in
 their own: thread_switch from the head, a migration of theirs from the tail.
 That interference is an argument, so what is proved holds for every interleaving.
 */
module Migration {

  import opened KernLib

  type Tid = nat

  /** Run queues, t_cpu and t_listnode of every thread. */
  datatype World = World(runq: seq<seq<Tid>>, cpuOf: map<Tid, nat>, place: map<Tid, Place>)

  /** What other CPUs do between two sections. */
  datatype Event = Add(cpu: nat, t: Tid) | Take(cpu: nat, place: nat)

  /** Where a thread's list node is. Elsewhere: running, asleep, or in the
      hands of another CPU. */
  datatype Place = Queued(cpu: nat) | Victim | Elsewhere

  ghost function Total(qs: seq<seq<Tid>>): nat {
    if qs == [] then 0 else Total(qs[..|qs| - 1]) + |qs[|qs| - 1]|
  }

  lemma {:induction false} TotalUpdate(qs: seq<seq<Tid>>, c: nat, q: seq<Tid>)
    requires c < |qs|
    ensures Total(qs[c := q]) + |qs[c]| == Total(qs) + |q|
  {
    var n := |qs| - 1;
    if c < n {
      assert qs[c := q][..n] == qs[..n][c := q];
      TotalUpdate(qs[..n], c, q);
    } else {
      assert qs[c := q][..n] == qs[..n];
    }
  }

  /** Only queue c may differ. */
  ghost predicate OnlyAt(before: seq<seq<Tid>>, after: seq<seq<Tid>>, c: nat) {
    |before| == |after| && forall d :: 0 <= d < |after| && d != c ==> after[d] == before[d]
  }

  lemma TotalNext(qs: seq<seq<Tid>>, i: nat)
    requires i < |qs|
    ensures Total(qs[..i + 1]) == Total(qs[..i]) + |qs[i]|
  {
    assert qs[..i + 1][..i] == qs[..i];
  }

  ghost predicate NoDup(q: seq<Tid>) { forall i, j :: 0 <= i < j < |q| ==> q[i] != q[j] }

  /** The threads of q, each once, are exactly those whose node is at p, and
      their t_cpu is c. */
  ghost predicate Holds(q: seq<Tid>, place: map<Tid, Place>, cpuOf: map<Tid, nat>, p: Place, c: nat) {
    && NoDup(q)
    && (forall i :: 0 <= i < |q| ==> q[i] in place && place[q[i]] == p && q[i] in cpuOf && cpuOf[q[i]] == c)
    && (forall t {:trigger t in q} :: t in place && place[t] == p ==> t in q)
  }

  lemma HoldsAddTail(q: seq<Tid>, place: map<Tid, Place>, cpuOf: map<Tid, nat>, p: Place, c: nat, t: Tid)
    requires Holds(q, place, cpuOf, p, c) && t in place && place[t] != p
    ensures Holds(q + [t], place[t := p], cpuOf[t := c], p, c)
  {
    var r, place2 := q + [t], place[t := p];
    forall u | u in place2 && place2[u] == p ensures u in r {
      if u == t { assert r[|q|] == t; } else { assert u in q; }
    }
  }

  lemma HoldsAddHead(q: seq<Tid>, place: map<Tid, Place>, cpuOf: map<Tid, nat>, p: Place, c: nat, t: Tid)
    requires Holds(q, place, cpuOf, p, c) && t in place && place[t] != p
    ensures Holds([t] + q, place[t := p], cpuOf[t := c], p, c)
  {
    var r, place2 := [t] + q, place[t := p];
    forall u | u in place2 && place2[u] == p ensures u in r {
      if u == t { assert r[0] == t; } else { assert u in q; }
    }
  }

  lemma HoldsRemove(q: seq<Tid>, place: map<Tid, Place>, cpuOf: map<Tid, nat>, p: Place, c: nat, i: nat, p2: Place)
    requires Holds(q, place, cpuOf, p, c) && i < |q| && p2 != p
    ensures Holds(q[..i] + q[i + 1..], place[q[i] := p2], cpuOf, p, c)
  {
    var r, place2 := q[..i] + q[i + 1..], place[q[i] := p2];
    assert NoDup(r);
    forall j | 0 <= j < |r| ensures r[j] in place2 && place2[r[j]] == p && r[j] in cpuOf && cpuOf[r[j]] == c {
      assert r[j] == q[if j < i then j else j + 1];
    }
    forall u | u in place2 && place2[u] == p ensures u in r {
      assert u in q;
      var j :| 0 <= j < |q| && q[j] == u;
      assert r[if j < i then j else j - 1] == u;
    }
  }

  lemma HoldsOther(q: seq<Tid>, place: map<Tid, Place>, cpuOf: map<Tid, nat>, p: Place, c: nat, t: Tid, p2: Place,
                   c2: nat)
    requires Holds(q, place, cpuOf, p, c) && (t in place ==> place[t] != p) && p2 != p
    ensures Holds(q, place[t := p2], cpuOf[t := c2], p, c)
  {
  }

  /** If every queue but one is at least k long, so is their sum, times. */
  lemma {:induction false} TotalAtLeast(qs: seq<seq<Tid>>, k: nat)
    requires forall c :: 0 <= c < |qs| ==> |qs[c]| >= k
    ensures Total(qs) >= |qs| * k
  {
    if qs != [] {
      TotalAtLeast(qs[..|qs| - 1], k);
      assert |qs| * k == (|qs| - 1) * k + k;
    }
  }

  /** No thread is in two places or lost, each queued thread's t_cpu is its
      queue's CPU, and the victims still belong to the migrating CPU. */
  ghost predicate Placed(w: World, victims: seq<Tid>, me: nat) {
    && QueuesOk(w)
    && Holds(victims, w.place, w.cpuOf, Victim, me)
  }

  ghost predicate QueuesOk(w: World) {
    && (forall c :: 0 <= c < |w.runq| ==> Holds(w.runq[c], w.place, w.cpuOf, Queued(c), c))
    && (forall t :: t in w.place && w.place[t].Queued? ==> w.place[t].cpu < |w.runq|)
    && w.place.Keys == w.cpuOf.Keys
  }

  /** The current thread can only run, or be queued, on this CPU. */
  predicate AtHome(w: World, cur: Tid, me: nat) { cur in w.cpuOf && w.cpuOf[cur] == me }

  /** Between two sections of the routine running on CPU me. */
  ghost predicate Ready(w: World, victims: seq<Tid>, me: nat, cur: Tid) {
    me < |w.runq| && Placed(w, victims, me) && AtHome(w, cur, me)
  }

  /** No thread appears or disappears, and the current thread does not lose
      its place on a list. */
  ghost predicate Kept(w0: World, w: World, cur: Tid) {
    |w.runq| == |w0.runq| && w.place.Keys == w0.place.Keys && (IsListed(w0, cur) ==> IsListed(w, cur))
  }

  predicate IsListed(w: World, t: Tid) { t in w.place && w.place[t] != Elsewhere }

  /** A listed current thread is on this CPU's own queue: it cannot be on
      another one, because its t_cpu is this CPU. */
  lemma ListedIsHome(w: World, me: nat, cur: Tid)
    requires Ready(w, [], me, cur)
    ensures IsListed(w, cur) <==> cur in w.runq[me]
  {
    if cur in w.runq[me] {
      assert Holds(w.runq[me], w.place, w.cpuOf, Queued(me), me);
    }
    if IsListed(w, cur) {
      var none: seq<Tid> := [];
      assert Holds(none, w.place, w.cpuOf, Victim, me) && cur !in none;
      var c := w.place[cur].cpu;
      assert Holds(w.runq[c], w.place, w.cpuOf, Queued(c), c);
      assert cur in w.runq[c];
    }
  }

  predicate IsElsewhere(w: World, t: Tid) { t in w.place && w.place[t] == Elsewhere }

  /** threadlist_addtail on the queue of CPU c, with t_cpu set. */
  function Enqueue(w: World, c: nat, t: Tid): World
    requires c < |w.runq|
  {
    World(w.runq[c := w.runq[c] + [t]], w.cpuOf[t := c], w.place[t := Queued(c)])
  }

  lemma EnqueueKeeps(w: World, c: nat, t: Tid, rest: seq<Tid>, me: nat)
    requires c < |w.runq| && Placed(w, rest, me) && IsElsewhere(w, t)
    ensures Placed(Enqueue(w, c, t), rest, me)
    ensures Total(Enqueue(w, c, t).runq) == Total(w.runq) + 1
  {
    TotalUpdate(w.runq, c, w.runq[c] + [t]);
    var w2 := Enqueue(w, c, t);
    forall d | 0 <= d < |w2.runq| ensures Holds(w2.runq[d], w2.place, w2.cpuOf, Queued(d), d) {
      if d == c { HoldsAddTail(w.runq[c], w.place, w.cpuOf, Queued(c), c, t); }
      else { HoldsOther(w.runq[d], w.place, w.cpuOf, Queued(d), d, t, Queued(c), c); }
    }
    HoldsOther(rest, w.place, w.cpuOf, Victim, me, t, Queued(c), c);
  }

  /** Removal of the thread at position i of queue c. */
  function Dequeue(w: World, c: nat, i: nat): World
    requires c < |w.runq| && i < |w.runq[c]|
  {
    w.(runq := w.runq[c := w.runq[c][..i] + w.runq[c][i + 1..]], place := w.place[w.runq[c][i] := Elsewhere])
  }

  lemma DequeueKeeps(w: World, c: nat, i: nat, rest: seq<Tid>, me: nat)
    requires c < |w.runq| && i < |w.runq[c]| && Placed(w, rest, me)
    ensures Placed(Dequeue(w, c, i), rest, me)
    ensures IsElsewhere(Dequeue(w, c, i), w.runq[c][i]) && AtHome(w, w.runq[c][i], c)
    ensures Total(Dequeue(w, c, i).runq) == Total(w.runq) - 1
    ensures Dequeue(w, c, i).place.Keys == w.place.Keys
  {
    var t, w2 := w.runq[c][i], Dequeue(w, c, i);
    TotalUpdate(w.runq, c, w2.runq[c]);
    assert Holds(w.runq[c], w.place, w.cpuOf, Queued(c), c);
    assert w.cpuOf[t := c] == w.cpuOf;
    forall d | 0 <= d < |w2.runq| ensures Holds(w2.runq[d], w2.place, w2.cpuOf, Queued(d), d) {
      if d == c { HoldsRemove(w.runq[c], w.place, w.cpuOf, Queued(c), c, i, Elsewhere); }
      else { HoldsOther(w.runq[d], w.place, w.cpuOf, Queued(d), d, t, Elsewhere, c); }
    }
    HoldsOther(rest, w.place, w.cpuOf, Victim, me, t, Elsewhere, c);
  }

  lemma PopKeeps(w: World, victims: seq<Tid>, me: nat)
    requires Placed(w, victims, me) && victims != []
    ensures var w2 := w.(place := w.place[victims[0] := Elsewhere]);
      && Placed(w2, victims[1..], me) && IsElsewhere(w2, victims[0])
      && AtHome(w2, victims[0], me) && w2.place.Keys == w.place.Keys
    ensures NoDup(victims)
  {
    var t := victims[0];
    assert w.cpuOf[t := me] == w.cpuOf;
    HoldsRemove(victims, w.place, w.cpuOf, Victim, me, 0, Elsewhere);
    assert victims[..0] + victims[1..] == victims[1..];
    forall c | 0 <= c < |w.runq| ensures Holds(w.runq[c], w.place[t := Elsewhere], w.cpuOf, Queued(c), c) {
      HoldsOther(w.runq[c], w.place, w.cpuOf, Queued(c), c, t, Elsewhere, me);
    }
  }

  /** A thread of this CPU joins the victims, at the head or at the tail. */
  lemma JoinKeeps(w: World, t: Tid, rest: seq<Tid>, me: nat)
    requires Placed(w, rest, me) && IsElsewhere(w, t) && AtHome(w, t, me)
    ensures var w2 := w.(place := w.place[t := Victim]); Placed(w2, [t] + rest, me) && Placed(w2, rest + [t], me)
  {
    assert w.cpuOf[t := me] == w.cpuOf;
    HoldsAddHead(rest, w.place, w.cpuOf, Victim, me, t);
    HoldsAddTail(rest, w.place, w.cpuOf, Victim, me, t);
    forall c | 0 <= c < |w.runq| ensures Holds(w.runq[c], w.place[t := Victim], w.cpuOf, Queued(c), c) {
      HoldsOther(w.runq[c], w.place, w.cpuOf, Queued(c), c, t, Victim, me);
    }
  }

  // ------------------------------------------------------------------
  // The routine, section by section

  /** One event of another CPU. */
  method OneEvent(w0: World, e: Event, me: nat, cur: Tid, ghost victims: seq<Tid>) returns (w: World)
    requires Ready(w0, victims, me, cur)
    ensures Ready(w, victims, me, cur) && Kept(w0, w, cur)
    ensures w0.runq[me] <= w.runq[me]
  {
    w := w0;
    match e
    case Add(c, t) =>
      if c < |w.runq| && IsElsewhere(w, t) && (t == cur ==> c == me) {
        EnqueueKeeps(w, c, t, victims, me);
        w := Enqueue(w, c, t);
      }
    case Take(c, i) =>
      if c < |w.runq| && c != me && i < |w.runq[c]| {
        DequeueKeeps(w, c, i, victims, me);
        w := Dequeue(w, c, i);
      }
  }

  /** Other CPUs act: woken threads join a queue, and CPUs other than this one
      take threads from their own queue. The current thread of this CPU can
      only be made runnable here. */
  method Interfere(w0: World, events: seq<Event>, me: nat, cur: Tid, ghost victims: seq<Tid>) returns (w: World)
    requires Ready(w0, victims, me, cur)
    ensures Ready(w, victims, me, cur) && Kept(w0, w, cur)
    ensures w0.runq[me] <= w.runq[me]
    ensures events == [] ==> w == w0
  {
    w := w0;
    for k := 0 to |events|
      invariant Ready(w, victims, me, cur) && Kept(w0, w, cur)
      invariant w0.runq[me] <= w.runq[me]
      invariant events == [] ==> w == w0
    {
      w := OneEvent(w, events[k], me, cur, victims);
    }
  }

  /** The counting pass; env(i) happens after CPU i has been counted. */
  method CountThreads(w0: World, me: nat, cur: Tid, env: nat -> seq<Event>) returns (w: World, mine: nat, total: nat)
    requires Ready(w0, [], me, cur)
    ensures Ready(w, [], me, cur) && Kept(w0, w, cur)
    ensures mine <= |w.runq[me]| && w0.runq[me] <= w.runq[me]
    ensures Quiet(env, |w0.runq|) ==> w == w0 && total == Total(w.runq) && mine == |w.runq[me]|
  {
    w, mine, total := w0, 0, 0;
    for i := 0 to |w0.runq|
      invariant Ready(w, [], me, cur) && Kept(w0, w, cur)
      invariant mine <= |w.runq[me]| && w0.runq[me] <= w.runq[me]
      invariant Quiet(env, i) ==> w == w0 && total == Total(w0.runq[..i])
      invariant Quiet(env, i) && i > me ==> mine == |w.runq[me]|
    {
      TotalNext(w0.runq, i);
      QuietNext(env, i);
      total := total + |w.runq[i]|;
      if i == me {
        mine := |w.runq[i]|;
      }
      w := Interfere(w, env(i), me, cur, []);
    }
    assert w0.runq[..|w0.runq|] == w0.runq;
  }

  /** threadlist_remtail on this CPU's queue, then threadlist_addhead on the
      victims. */
  method TakeOne(w0: World, victims: seq<Tid>, me: nat, ghost cur: Tid) returns (w: World, t: Tid)
    requires Ready(w0, victims, me, cur) && w0.runq[me] != []
    ensures Ready(w, [t] + victims, me, cur) && Kept(w0, w, cur)
    ensures t == w0.runq[me][|w0.runq[me]| - 1]
    ensures w.runq == w0.runq[me := w0.runq[me][..|w0.runq[me]| - 1]]
  {
    w := w0;
    var n := |w.runq[me]| - 1;
    t := w.runq[me][n];
    DequeueKeeps(w, me, n, victims, me);
    assert w.runq[me][..n] + w.runq[me][n + 1..] == w.runq[me][..n];
    w := Dequeue(w, me, n);
    JoinKeeps(w, t, victims, me);
    w := w.(place := w.place[t := Victim]);
  }

  /** Takes n threads off the tail of this CPU's queue: never null, because
      at least n were counted and nobody else removes from it. */
  method TakeVictims(w0: World, me: nat, n: nat, ghost cur: Tid) returns (w: World, victims: seq<Tid>)
    requires Ready(w0, [], me, cur) && n <= |w0.runq[me]|
    ensures Ready(w, victims, me, cur) && Kept(w0, w, cur)
    ensures w.runq == w0.runq[me := w0.runq[me][..|w0.runq[me]| - n]]
    ensures victims == w0.runq[me][|w0.runq[me]| - n..]
  {
    w, victims := w0, [];
    ghost var q := w0.runq[me];
    assert q[..|q|] == q && w0.runq[me := q] == w0.runq;
    for i := 0 to n
      invariant Ready(w, victims, me, cur) && Kept(w0, w, cur)
      invariant w.runq == w0.runq[me := q[..|q| - i]]
      invariant victims == q[|q| - i..]
    {
      var t;
      assert q[..|q| - i][..|q| - i - 1] == q[..|q| - i - 1];
      assert [q[|q| - i - 1]] + victims == q[|q| - i - 1..];
      w, t := TakeOne(w, victims, me, cur);
      victims := [t] + victims;
    }
  }

  /** One turn of the sending loop: the head victim goes to CPU c, unless it
      is the current thread, which is shuffled to the end. */
  method SendOne(w0: World, c: nat, me: nat, cur: Tid, victims: seq<Tid>) returns (w: World, rest: seq<Tid>)
    requires Ready(w0, victims, me, cur) && c < |w0.runq| && c != me && victims != []
    ensures Ready(w, rest, me, cur) && Kept(w0, w, cur)
    ensures NoDup(victims)
    ensures victims[0] == cur ==> rest == victims[1..] + [cur] && w.runq == w0.runq
    ensures victims[0] != cur ==> rest == victims[1..] && w.runq == w0.runq[c := w0.runq[c] + [victims[0]]]
  {
    var t := victims[0];
    PopKeeps(w0, victims, me);
    rest, w := victims[1..], w0.(place := w0.place[t := Elsewhere]);
    if t == cur {
      JoinKeeps(w, t, rest, me);
      w := w.(place := w.place[t := Victim]);
      rest := rest + [t];
    } else {
      EnqueueKeeps(w, c, t, rest, me);
      w := Enqueue(w, c, t);
    }
  }

  method SendTurn(w0: World, c: nat, me: nat, cur: Tid, victims: seq<Tid>, ghost toSend: nat)
    returns (w: World, rest: seq<Tid>)
    requires Ready(w0, victims, me, cur) && c < |w0.runq| && c != me
    requires Pending(victims, toSend, cur) && toSend > 0
    ensures Ready(w, rest, me, cur) && Kept(w0, w, cur)
    ensures Pending(rest, toSend - 1, cur) && (cur in rest <==> cur in victims)
    ensures OnlyAt(w0.runq, w.runq, c) && w0.runq[c] <= w.runq[c] && |w.runq[c]| <= |w0.runq[c]| + 1
    ensures |w.runq[c]| + |rest| == |w0.runq[c]| + |victims|
  {
    w, rest := SendOne(w0, c, me, cur, victims);
    StillPending(victims, toSend, cur);
  }

  /** Fills CPU c up to the share. toSend counts the victims that may still
      move; a skipped current thread stays behind at the tail. */
  method Fill(w0: World, c: nat, me: nat, cur: Tid, share: nat, victims0: seq<Tid>, toSend0: nat)
    returns (w: World, victims: seq<Tid>, toSend: nat)
    requires Ready(w0, victims0, me, cur) && c < |w0.runq| && c != me
    requires Pending(victims0, toSend0, cur)
    ensures Ready(w, victims, me, cur) && Kept(w0, w, cur)
    ensures Pending(victims, toSend, cur) && (cur in victims <==> cur in victims0)
    ensures OnlyAt(w0.runq, w.runq, c)
    ensures w0.runq[c] <= w.runq[c] && |w.runq[c]| <= Max(share, |w0.runq[c]|)
    ensures toSend == 0 || |w.runq[c]| >= share
    ensures |w.runq[c]| + |victims| == |w0.runq[c]| + |victims0| && toSend <= toSend0
  {
    w, victims, toSend := w0, victims0, toSend0;
    while |w.runq[c]| < share && toSend > 0
      invariant Ready(w, victims, me, cur) && Kept(w0, w, cur)
      invariant Pending(victims, toSend, cur) && (cur in victims <==> cur in victims0)
      invariant OnlyAt(w0.runq, w.runq, c)
      invariant w0.runq[c] <= w.runq[c] && |w.runq[c]| <= Max(share, |w0.runq[c]|)
      invariant |w.runq[c]| + |victims| == |w0.runq[c]| + |victims0| && toSend <= toSend0
      decreases toSend
    {
      w, victims := SendTurn(w, c, me, cur, victims, toSend);
      toSend := toSend - 1;
    }
  }

  /** Only queue i changed: it received moved threads at its end and did not exceed the
      share by it, and if threads were left over it has its share. */
  ghost predicate Visited(before: seq<seq<Tid>>, after: seq<seq<Tid>>, i: nat, me: nat, share: nat, moved: int,
                          toSend: nat) {
    && i < |before| == |after|
    && OnlyAt(before, after, i)
    && |after[i]| == |before[i]| + moved
    && (i == me ==> after[i] == before[i])
    && before[i] <= after[i] && |after[i]| <= Max(share, |before[i]|)
    && (i == me || toSend == 0 || |after[i]| >= share)
  }

  /** After the first i queues have been visited. */
  ghost predicate Spread(before: seq<seq<Tid>>, after: seq<seq<Tid>>, i: nat, me: nat, share: nat, left: int,
                         toSend: nat) {
    && me < |before| == |after| && i <= |after|
    && after[me] == before[me]
    && Total(after) + left == Total(before)
    && (forall c :: 0 <= c < |after| && c != me ==> before[c] <= after[c] && |after[c]| <= Max(share, |before[c]|))
    && (forall c :: i <= c < |after| ==> after[c] == before[c])
    && (toSend > 0 ==> forall c :: 0 <= c < i && c != me ==> |after[c]| >= share)
  }

  lemma SpreadNext(before: seq<seq<Tid>>, mid: seq<seq<Tid>>, after: seq<seq<Tid>>, i: nat, me: nat, share: nat,
                   left: int, moved: int, toSend: nat, toSend2: nat)
    requires Spread(before, mid, i, me, share, left, toSend) && toSend2 <= toSend
    requires i < |mid| && Visited(mid, after, i, me, share, moved, toSend2)
    ensures Spread(before, after, i + 1, me, share, left - moved, toSend2)
  {
    TotalUpdate(mid, i, after[i]);
    assert after == mid[i := after[i]];
    assert mid[i] == before[i];
  }

  /** One turn of the sending pass: other CPUs act, then CPU i is filled
      unless it is this one or nothing is left to send. */
  method Visit(w0: World, i: nat, me: nat, cur: Tid, share: nat, victims0: seq<Tid>, toSend0: nat, events: seq<Event>,
               ghost start: seq<seq<Tid>>, ghost left: int)
    returns (w: World, victims: seq<Tid>, toSend: nat)
    requires Ready(w0, victims0, me, cur) && i < |w0.runq|
    requires Pending(victims0, toSend0, cur)
    ensures Ready(w, victims, me, cur) && Kept(w0, w, cur)
    ensures Pending(victims, toSend, cur) && (cur in victims <==> cur in victims0)
    ensures w0.runq[me] <= w.runq[me]
    ensures events == [] && Spread(start, w0.runq, i, me, share, left, toSend0)
      ==> Spread(start, w.runq, i + 1, me, share, left + |victims| - |victims0|, toSend)
  {
    w := Interfere(w0, events, me, cur, victims0);
    victims, toSend := victims0, toSend0;
    if i != me && toSend > 0 {
      w, victims, toSend := Fill(w, i, me, cur, share, victims, toSend);
    }
    if events == [] && Spread(start, w0.runq, i, me, share, left, toSend0) {
      SpreadNext(start, w0.runq, w.runq, i, me, share, left, |victims0| - |victims|, toSend0, toSend);
    }
  }

  /** The sending pass over all other CPUs; env(i) happens before CPU i is
      visited. */
  method SendAll(w0: World, me: nat, cur: Tid, share: nat, victims0: seq<Tid>, env: nat -> seq<Event>)
    returns (w: World, victims: seq<Tid>, toSend: nat)
    requires Ready(w0, victims0, me, cur)
    ensures Ready(w, victims, me, cur) && Kept(w0, w, cur)
    ensures Pending(victims, toSend, cur) && (cur in victims <==> cur in victims0)
    ensures w0.runq[me] <= w.runq[me]
    ensures Quiet(env, |w0.runq|) ==> Spread(w0.runq, w.runq, |w0.runq|, me, share, |victims| - |victims0|, toSend)
  {
    w, victims, toSend := w0, victims0, |victims0|;
    for i := 0 to |w0.runq|
      invariant Ready(w, victims, me, cur) && Kept(w0, w, cur)
      invariant Pending(victims, toSend, cur) && (cur in victims <==> cur in victims0)
      invariant w0.runq[me] <= w.runq[me]
      invariant Quiet(env, i) ==> Spread(w0.runq, w.runq, i, me, share, |victims| - |victims0|, toSend)
    {
      QuietNext(env, i);
      w, victims, toSend := Visit(w, i, me, cur, share, victims, toSend, env(i), w0.runq, |victims| - |victims0|);
    }
  }

  method PutOne(w0: World, me: nat, victims: seq<Tid>, ghost cur: Tid) returns (w: World)
    requires Ready(w0, victims, me, cur) && victims != []
    ensures Ready(w, victims[1..], me, cur) && Kept(w0, w, cur)
    ensures w.runq == w0.runq[me := w0.runq[me] + [victims[0]]]
  {
    var t := victims[0];
    PopKeeps(w0, victims, me);
    w := w0.(place := w0.place[t := Elsewhere]);
    EnqueueKeeps(w, me, t, victims[1..], me);
    w := Enqueue(w, me, t);
  }

  /** Leftovers go back on this CPU's own queue, in order. */
  method PutBack(w0: World, me: nat, victims0: seq<Tid>, ghost cur: Tid) returns (w: World)
    requires Ready(w0, victims0, me, cur)
    ensures Ready(w, [], me, cur) && Kept(w0, w, cur)
    ensures w.runq == w0.runq[me := w0.runq[me] + victims0]
  {
    w := w0;
    var victims := victims0;
    while victims != []
      invariant Ready(w, victims, me, cur) && Kept(w0, w, cur)
      invariant w.runq == w0.runq[me := w.runq[me]]
      invariant w.runq[me] + victims == w0.runq[me] + victims0
      decreases |victims|
    {
      assert w.runq[me] + [victims[0]] + victims[1..] == w.runq[me] + victims;
      w := PutOne(w, me, victims, cur);
      victims := victims[1..];
    }
    assert w.runq[me] + victims == w.runq[me];
  }

  /** Takes n threads and sends what it can. */
  method SendAway(w0: World, me: nat, cur: Tid, share: nat, n: nat, env: nat -> seq<Event>)
    returns (w: World, victims: seq<Tid>, toSend: nat)
    requires Ready(w0, [], me, cur) && n <= |w0.runq[me]|
    ensures Ready(w, victims, me, cur) && Kept(w0, w, cur)
    ensures Pending(victims, toSend, cur) && (cur in victims <==> InTail(w0.runq[me], n, cur))
    ensures Quiet(env, |w0.runq|) ==> SentAway(w0.runq, w.runq, me, share, n, |victims|, toSend)
  {
    w, victims := TakeVictims(w0, me, n, cur);
    w, victims, toSend := SendAll(w, me, cur, share, victims, env);
  }

  /** The thread is among the last n of the queue. */
  ghost predicate InTail(q: seq<Tid>, n: nat, t: Tid) { n <= |q| && t in q[|q| - n..] }

  ghost predicate SentAway(before: seq<seq<Tid>>, after: seq<seq<Tid>>, me: nat, share: nat, n: nat, left: nat,
                           toSend: nat) {
    && me < |before| && n <= |before[me]|
    && Spread(before[me := before[me][..|before[me]| - n]], after, |before|, me, share, left - n, toSend)
  }

  /** Sends away n threads; other CPUs act once more; the leftovers go back. */
  method SendAndTakeBack(w0: World, me: nat, cur: Tid, share: nat, n: nat, env: nat -> seq<Event>)
    returns (w: World, skipped: bool)
    requires Ready(w0, [], me, cur) && n <= |w0.runq[me]|
    ensures Ready(w, [], me, cur) && Kept(w0, w, cur)
    ensures skipped ==> IsListed(w, cur)
    ensures Quiet(env, |w0.runq| + 1) && Even(w0.runq, me, share, n) ==>
      Balanced(w0.runq, w.runq, me, cur, skipped) && (skipped <==> InTail(w0.runq[me], n, cur))
  {
    var victims, toSend;
    w, victims, toSend := SendAway(w0, me, cur, share, n, env);
    skipped := toSend < |victims|;
    assert skipped ==> victims[toSend] == cur;
    SendsAll(w0.runq, w.runq, victims, me, share, n, toSend, cur);
    QuietNext(env, |w0.runq|);
    w := Interfere(w, env(|w0.runq|), me, cur, victims);
    w := PutBack(w, me, victims, cur);
  }

  /** The counts are those of an undisturbed machine. */
  ghost predicate Even(qs: seq<seq<Tid>>, me: nat, share: nat, n: nat) {
    me < |qs| && n + share == |qs[me]| && share == DivRoundUp(Total(qs), |qs|)
  }

  /**
   thread_consider_migration on CPU me, whose current thread is cur, for every
   behaviour of the other CPUs: nothing is lost or duplicated, t_cpu stays
   right, and the current thread stays here. Without interference no CPU is
   raised above the share and this one keeps exactly the share, or one more if
   the current thread was skipped, which happens exactly when it is among the
   threads that exceed the share.
   */
  method ConsiderMigration(w0: World, me: nat, cur: Tid, env1: nat -> seq<Event>, env2: nat -> seq<Event>)
    returns (w: World, skipped: bool)
    requires Ready(w0, [], me, cur)
    ensures Ready(w, [], me, cur) && Kept(w0, w, cur)
    ensures cur in w0.runq[me] || skipped ==> cur in w.runq[me]
    ensures Quiet(env1, |w0.runq|) && Quiet(env2, |w0.runq| + 1) ==>
      Balanced(w0.runq, w.runq, me, cur, skipped) && (skipped <==> InTail(w0.runq[me], Surplus(w0.runq, me), cur))
  {
    var mine, total;
    w, mine, total := CountThreads(w0, me, cur, env1);
    var share := DivRoundUp(total, |w.runq|);
    skipped := false;
    if mine >= share {
      w, skipped := SendAndTakeBack(w, me, cur, share, mine - share, env2);
    }
    ListedIsHome(w0, me, cur);
    ListedIsHome(w, me, cur);
  }

  /** By how much a queue exceeds the share. */
  ghost function Surplus(qs: seq<seq<Tid>>, me: nat): nat
    requires me < |qs|
  {
    var share := DivRoundUp(Total(qs), |qs|);
    if |qs[me]| < share then 0 else |qs[me]| - share
  }

  /** What the routine achieves when nothing interferes. */
  ghost predicate Balanced(before: seq<seq<Tid>>, after: seq<seq<Tid>>, me: nat, cur: Tid, skipped: bool) {
    && me < |before| == |after|
    && var share := DivRoundUp(Total(before), |before|);
    && after[me] == before[me][..Min(|before[me]|, share)] + (if skipped then [cur] else [])
    && (forall c :: 0 <= c < |after| && c != me ==> before[c] <= after[c] && |after[c]| <= Max(share, |before[c]|))
    && Total(after) == Total(before)
  }

  /** The room argument: if the pass ended with threads still to send, every
      queue would hold its share, which is more than there are. */
  lemma SendsAll(qs: seq<seq<Tid>>, sent: seq<seq<Tid>>, victims: seq<Tid>, me: nat, share: nat,
                 n: nat, toSend: nat, cur: Tid)
    requires me < |qs| == |sent| && Pending(victims, toSend, cur)
    ensures Even(qs, me, share, n) && SentAway(qs, sent, me, share, n, |victims|, toSend)
      ==> Balanced(qs, sent[me := sent[me] + victims], me, cur, toSend < |victims|) && toSend == 0
  {
    if Even(qs, me, share, n) && SentAway(qs, sent, me, share, n, |victims|, toSend) {
      TotalUpdate(qs, me, qs[me][..share]);
      TotalUpdate(sent, me, sent[me] + victims);
      if toSend > 0 {
        TotalAtLeast(sent, share);
        DivRoundUpCovers(Total(qs), |qs|);
      }
    }
  }

  function Max(a: nat, b: nat): nat { if a < b then b else a }

  function Min(a: nat, b: nat): nat { if a < b then a else b }

  lemma StillPending(victims: seq<Tid>, toSend: nat, cur: Tid)
    requires Pending(victims, toSend, cur) && toSend > 0 && NoDup(victims)
    ensures victims[0] == cur ==> Pending(victims[1..] + [cur], toSend - 1, cur)
    ensures victims[0] != cur ==> Pending(victims[1..], toSend - 1, cur)
  {
    assert victims == [victims[0]] + victims[1..];
    assert (victims[1..] + [cur])[|victims| - 1] == cur;
  }

  /** The first n gaps are free of interference. */
  ghost predicate Quiet(env: nat -> seq<Event>, n: nat) { forall k: nat :: k < n ==> env(k) == [] }

  lemma QuietNext(env: nat -> seq<Event>, n: nat)
    ensures Quiet(env, n + 1) <==> Quiet(env, n) && env(n) == []
  {
  }

  /** Either all victims may still move, or all but the last, which is the
      skipped current thread and appears nowhere else. */
  ghost predicate Pending(victims: seq<Tid>, toSend: nat, cur: Tid) {
    || |victims| == toSend
    || (|victims| == toSend + 1 && victims[toSend] == cur && forall i :: 0 <= i < toSend ==> victims[i] != cur)
  }
}
