/** Delayed notifications (server/cras_alert.c): raising an alert only marks it; the callbacks run later,
    and may themselves raise alerts. */
module Alert {
  import opened Options
  import opened UtList

  /** The bytes of one cras_alert_data, kept as a value. */
  type Data = int

  /** What happened to one alert: the data raised with it, the data every callback has had, for each callback the
      data it received and how often it was called, how often the prepare function ran, and for each callback which
      of its runs was the last one before the callback's last call. */
  datatype Log = Log(raised: seq<Data>, delivered: seq<Data>, got: seq<seq<Data>>, calls: seq<nat>, prepared: nat,
                     seen: seq<nat>)

  /** Every callback was called since the prepare function last ran. */
  ghost predicate UpToDate(log: Log) {
    forall c :: 0 <= c < |log.seen| ==> log.seen[c] == log.prepared
  }

  /** The log once the prepare function, if there is one, has run. */
  function AfterPrepare(hasPrepare: bool, log: Log): Log {
    log.(prepared := log.prepared + if hasPrepare then 1 else 0)
  }

  /** With KEEP_ALL_DATA every datum raised is delivered or queued, once and in order. Without it at most
      one datum is queued, and the newest one raised is the newest delivered or queued. */
  ghost predicate Kept(keepAll: bool, log: Log, queue: seq<Data>) {
    if keepAll then log.raised == log.delivered + queue
    else |queue| <= 1 && (log.raised != [] ==> Newest(log.delivered + queue, log.raised[|log.raised| - 1]))
  }

  ghost predicate Newest(s: seq<Data>, d: Data) {
    s != [] && s[|s| - 1] == d
  }

  /** The first k of n callbacks have been called with d on top of what is delivered. */
  ghost predicate Reached(log: Log, n: nat, k: nat, d: Option<Data>) {
    && |log.got| == |log.calls| == |log.seen| == n
    && forall c :: 0 <= c < n ==> log.got[c] == if c < k && d.Some? then log.delivered + [d.value] else log.delivered
  }

  /** No delivery is under way. */
  ghost predicate Even(log: Log, n: nat) {
    Reached(log, n, 0, None)
  }

  ghost predicate CalledMore(was: Log, now: Log) {
    |was.calls| == |now.calls| && forall c :: 0 <= c < |was.calls| ==> was.calls[c] < now.calls[c]
  }

  ghost predicate CalledNoLess(was: Log, now: Log) {
    |was.calls| == |now.calls| && forall c :: 0 <= c < |was.calls| ==> was.calls[c] <= now.calls[c]
  }

  /** The first k callbacks were called. */
  ghost predicate CalledUpTo(was: Log, now: Log, k: nat) {
    && CalledNoLess(was, now)
    && (forall c :: 0 <= c < |was.calls| && c < k ==> was.calls[c] < now.calls[c])
    && (forall c :: 0 <= c < |now.seen| && c < k ==> now.seen[c] == now.prepared)
  }

  /** The log after callback number k was called with d, or with NULL. */
  function Hand(log: Log, k: nat, d: Option<Data>): Log
    requires k < |log.got| == |log.calls| == |log.seen|
  {
    log.(got := if d.Some? then log.got[k := log.got[k] + [d.value]] else log.got,
         calls := log.calls[k := log.calls[k] + 1], seen := log.seen[k := log.prepared])
  }

  lemma HandReaches(was: Log, log: Log, n: nat, k: nat, d: Option<Data>)
    requires k < n && Reached(log, n, k, d) && CalledUpTo(was, log, k)
    ensures Reached(Hand(log, k, d), n, k + 1, d) && CalledUpTo(was, Hand(log, k, d), k + 1)
  {
  }

  /** Once every callback has had the head of the queue, it is delivered. */
  lemma HeadDelivered(keepAll: bool, log: Log, n: nat, queue: seq<Data>)
    requires Kept(keepAll, log, queue) && queue != [] && Reached(log, n, n, Some(queue[0]))
    ensures var done := log.(delivered := log.delivered + [queue[0]]);
            Kept(keepAll, done, queue[1..]) && Even(done, n)
  {
    assert log.delivered + queue == log.delivered + [queue[0]] + queue[1..];
  }

  /** A datum raised joins the queue, or takes the place of the one queued. */
  lemma RaiseKeeps(keepAll: bool, log: Log, queue: seq<Data>, d: Data)
    requires Kept(keepAll, log, queue)
    ensures Kept(keepAll, log.(raised := log.raised + [d]), (if keepAll then queue else []) + [d])
  {
    assert log.delivered + queue + [d] == log.delivered + (queue + [d]);
  }

  /** What can change of an alert. */
  datatype Snapshot = Snapshot(pending: bool, log: Log, nodes: seq<Node<Data>>)

  /** An alert before and after others may have raised it: nothing was delivered or cancelled, and any
      change is announced. If fix holds, what was queued is still the front of the queue. */
  ghost predicate OnlyRaised(fix: bool, was: Snapshot, now: Snapshot, announced: bool) {
    && now.log == was.log.(raised := now.log.raised) && was.log.raised <= now.log.raised
    && (fix ==> was.nodes <= now.nodes)
    && (was.pending ==> now.pending)
    && (now == was || (now.pending && announced))
  }

  /** An alert before and after some of its callbacks were called: like OnlyRaised, but for what the
      callbacks got. */
  ghost predicate Grown(fix: bool, was: Snapshot, now: Snapshot, announced: bool) {
    OnlyRaised(fix, was.(log := was.log.(got := now.log.got, calls := now.log.calls, seen := now.log.seen)), now,
               announced)
  }

  /** An alert before and after part of its processing: callbacks were called, and it may have been raised. */
  ghost predicate Served(was: Snapshot, now: Snapshot, announced: bool) {
    && CalledNoLess(was.log, now.log) && was.log.raised <= now.log.raised
    && (was.pending ==> now.pending) && (now.pending ==> was.pending || announced)
    && now.log.prepared == was.log.prepared && (UpToDate(was.log) ==> UpToDate(now.log))
  }

  lemma NothingServed(was: Snapshot, announced: bool)
    ensures Served(was, was, announced)
  {
  }

  lemma GrownIsServed(fix: bool, a: Snapshot, b: Snapshot, announced: bool)
    requires Grown(fix, a, b, announced) && CalledMore(a.log, b.log) && UpToDate(b.log)
    ensures Served(a, b, announced) && (fix ==> a.nodes <= b.nodes && (b.nodes == a.nodes || (b.pending && announced)))
  {
  }

  lemma RaisedIsServed(fix: bool, a: Snapshot, b: Snapshot, n: nat, announced: bool)
    requires OnlyRaised(fix, a, b, announced)
    requires Even(a.log, n)
    ensures Served(a, b, announced) && Even(b.log, n)
  {
  }

  lemma NullIsEven(log: Log, n: nat)
    requires Reached(log, n, n, None)
    ensures Even(log, n)
  {
  }

  lemma FirstHanded(log: Log, n: nat, d: Data)
    requires Even(log, n) && log.delivered == [] && 0 < n
    ensures 0 < |log.got| == |log.calls| == |log.seen| == n && Reached(log, n, 0, Some(d))
    ensures Hand(log, 0, Some(d)).got[0] == [d] && |Hand(log, 0, Some(d)).got| == n
    ensures Hand(log, 0, Some(d)).raised == log.raised
  {
    assert [] + [d] == [d];
  }

  lemma NoPrepare(log: Log)
    ensures AfterPrepare(false, log) == log
  {
  }

  lemma ServedTwice(a: Snapshot, b: Snapshot, c: Snapshot, first: bool, second: bool)
    requires Served(a, b, first) && Served(b, c, second) && (first ==> second)
    ensures Served(a, c, second)
    ensures CalledMore(b.log, c.log) || CalledMore(a.log, b.log) ==> CalledMore(a.log, c.log)
    ensures UpToDate(b.log) ==> UpToDate(c.log)
  {
  }

  /** Delivering the head of the queue does not undo what its calls did. */
  lemma DroppedIsServed(a: Snapshot, b: Snapshot, c: Snapshot, announced: bool)
    requires Served(a, b, announced) && CalledMore(a.log, b.log) && UpToDate(b.log)
    requires c == b.(nodes := c.nodes, log := b.log.(delivered := c.log.delivered))
    ensures Served(a, c, announced) && CalledMore(a.log, c.log) && UpToDate(c.log)
  {
  }

  lemma PreparingCallsNone(hasPrepare: bool, was: Log, now: Log)
    requires CalledMore(AfterPrepare(hasPrepare, was), now)
    ensures CalledMore(was, now)
  {
  }

  /** All alerts but number skip have at most been raised. */
  ghost predicate OthersRaised(all: seq<Alert>, current: int, skip: int, was: seq<Snapshot>, now: seq<Snapshot>,
                               announced: bool)
    requires |was| == |now| == |all|
  {
    forall j :: 0 <= j < |all| && j != skip ==> OnlyRaised(all[j].keepAll || j == current, was[j], now[j], announced)
  }

  lemma NothingRaised(all: seq<Alert>, current: int, skip: int, was: seq<Snapshot>, announced: bool)
    requires |was| == |all|
    ensures OthersRaised(all, current, skip, was, was, announced)
  {
  }

  lemma NothingGrown(fix: bool, was: Snapshot, announced: bool)
    ensures Grown(fix, was, was, announced)
  {
  }

  lemma OneRaised(all: seq<Alert>, current: int, i: nat, was: seq<Snapshot>, now: seq<Snapshot>, announced: bool)
    requires |was| == |now| == |all| && i < |all|
    requires OnlyRaised(all[i].keepAll || i == current, was[i], now[i], announced)
    requires forall j :: 0 <= j < |all| && j != i ==> was[j] == now[j]
    ensures OthersRaised(all, current, -1, was, now, announced)
  {
  }

  lemma RaisedTwice(all: seq<Alert>, current: int, skip: int, a: seq<Snapshot>, b: seq<Snapshot>, c: seq<Snapshot>,
                    first: bool, second: bool)
    requires |a| == |b| == |c| == |all| && (first ==> second)
    requires OthersRaised(all, current, skip, a, b, first) && OthersRaised(all, current, skip, b, c, second)
    ensures OthersRaised(all, current, skip, a, c, second)
  {
    forall j | 0 <= j < |all| && j != skip
      ensures OnlyRaised(all[j].keepAll || j == current, a[j], c[j], second)
    {
      assert OnlyRaised(all[j].keepAll || j == current, a[j], b[j], first);
    }
  }

  /** If the others have at most been raised so far, and the callback of number i acted after its own call,
      then number i has only been raised since the call, and the others only raised overall. */
  lemma ActedAfterCall(all: seq<Alert>, current: int, i: nat, was: seq<Snapshot>, mid: seq<Snapshot>,
                       now: seq<Snapshot>, announced: bool)
    requires |was| == |mid| == |now| == |all| && i < |all| && (current == i || current == -1)
    requires forall j :: 0 <= j < |all| && j != i ==> was[j] == mid[j]
    requires OthersRaised(all, current, -1, mid, now, announced)
    ensures OthersRaised(all, -1, i, was, now, announced)
    ensures OnlyRaised(all[i].keepAll || i == current, mid[i], now[i], announced)
  {
    forall j | 0 <= j < |all| && j != i ensures OnlyRaised(all[j].keepAll || j == -1, was[j], now[j], announced) {
      assert OnlyRaised(all[j].keepAll || j == current, mid[j], now[j], announced);
    }
  }

  lemma HandKeeps(keepAll: bool, log: Log, n: nat, k: nat, d: Option<Data>, queue: seq<Data>)
    requires k < n && Reached(log, n, k, d)
    ensures k < |log.got| == |log.calls| == |log.seen|
    ensures Kept(keepAll, Hand(log, k, d), queue) == Kept(keepAll, log, queue)
  {
  }

  /** One more callback called, and what it raised. */
  lemma GrownStep(fix: bool, a: Snapshot, b: Snapshot, c: Snapshot, n: nat, k: nat, d: Option<Data>,
                  first: bool, second: bool)
    requires Grown(fix, a, b, first) && (first ==> second) && k < n && Reached(b.log, n, k, d)
    requires CalledUpTo(a.log, b.log, k) && OnlyRaised(fix, b.(log := Hand(b.log, k, d)), c, second)
    ensures Grown(fix, a, c, second) && Reached(c.log, n, k + 1, d) && CalledUpTo(a.log, c.log, k + 1)
  {
    HandReaches(a.log, b.log, n, k, d);
  }

  lemma OthersSame(all: seq<Alert>, i: nat, a: seq<Snapshot>, b: seq<Snapshot>, c: seq<Snapshot>, announced: bool)
    requires |a| == |b| == |c| == |all| && OthersRaised(all, -1, i, a, b, announced)
    requires forall j :: 0 <= j < |all| && j != i ==> b[j] == c[j]
    ensures OthersRaised(all, -1, i, a, c, announced)
  {
    forall j | 0 <= j < |all| && j != i ensures OnlyRaised(all[j].keepAll || j == -1, a[j], c[j], announced) {
      assert OnlyRaised(all[j].keepAll || j == -1, a[j], b[j], announced);
    }
  }

  /** A pass over the alerts has reached number i: queued data are at pending alerts, and a pending alert
      is announced or still to come. */
  ghost predicate PassedTo(all: seq<Alert>, i: nat, s: seq<Snapshot>, announced: bool)
    requires |s| == |all|
  {
    forall j :: 0 <= j < |all| ==>
      && Even(s[j].log, all[j].callbacks) && (s[j].nodes != [] ==> s[j].pending)
      && (s[j].pending ==> announced || j >= i) && UpToDate(s[j].log)
  }

  lemma PassedAt(all: seq<Alert>, i: nat, s: seq<Snapshot>, announced: bool)
    requires |s| == |all| && i < |all| && PassedTo(all, i, s, announced)
    ensures Even(s[i].log, all[i].callbacks) && (s[i].nodes != [] ==> s[i].pending) && UpToDate(s[i].log)
  {
  }

  /** Everything that must have happened to an alert that was pending and is not any more: the prepare function has
      run, and all callbacks were called. */
  ghost predicate Attended(hasPrepare: bool, was: Log, now: Log) {
    CalledMore(was, now) && (hasPrepare ==> was.prepared < now.prepared)
  }

  /** Calls and data only become more, and a pending alert stays pending until it is prepared and all its
      callbacks were called. */
  ghost predicate Advanced(all: seq<Alert>, was: seq<Snapshot>, now: seq<Snapshot>)
    requires |was| == |now| == |all|
  {
    forall j :: 0 <= j < |all| ==>
      && CalledNoLess(was[j].log, now[j].log) && was[j].log.raised <= now[j].log.raised
      && was[j].log.prepared <= now[j].log.prepared
      && (was[j].pending ==> now[j].pending || Attended(all[j].hasPrepare, was[j].log, now[j].log))
  }

  lemma NotAdvanced(all: seq<Alert>, s: seq<Snapshot>)
    requires |s| == |all|
    ensures Advanced(all, s, s)
  {
  }

  lemma AdvancedTwice(all: seq<Alert>, a: seq<Snapshot>, b: seq<Snapshot>, c: seq<Snapshot>)
    requires |a| == |b| == |c| == |all| && Advanced(all, a, b) && Advanced(all, b, c)
    ensures Advanced(all, a, c)
  {
    forall j | 0 <= j < |all|
      ensures && CalledNoLess(a[j].log, c[j].log) && a[j].log.raised <= c[j].log.raised
              && a[j].log.prepared <= c[j].log.prepared
              && (a[j].pending ==> c[j].pending || Attended(all[j].hasPrepare, a[j].log, c[j].log))
    {
      assert CalledNoLess(a[j].log, b[j].log) && CalledNoLess(b[j].log, c[j].log);
    }
  }

  /** An alert once its processing has begun. */
  function Begun(s: Snapshot, hasPrepare: bool): Snapshot {
    if s.pending then s.(pending := false, log := AfterPrepare(hasPrepare, s.log)) else s
  }

  /** What processing alert number i does to all of them. */
  ghost predicate Processed(all: seq<Alert>, i: nat, was: seq<Snapshot>, now: seq<Snapshot>, announced: bool)
    requires |was| == |now| == |all| && i < |all|
  {
    && OthersRaised(all, -1, i, was, now, announced)
    && Served(Begun(was[i], all[i].hasPrepare), now[i], announced) && Even(now[i].log, all[i].callbacks)
    && (now[i].nodes != [] ==> now[i].pending) && UpToDate(now[i].log)
    && (was[i].pending ==> CalledMore(was[i].log, now[i].log))
  }

  /** Processing alert i moves the pass on. */
  lemma PassStep(all: seq<Alert>, i: nat, start: seq<Snapshot>, a: seq<Snapshot>, b: seq<Snapshot>,
                 first: bool, second: bool)
    requires |start| == |a| == |b| == |all| && i < |all| && (first ==> second)
    requires PassedTo(all, i, a, first) && Advanced(all, start, a) && Processed(all, i, a, b, second)
    ensures PassedTo(all, i + 1, b, second) && Advanced(all, start, b)
  {
    forall j | 0 <= j < |all| && j != i
      ensures && Even(b[j].log, all[j].callbacks) && (b[j].nodes != [] ==> b[j].pending)
              && (b[j].pending ==> second || j >= i) && CalledNoLess(a[j].log, b[j].log)
              && a[j].log.raised <= b[j].log.raised && (a[j].pending ==> b[j].pending)
              && a[j].log.prepared <= b[j].log.prepared && UpToDate(b[j].log)
    {
      assert OnlyRaised(all[j].keepAll || j == -1, a[j], b[j], second);
    }
    assert Advanced(all, a, b);
    AdvancedTwice(all, start, a, b);
  }

  /** Each callback has had everything raised, in order and once; without KEEP_ALL_DATA, the newest. */
  ghost predicate Received(keepAll: bool, log: Log, n: nat) {
    && |log.got| == n
    && forall c :: 0 <= c < n ==>
         if keepAll then log.got[c] == log.raised
         else log.raised != [] ==> Newest(log.got[c], log.raised[|log.raised| - 1])
  }

  lemma QuietHasReceived(keepAll: bool, log: Log, n: nat)
    requires Kept(keepAll, log, []) && Even(log, n)
    ensures Received(keepAll, log, n)
  {
    assert log.delivered + [] == log.delivered;
  }

  lemma EmptyIffNull(list: List<Data>)
    requires list.Valid()
    ensures list.nodes == [] <==> list.head == null
  {
  }

  /** struct cras_alert. Its callbacks are fixed. */
  class Alert {
    var pending: bool
    const keepAll: bool
    const hasPrepare: bool
    const callbacks: nat
    const data: List<Data>
    ghost var log: Log

    constructor (keepAll: bool, hasPrepare: bool, callbacks: nat)
      ensures !pending && data.Valid() && data.nodes == [] && fresh(data)
      ensures Even(log, callbacks) && Kept(keepAll, log, []) && log.raised == log.delivered == []
      ensures UpToDate(log) && log.prepared == 0
      ensures this.keepAll == keepAll && this.callbacks == callbacks && this.hasPrepare == hasPrepare
    {
      this.keepAll, this.hasPrepare, this.callbacks := keepAll, hasPrepare, callbacks;
      pending := false;
      data := new List();
      log := Log([], [], seq(callbacks, _ => []), seq(callbacks, _ => 0), 0, seq(callbacks, _ => 0));
    }

    ghost function Snap(): Snapshot
      reads this, data
    {
      Snapshot(pending, log, data.nodes)
    }

    ghost function Queue(): seq<Data>
      reads data
    {
      Items(data.nodes)
    }

    ghost predicate Consistent()
      reads this, data
    {
      Kept(keepAll, log, Queue())
    }
  }

  /** all_alerts and has_alert_pending. The budget is the number of times callbacks and prepare functions
      will still raise an alert; each list node belongs to one list for life. */
  class Alerts {
    var hasAlertPending: bool
    const all: seq<Alert>
    var budget: nat
    ghost var owner: map<Node<Data>, List<Data>>

    /** The alerts are separate objects. */
    ghost predicate Separate() {
      forall i, j :: 0 <= i < j < |all| ==> all[i] != all[j] && all[i].data != all[j].data
    }

    ghost predicate Owns(list: List<Data>)
      reads this`owner, list
    {
      forall n :: n in list.nodes ==> n in owner && owner[n] == list
    }

    ghost function Lists(): set<List<Data>> {
      set i | 0 <= i < |all| :: all[i].data
    }

    ghost predicate Wired()
      reads this`owner, Lists(), owner.Keys
    {
      && Separate()
      && (forall i :: 0 <= i < |all| ==> Owns(all[i].data) && all[i].data.Valid())
    }

    /** cras_alert_pending. */
    method Pending(alert: Alert)
      modifies this`hasAlertPending, alert`pending
      ensures alert.pending && hasAlertPending && alert.Consistent() == old(alert.Consistent())
      ensures forall fix :: OnlyRaised(fix, old(alert.Snap()), alert.Snap(), hasAlertPending)
    {
      alert.pending := true;
      hasAlertPending := true;
    }

    /** cras_alert_pending_data. */
    method PendingData(alert: Alert, d: Data)
      requires alert.data.Valid() && alert.Consistent() && Owns(alert.data)
      modifies this`hasAlertPending, this`owner, alert, alert.data, alert.data.nodes
      ensures alert.data.Valid() && alert.Consistent() && Owns(alert.data) && alert.pending && hasAlertPending
      ensures alert.log == old(alert.log).(raised := old(alert.log).raised + [d])
      ensures |alert.data.nodes| == (if alert.keepAll then old(|alert.data.nodes|) else 0) + 1
      ensures alert.data.nodes[|alert.data.nodes| - 1].item == d
      ensures OnlyRaised(alert.keepAll, old(alert.Snap()), alert.Snap(), hasAlertPending)
      ensures forall n :: n in old(alert.data.nodes) ==> (n in alert.data.nodes <==> alert.keepAll)
      ensures old(owner.Keys) <= owner.Keys && fresh(owner.Keys - old(owner.Keys))
      ensures forall n :: n in old(owner.Keys) ==> owner[n] == old(owner[n])
    {
      hide Kept, Items, List.Valid;
      EmptyIffNull(alert.data);
      alert.pending := true;
      hasAlertPending := true;
      var node := new Node(d);
      RaiseKeeps(alert.keepAll, alert.log, alert.Queue(), d);
      if !alert.keepAll && alert.data.head != null {
        alert.data.Clear();
      }
      ItemsSnoc(alert.data.nodes, node);
      alert.data.Append(node);
      alert.log := alert.log.(raised := alert.log.raised + [d]);
      owner := owner[node := alert.data];
    }

    ghost function Snaps(): (s: seq<Snapshot>)
      reads all, Lists()
      ensures |s| == |all|
    {
      seq(|all|, i requires 0 <= i < |all| reads all, Lists() => all[i].Snap())
    }

    ghost predicate Consistent()
      reads all, Lists()
    {
      forall i :: 0 <= i < |all| ==> all[i].Consistent()
    }

    /** What does not go back. */
    twostate predicate Onward()
      reads this
    {
      && budget <= old(budget) && (budget == old(budget) ==> hasAlertPending == old(hasAlertPending))
      && (old(hasAlertPending) ==> hasAlertPending)
      && old(owner.Keys) <= owner.Keys && fresh(owner.Keys - old(owner.Keys))
    }

    /** Alerts other than number skip have at most been raised. The alert whose datum is being delivered,
        current, keeps the front of its queue. */
    twostate predicate Meanwhile(current: int, skip: int)
      reads this, all, Lists()
    {
      Onward() && OthersRaised(all, current, skip, old(Snaps()), Snaps(), hasAlertPending)
    }

    lemma Apart(i: nat, j: nat)
      requires Wired() && i < |all| && j < |all| && i != j
      ensures all[i] != all[j] && all[i].data != all[j].data
      ensures forall n :: n in all[j].data.nodes ==> n !in all[i].data.nodes
    {
      assert Owns(all[i].data) && Owns(all[j].data);
    }

    lemma Apartness(i: nat)
      requires Wired() && i < |all|
      ensures forall j :: 0 <= j < |all| && j != i ==> all[j] != all[i]
    {
    }

    lemma Owned(i: nat)
      requires Wired() && i < |all|
      ensures forall n :: n in all[i].data.nodes ==> n in owner.Keys
    {
      assert Owns(all[i].data);
    }

    ghost predicate SameBut(i: nat, was: seq<Snapshot>)
      requires |was| == |all|
      reads all, Lists()
    {
      forall j :: 0 <= j < |all| && j != i ==> was[j] == all[j].Snap()
    }

    /** Raising one alert leaves all others alone. */
    method RaiseData(i: nat, d: Data)
      requires Wired() && Consistent() && i < |all|
      modifies this`hasAlertPending, this`owner, all[i], all[i].data, all[i].data.nodes
      ensures Wired() && Consistent() && SameBut(i, old(Snaps())) && hasAlertPending
      ensures old(owner.Keys) <= owner.Keys && fresh(owner.Keys - old(owner.Keys))
      ensures OnlyRaised(all[i].keepAll, old(all[i].Snap()), all[i].Snap(), true)
      ensures all[i].pending && all[i].log == old(all[i].log).(raised := old(all[i].log).raised + [d])
      ensures |all[i].data.nodes| == (if all[i].keepAll then old(|all[i].data.nodes|) else 0) + 1
      ensures all[i].data.nodes[|all[i].data.nodes| - 1].item == d
      ensures forall n :: n in old(all[i].data.nodes) ==> (n in all[i].data.nodes <==> all[i].keepAll)
    {
      hide Kept, Alert.Consistent, Alert.Queue, Items, List.Valid, OnlyRaised, Separate;
      forall j | 0 <= j < |all| && j != i
        ensures all[i] != all[j] && all[i].data != all[j].data
        ensures forall n :: n in all[j].data.nodes ==> n !in all[i].data.nodes
      {
        Apart(i, j);
      }
      PendingData(all[i], d);
    }

    method RaiseBare(i: nat)
      requires Wired() && Consistent() && i < |all|
      modifies this`hasAlertPending, all[i]
      ensures Wired() && Consistent() && SameBut(i, old(Snaps())) && hasAlertPending
      ensures forall fix :: OnlyRaised(fix, old(all[i].Snap()), all[i].Snap(), true)
      ensures all[i].Snap() == old(all[i].Snap()).(pending := true)
    {
      hide Kept, Alert.Consistent, Alert.Queue, Items, List.Valid, OnlyRaised;
      Pending(all[i]);
    }

    /** One alert is raised from within a callback or a prepare function. If it has new data, is the alert whose
        datum is being delivered, and lacks KEEP_ALL_DATA, the code frees the node in delivery, which it goes on
        to use: the result is false, and nothing is said of what follows. */
    method Raise(current: int, i: nat, withData: bool, d: Data) returns (ok: bool)
      requires Wired() && Consistent() && budget > 0 && i < |all|
      modifies this`hasAlertPending, this`owner, this`budget, all, Lists(), owner.Keys
      ensures ok <==> !withData || all[i].keepAll || i != current
      ensures 0 <= current < |all| ==>
                forall n :: n in old(all[current].data.nodes) ==> (n in all[current].data.nodes <==> ok)
      ensures ok ==> Wired() && Consistent() && Meanwhile(current, -1) && budget == old(budget) - 1
      ensures all[i].pending && hasAlertPending
      ensures all[i].log == old(all[i].log).(raised := old(all[i].log.raised) + if withData then [d] else [])
    {
      hide Alert.Consistent, Consistent, Wired, Owns, List.Valid, OnlyRaised, OthersRaised, Separate;
      Owned(i);
      if withData {
        RaiseData(i, d);
      } else {
        RaiseBare(i);
      }
      budget := budget - 1;
      ok := !withData || all[i].keepAll || i != current;
      NodesStay(current, i, old(Snaps()));
      if ok {
        OneRaised(all, current, i, old(Snaps()), Snaps(), hasAlertPending);
      }
    }

    lemma NodesStay(current: int, i: nat, was: seq<Snapshot>)
      requires |was| == |all| && SameBut(i, was)
      ensures 0 <= current < |all| && current != i ==> all[current].data.nodes == was[current].nodes
    {
    }

    /** Some alert lacks KEEP_ALL_DATA. */
    ghost predicate SomeReplaces() {
      exists i :: 0 <= i < |all| && !all[i].keepAll
    }

    /** The body of a callback or of a prepare function, as far as this file can see it. */
    method Act(current: int) returns (ok: bool)
      requires Wired() && Consistent()
      modifies this`hasAlertPending, this`owner, this`budget, all, Lists(), owner.Keys
      ensures !ok ==> SomeReplaces() && current >= 0
      ensures ok ==> Wired() && Consistent() && Meanwhile(current, -1)
      ensures ok ==> budget == old(budget) ==> Snaps() == old(Snaps())
    {
      hide Kept, Alert.Consistent, Alert.Queue, Items, List.Valid, OthersRaised, Separate, Owns, Alert.Snap;
      NothingRaised(all, current, -1, Snaps(), hasAlertPending);
      ok := true;
      while budget > 0
        invariant ok && Wired() && Consistent() && Meanwhile(current, -1)
        invariant budget == old(budget) ==> Snaps() == old(Snaps())
        decreases budget
      {
        var i: nat, withData: bool, d: Data := *, *, *;
        if i >= |all| {
          break;
        }
        ghost var was, announced := Snaps(), hasAlertPending;
        ok := Raise(current, i, withData, d);
        if !ok {
          return;
        }
        RaisedTwice(all, current, -1, old(Snaps()), was, Snaps(), announced, hasAlertPending);
      }
    }

    /** Callback number k of alert i gets its argument. */
    method HandTo(i: nat, k: nat, d: Option<Data>)
      requires Wired() && Consistent() && i < |all|
      requires k < all[i].callbacks && Reached(all[i].log, all[i].callbacks, k, d)
      modifies all[i]
      ensures Wired() && Consistent()
      ensures Snaps() == old(Snaps())[i := old(all[i].Snap()).(log := Hand(old(all[i].log), k, d))]
    {
      hide Kept, List.Valid, Hand, Items, Reached, Separate, Owns;
      HandKeeps(all[i].keepAll, all[i].log, all[i].callbacks, k, d, all[i].Queue());
      Apartness(i);
      all[i].log := Hand(all[i].log, k, d);
      assert all[i].Queue() == old(all[i].Queue());
      forall j | 0 <= j < |all| ensures all[j].Consistent() {
        assert old(all[j].Consistent());
      }
    }

    /** Callback number k of alert i is called, and then acts. */
    method Call(i: nat, k: nat, d: Option<Data>, current: int) returns (ok: bool)
      requires Wired() && Consistent() && i < |all| && (current == i || current == -1)
      requires k < all[i].callbacks && Reached(all[i].log, all[i].callbacks, k, d)
      modifies this`hasAlertPending, this`owner, this`budget, all, Lists(), owner.Keys
      ensures !ok ==> SomeReplaces() && current >= 0
      ensures ok ==> Wired() && Consistent() && Meanwhile(-1, i)
      ensures ok ==> OnlyRaised(all[i].keepAll || i == current, old(all[i].Snap()).(log := Hand(old(all[i].log), k, d)),
                         all[i].Snap(), hasAlertPending)
      ensures ok ==> budget == old(budget) ==> all[i].data.nodes == old(all[i].data.nodes)
    {
      hide Kept, List.Valid, OthersRaised, OnlyRaised, Wired, Hand, Items, Reached, Consistent, Alert.Consistent;
      HandTo(i, k, d);
      ghost var mid := Snaps();
      ok := Act(current);
      if !ok {
        return;
      }
      ActedAfterCall(all, current, i, old(Snaps()), mid, Snaps(), hasAlertPending);
    }

    /** DL_FOREACH over the callbacks of alert i. */
    method CallAll(i: nat, d: Option<Data>, current: int) returns (ok: bool)
      requires Wired() && Consistent() && i < |all| && (current == i || current == -1)
      requires Even(all[i].log, all[i].callbacks)
      modifies this`hasAlertPending, this`owner, this`budget, all, Lists(), owner.Keys
      ensures !ok ==> SomeReplaces() && current >= 0
      ensures ok ==> Wired() && Consistent() && Meanwhile(-1, i)
      ensures ok ==> Reached(all[i].log, all[i].callbacks, all[i].callbacks, d)
      ensures ok ==> CalledMore(old(all[i].log), all[i].log) && UpToDate(all[i].log)
      ensures ok ==> Grown(all[i].keepAll || i == current, old(all[i].Snap()), all[i].Snap(), hasAlertPending)
      ensures ok ==> budget == old(budget) ==> all[i].data.nodes == old(all[i].data.nodes)
    {
      hide Kept, List.Valid, OthersRaised, OnlyRaised, Wired, Hand, Items, Alert.Consistent, Consistent, Snaps;
      NothingRaised(all, -1, i, Snaps(), hasAlertPending);
      NothingGrown(all[i].keepAll || i == current, all[i].Snap(), hasAlertPending);
      ok := true;
      for k := 0 to all[i].callbacks
        invariant ok && Wired() && Consistent() && Meanwhile(-1, i)
        invariant Reached(all[i].log, all[i].callbacks, k, d) && CalledUpTo(old(all[i].log), all[i].log, k)
        invariant Grown(all[i].keepAll || i == current, old(all[i].Snap()), all[i].Snap(), hasAlertPending)
        invariant budget == old(budget) ==> all[i].data.nodes == old(all[i].data.nodes)
      {
        ghost var was, here, announced := Snaps(), all[i].Snap(), hasAlertPending;
        ok := Call(i, k, d, current);
        if !ok {
          return;
        }
        RaisedTwice(all, -1, i, old(Snaps()), was, Snaps(), announced, hasAlertPending);
        GrownStep(all[i].keepAll || i == current, old(all[i].Snap()), here, all[i].Snap(), all[i].callbacks, k, d,
                  announced, hasAlertPending);
      }
    }

    lemma FrontOfQueue(i: nat)
      requires Wired() && i < |all|
      ensures var list := all[i].data;
              if list.nodes == [] then list.head == null
              else list.head == list.nodes[0] && list.head.next == if |list.nodes| == 1 then null else list.nodes[1]
    {
      var list := all[i].data;
      assert list.Valid();
      assert |list.nodes| > 1 ==> list.nodes[0].next == list.nodes[1];
    }

    method DropHead(i: nat, el: Node<Data>)
      requires Wired() && i < |all| && all[i].data.nodes != [] && el == all[i].data.nodes[0]
      modifies all[i].data, all[i].data.nodes
      ensures Wired() && all[i].data.nodes == old(all[i].data.nodes)[1..]
      ensures forall j :: 0 <= j < |all| && j != i ==> all[j].data.nodes == old(all[j].data.nodes)
    {
      hide Separate;
      forall j | 0 <= j < |all| && j != i
        ensures all[i] != all[j] && all[i].data != all[j].data
        ensures forall n :: n in all[j].data.nodes ==> n !in all[i].data.nodes
      {
        Apart(i, j);
      }
      assert Owns(all[i].data);
      all[i].data.Delete(el, 0);
      assert forall n :: n in all[i].data.nodes ==> n in old(all[i].data.nodes);
      forall j | 0 <= j < |all| && j != i ensures all[j].data.Valid() {
        assert old(all[j].data.Valid());
        assert forall n :: n in all[j].data.nodes ==> old(allocated(n)) && n !in old(all[i].data.nodes);
        assert all[j].data.nodes == old(all[j].data.nodes);
        assert forall n :: n in all[j].data.nodes ==> n.next == old(n.next);
        assert forall n :: n in all[j].data.nodes ==> n.prev == old(n.prev);
      }
    }

    /** Every callback has had the datum at the head: it leaves the queue. */
    method RemoveHead(i: nat, el: Node<Data>)
      requires Wired() && Consistent() && i < |all| && all[i].data.nodes != [] && el == all[i].data.nodes[0]
      requires Reached(all[i].log, all[i].callbacks, all[i].callbacks, Some(el.item))
      modifies all, Lists(), owner.Keys
      ensures Wired() && Consistent() && Even(all[i].log, all[i].callbacks) && SameBut(i, old(Snaps()))
      ensures var log := old(all[i].log).(delivered := old(all[i].log).delivered + [el.item]);
              all[i].Snap() == old(all[i].Snap()).(nodes := old(all[i].data.nodes)[1..], log := log)
    {
      hide Kept, List.Valid, OnlyRaised, Wired, Even, Reached, Items;
      Apartness(i);
      Owned(i);
      ItemsTail(all[i].data.nodes);
      HeadDelivered(all[i].keepAll, all[i].log, all[i].callbacks, all[i].Queue());
      all[i].log := all[i].log.(delivered := all[i].log.delivered + [el.item]);
      DropHead(i, el);
    }

    /** One round of the data loop of cras_alert_process: the datum goes to every callback, then leaves the
        queue. The next node is remembered before the callbacks run, so what they append behind the last
        node waits, at a pending alert. */
    method DeliverHead(i: nat, el: Node<Data>) returns (ok: bool, next: Node?<Data>)
      requires Wired() && Consistent() && i < |all| && Even(all[i].log, all[i].callbacks)
      requires all[i].data.nodes != [] && el == all[i].data.nodes[0]
      modifies this`hasAlertPending, this`owner, this`budget, all, Lists(), owner.Keys
      ensures !ok ==> SomeReplaces()
      ensures ok ==> Wired() && Consistent() && Meanwhile(-1, i) && Even(all[i].log, all[i].callbacks)
      ensures ok ==> Served(old(all[i].Snap()), all[i].Snap(), hasAlertPending)
      ensures ok ==> CalledMore(old(all[i].log), all[i].log) && UpToDate(all[i].log)
      ensures ok ==> next != null ==> all[i].data.nodes != [] && next == all[i].data.nodes[0]
      ensures ok ==> next == null && all[i].data.nodes != [] ==> all[i].pending && hasAlertPending
      ensures ok ==> budget == old(budget) ==> |all[i].data.nodes| == old(|all[i].data.nodes|) - 1
    {
      hide Kept, OthersRaised, OnlyRaised, Wired, Hand, Items, Alert.Consistent, Consistent, Even, Reached, List.Valid;
      hide Served, CalledMore, UpToDate;
      FrontOfQueue(i);
      next := el.next;
      ok := CallAll(i, Some(el.item), i);
      if !ok {
        return;
      }
      ghost var was := Snaps();
      Owned(i);
      GrownIsServed(true, old(all[i].Snap()), all[i].Snap(), hasAlertPending);
      RemoveHead(i, el);
      OthersSame(all, i, old(Snaps()), was, Snaps(), hasAlertPending);
      DroppedIsServed(old(all[i].Snap()), was[i], all[i].Snap(), hasAlertPending);
    }

    /** The data loop. */
    method Deliver(i: nat) returns (ok: bool)
      requires Wired() && Consistent() && i < |all| && Even(all[i].log, all[i].callbacks)
      modifies this`hasAlertPending, this`owner, this`budget, all, Lists(), owner.Keys
      ensures !ok ==> SomeReplaces()
      ensures ok ==> Wired() && Consistent() && Meanwhile(-1, i) && Even(all[i].log, all[i].callbacks)
      ensures ok ==> all[i].data.nodes != [] ==> all[i].pending && hasAlertPending
      ensures ok ==> Served(old(all[i].Snap()), all[i].Snap(), hasAlertPending)
      ensures ok ==> old(all[i].data.nodes) != [] ==> CalledMore(old(all[i].log), all[i].log) && UpToDate(all[i].log)
    {
      hide Kept, OthersRaised, OnlyRaised, Wired, Hand, Items, Alert.Consistent, Consistent, Even, Reached, Served;
      hide CalledMore, List.Valid, Snaps;
      NothingRaised(all, -1, i, Snaps(), hasAlertPending);
      NothingServed(all[i].Snap(), hasAlertPending);
      FrontOfQueue(i);
      ghost var first := true;
      var el := all[i].data.head;
      ok := true;
      while el != null
        invariant ok && Wired() && Consistent() && Meanwhile(-1, i) && Even(all[i].log, all[i].callbacks)
        invariant Served(old(all[i].Snap()), all[i].Snap(), hasAlertPending)
        invariant if first then all[i].data.nodes == old(all[i].data.nodes)
                  else CalledMore(old(all[i].log), all[i].log) && UpToDate(all[i].log)
        invariant el == null && first ==> all[i].data.nodes == []
        invariant el != null ==> all[i].data.nodes != [] && el == all[i].data.nodes[0]
        invariant el == null && all[i].data.nodes != [] ==> all[i].pending && hasAlertPending
        decreases budget, |all[i].data.nodes|
      {
        ghost var was, here, announced := Snaps(), all[i].Snap(), hasAlertPending;
        ok, el := DeliverHead(i, el);
        if !ok {
          return;
        }
        RaisedTwice(all, -1, i, old(Snaps()), was, Snaps(), announced, hasAlertPending);
        ServedTwice(old(all[i].Snap()), here, all[i].Snap(), announced, hasAlertPending);
        first := false;
      }
    }

    /** The prepare function of alert i is about to run. */
    method CountPrepare(i: nat)
      requires Wired() && Consistent() && i < |all| && Even(all[i].log, all[i].callbacks)
      modifies all[i]
      ensures Wired() && Consistent() && Even(all[i].log, all[i].callbacks) && SameBut(i, old(Snaps()))
      ensures all[i].Snap() == old(all[i].Snap()).(log := AfterPrepare(true, old(all[i].log)))
    {
      Apartness(i);
      all[i].log := AfterPrepare(true, all[i].log);
      forall j | 0 <= j < |all| ensures all[j].Consistent() {
        assert old(all[j].Consistent());
      }
    }

    /** The call of the prepare function, if there is one. */
    method Prepare(i: nat)
      requires Wired() && Consistent() && i < |all| && Even(all[i].log, all[i].callbacks)
      modifies this`hasAlertPending, this`owner, this`budget, all, Lists(), owner.Keys
      ensures Wired() && Consistent() && Meanwhile(-1, i) && Even(all[i].log, all[i].callbacks)
      ensures Served(old(all[i].Snap()).(log := AfterPrepare(all[i].hasPrepare, old(all[i].log))), all[i].Snap(),
                     hasAlertPending)
    {
      hide Kept, OthersRaised, OnlyRaised, Wired, Items, Alert.Consistent, Consistent, Reached, Even, Served;
      hide AfterPrepare;
      NothingRaised(all, -1, i, Snaps(), hasAlertPending);
      NothingServed(all[i].Snap(), hasAlertPending);
      NoPrepare(all[i].log);
      if all[i].hasPrepare {
        CountPrepare(i);
        ghost var ready := Snaps();
        OthersSame(all, i, old(Snaps()), old(Snaps()), ready, hasAlertPending);
        var _ := Act(-1);
        ActedAfterCall(all, -1, i, old(Snaps()), ready, Snaps(), hasAlertPending);
        RaisedIsServed(all[i].keepAll, ready[i], all[i].Snap(), all[i].callbacks, hasAlertPending);
      }
    }

    /** All callbacks with NULL. */
    method CallWithNull(i: nat)
      requires Wired() && Consistent() && i < |all| && Even(all[i].log, all[i].callbacks)
      modifies this`hasAlertPending, this`owner, this`budget, all, Lists(), owner.Keys
      ensures Wired() && Consistent() && Meanwhile(-1, i) && Even(all[i].log, all[i].callbacks)
      ensures Served(old(all[i].Snap()), all[i].Snap(), hasAlertPending) && CalledMore(old(all[i].log), all[i].log)
      ensures UpToDate(all[i].log)
    {
      hide Kept, OthersRaised, OnlyRaised, Wired, Items, Alert.Consistent, Consistent, Reached, Even, Served;
      hide CalledMore, List.Valid, Grown, Hand;
      var _ := CallAll(i, None, -1);
      GrownIsServed(all[i].keepAll, old(all[i].Snap()), all[i].Snap(), hasAlertPending);
      NullIsEven(all[i].log, all[i].callbacks);
    }

    /** All callbacks with NULL if there are no data, then all data to all callbacks. */
    method Notify(i: nat) returns (ok: bool)
      requires Wired() && Consistent() && i < |all| && Even(all[i].log, all[i].callbacks)
      modifies this`hasAlertPending, this`owner, this`budget, all, Lists(), owner.Keys
      ensures !ok ==> SomeReplaces()
      ensures ok ==> Wired() && Consistent() && Meanwhile(-1, i) && Even(all[i].log, all[i].callbacks)
      ensures ok ==> Served(old(all[i].Snap()), all[i].Snap(), hasAlertPending)
      ensures ok ==> CalledMore(old(all[i].log), all[i].log) && UpToDate(all[i].log)
      ensures ok ==> all[i].data.nodes != [] ==> all[i].pending
    {
      hide Kept, OthersRaised, OnlyRaised, Wired, Items, Alert.Consistent, Consistent, Reached, Even, Served;
      hide CalledMore, List.Valid, Grown, Hand, UpToDate;
      FrontOfQueue(i);
      if all[i].data.head == null {
        CallWithNull(i);
        ghost var was, announced := Snaps(), hasAlertPending;
        ok := Deliver(i);
        if !ok {
          return;
        }
        RaisedTwice(all, -1, i, old(Snaps()), was, Snaps(), announced, hasAlertPending);
        ServedTwice(old(all[i].Snap()), was[i], all[i].Snap(), announced, hasAlertPending);
      } else {
        ok := Deliver(i);
        if !ok {
          return;
        }
      }
    }

    method PrepareAndNotify(i: nat) returns (ok: bool)
      requires Wired() && Consistent() && i < |all| && Even(all[i].log, all[i].callbacks)
      modifies this`hasAlertPending, this`owner, this`budget, all, Lists(), owner.Keys
      ensures !ok ==> SomeReplaces()
      ensures ok ==> Wired() && Consistent() && Meanwhile(-1, i) && Even(all[i].log, all[i].callbacks)
      ensures ok ==> Served(old(all[i].Snap()).(log := AfterPrepare(all[i].hasPrepare, old(all[i].log))), all[i].Snap(),
                     hasAlertPending)
      ensures ok ==> CalledMore(old(all[i].log), all[i].log) && UpToDate(all[i].log)
      ensures ok ==> all[i].data.nodes != [] ==> all[i].pending
    {
      hide Kept, OthersRaised, OnlyRaised, Wired, Items, Alert.Consistent, Consistent, Reached, Even, Served;
      hide CalledMore, List.Valid, AfterPrepare, UpToDate;
      Prepare(i);
      ghost var was, announced := Snaps(), hasAlertPending;
      ok := Notify(i);
      if !ok {
        return;
      }
      RaisedTwice(all, -1, i, old(Snaps()), was, Snaps(), announced, hasAlertPending);
      ServedTwice(old(all[i].Snap()).(log := AfterPrepare(all[i].hasPrepare, old(all[i].log))), was[i], all[i].Snap(),
                  announced, hasAlertPending);
      PreparingCallsNone(all[i].hasPrepare, old(all[i].log), all[i].log);
    }

    method Clear(i: nat)
      requires Wired() && Consistent() && i < |all|
      modifies all
      ensures Wired() && Consistent() && SameBut(i, old(Snaps()))
      ensures all[i].Snap() == old(all[i].Snap()).(pending := false)
    {
      hide Kept, List.Valid;
      Apartness(i);
      all[i].pending := false;
    }

    /** cras_alert_process for alert i: whatever is queued or raised by the time the data loop ends is
        delivered, or queued at a pending alert; every callback of a pending alert is called. */
    method Process(i: nat) returns (ok: bool)
      requires Wired() && Consistent() && i < |all| && PassedTo(all, i, Snaps(), hasAlertPending)
      modifies this`hasAlertPending, this`owner, this`budget, all, Lists(), owner.Keys
      ensures !ok ==> SomeReplaces()
      ensures ok ==> Wired() && Consistent() && Onward() && Processed(all, i, old(Snaps()), Snaps(), hasAlertPending)
    {
      hide Kept, OthersRaised, OnlyRaised, Wired, Items, Alert.Consistent, Consistent, Reached, Even, Served;
      hide CalledMore, List.Valid, PassedTo;
      PassedAt(all, i, Snaps(), hasAlertPending);
      NothingRaised(all, -1, i, Snaps(), hasAlertPending);
      NothingServed(old(all[i].Snap()), hasAlertPending);
      ok := true;
      if all[i].pending {
        Clear(i);
        ghost var cleared, announced := Snaps(), hasAlertPending;
        OthersSame(all, i, old(Snaps()), old(Snaps()), cleared, announced);
        ok := PrepareAndNotify(i);
        if !ok {
          return;
        }
        RaisedTwice(all, -1, i, old(Snaps()), cleared, Snaps(), announced, hasAlertPending);
      }
    }

    /** Between calls: nothing raised is lost, no delivery is under way, data are queued only at a pending
        alert, and a pending alert is announced. */
    ghost predicate Valid()
      reads this, all, Lists(), owner.Keys
    {
      Wired() && Consistent() && PassedTo(all, |all|, Snaps(), hasAlertPending)
    }

    /** A system of new alerts. */
    constructor (all: seq<Alert>, budget: nat)
      requires forall i, j :: 0 <= i < j < |all| ==> all[i] != all[j] && all[i].data != all[j].data
      requires forall i :: 0 <= i < |all| ==>
                 && all[i].data.Valid() && all[i].data.nodes == [] && !all[i].pending
                 && all[i].Consistent() && Even(all[i].log, all[i].callbacks) && UpToDate(all[i].log)
      ensures Valid() && this.all == all && this.budget == budget && !hasAlertPending && owner == map[]
    {
      this.all, this.budget, hasAlertPending, owner := all, budget, false, map[];
    }

    /** One turn of DL_FOREACH over all alerts. */
    method Pass() returns (ok: bool)
      requires Wired() && Consistent() && PassedTo(all, 0, Snaps(), hasAlertPending)
      modifies this`hasAlertPending, this`owner, this`budget, all, Lists(), owner.Keys
      ensures !ok ==> SomeReplaces()
      ensures ok ==> Valid() && Onward() && Advanced(all, old(Snaps()), Snaps())
    {
      hide Kept, OthersRaised, OnlyRaised, Wired, Items, Alert.Consistent, Consistent, Reached, Even, Served;
      hide CalledMore, List.Valid, PassedTo, Advanced, Processed, Snaps;
      NotAdvanced(all, Snaps());
      ok := true;
      for i := 0 to |all|
        invariant ok && Wired() && Consistent() && PassedTo(all, i, Snaps(), hasAlertPending)
        invariant Onward() && Advanced(all, old(Snaps()), Snaps())
      {
        ghost var was, announced := Snaps(), hasAlertPending;
        ok := Process(i);
        if !ok {
          return;
        }
        PassStep(all, i, old(Snaps()), was, Snaps(), announced, hasAlertPending);
      }
    }

    lemma Opened(i: nat)
      requires Valid() && i < |all|
      ensures Wired() && Consistent() && Even(all[i].log, all[i].callbacks)
    {
      hide Wired, Consistent, Even;
      PassedAt(all, i, Snaps(), hasAlertPending);
    }

    /** cras_alert_pending_data between calls. */
    method RaiseBetweenCalls(i: nat, d: Data)
      requires Valid() && i < |all|
      modifies this`hasAlertPending, this`owner, all, Lists(), owner.Keys
      ensures Valid() && hasAlertPending && SameBut(i, old(Snaps()))
      ensures all[i].pending && all[i].log == old(all[i].log).(raised := old(all[i].log).raised + [d])
      ensures |all[i].data.nodes| == (if all[i].keepAll then old(|all[i].data.nodes|) else 0) + 1
      ensures all[i].data.nodes[|all[i].data.nodes| - 1].item == d
      ensures old(owner.Keys) <= owner.Keys && fresh(owner.Keys - old(owner.Keys))
    {
      hide Kept, Alert.Consistent, Consistent, Wired, Items, Even, OnlyRaised, Owns, List.Valid, PassedTo;
      ghost var was, announced := Snaps(), hasAlertPending;
      Owned(i);
      RaiseData(i, d);
      OneRaised(all, -1, i, was, Snaps(), hasAlertPending);
      RaisedStaysValid(-1, was, announced);
    }

    /** With nothing announced, nothing is pending and every callback has had its data. */
    lemma Quiet()
      requires Valid() && !hasAlertPending
      ensures forall i :: 0 <= i < |all| ==>
                && !all[i].pending && all[i].data.nodes == []
                && Received(all[i].keepAll, all[i].log, all[i].callbacks) && UpToDate(all[i].log)
    {
      forall i | 0 <= i < |all|
        ensures && !all[i].pending && all[i].data.nodes == []
                && Received(all[i].keepAll, all[i].log, all[i].callbacks) && UpToDate(all[i].log)
      {
        PassedAt(all, i, Snaps(), false);
        assert !Snaps()[i].pending && all[i].Consistent();
        QuietHasReceived(all[i].keepAll, all[i].log, all[i].callbacks);
      }
    }

    /** One turn of the loop of cras_alert_process_all_pending_alerts. */
    method Round() returns (ok: bool)
      requires Valid() && hasAlertPending
      modifies this`hasAlertPending, this`owner, this`budget, all, Lists(), owner.Keys
      ensures !ok ==> SomeReplaces()
      ensures ok ==> Valid() && Advanced(all, old(Snaps()), Snaps())
      ensures ok ==> budget <= old(budget) && (budget == old(budget) ==> !hasAlertPending)
      ensures ok ==> old(owner.Keys) <= owner.Keys && fresh(owner.Keys - old(owner.Keys))
    {
      hide Kept, Wired, Items, Alert.Consistent, Consistent, Even, CalledMore, CalledNoLess, List.Valid, Advanced;
      hide OthersRaised, SomeReplaces;
      hasAlertPending := false;
      ok := Pass();
    }

    /** cras_alert_process_all_pending_alerts: it ends because the callbacks raise finitely often, and then
        no alert is pending, every datum raised before or meanwhile was received, and the callbacks of every
        alert that was pending were called. The result is false if a callback made the code free a node in
        delivery, which takes an alert without KEEP_ALL_DATA. */
    method ProcessAllPendingAlerts() returns (ok: bool)
      requires Valid()
      modifies this`hasAlertPending, this`owner, this`budget, all, Lists(), owner.Keys
      ensures !ok ==> SomeReplaces()
      ensures ok ==> Valid() && !hasAlertPending && Advanced(all, old(Snaps()), Snaps())
      ensures ok ==> forall i :: 0 <= i < |all| ==>
                && !all[i].pending && all[i].data.nodes == []
                && Received(all[i].keepAll, all[i].log, all[i].callbacks) && UpToDate(all[i].log)
    {
      hide Kept, Wired, Items, Alert.Consistent, Consistent, Even, CalledMore, CalledNoLess, List.Valid, Advanced;
      hide Received, Valid, UpToDate, SomeReplaces, Snaps;
      NotAdvanced(all, Snaps());
      ok := true;
      while hasAlertPending
        invariant ok && Valid() && Advanced(all, old(Snaps()), Snaps()) && old(owner.Keys) <= owner.Keys
        invariant fresh(owner.Keys - old(owner.Keys))
        decreases budget, hasAlertPending
      {
        ghost var was := Snaps();
        ok := Round();
        if !ok {
          return;
        }
        AdvancedTwice(all, old(Snaps()), was, Snaps());
      }
      Quiet();
    }

    /** Raising an alert between calls, with or without data, keeps all this. */
    lemma RaisedStaysValid(current: int, was: seq<Snapshot>, announced: bool)
      requires |was| == |all| && PassedTo(all, |all|, was, announced) && (announced ==> hasAlertPending)
      requires Wired() && Consistent() && OthersRaised(all, current, -1, was, Snaps(), hasAlertPending)
      ensures Valid()
    {
      forall j | 0 <= j < |all|
        ensures && Even(Snaps()[j].log, all[j].callbacks) && (Snaps()[j].nodes != [] ==> Snaps()[j].pending)
                && (Snaps()[j].pending ==> hasAlertPending) && UpToDate(Snaps()[j].log)
      {
        assert OnlyRaised(all[j].keepAll || j == current, was[j], Snaps()[j], hasAlertPending);
      }
    }
  }

  // ----- runs -----

  /** A system of one new alert. */
  method OneAlert(keepAll: bool, callbacks: nat, budget: nat) returns (alerts: Alerts)
    ensures fresh(alerts) && |alerts.all| == 1 && fresh(alerts.all[0]) && fresh(alerts.all[0].data)
    ensures alerts.Valid() && alerts.owner == map[] && alerts.budget == budget && !alerts.hasAlertPending
    ensures alerts.all[0].keepAll == keepAll && alerts.all[0].callbacks == callbacks
    ensures alerts.all[0].data.nodes == []
    ensures alerts.all[0].log.raised == alerts.all[0].log.delivered == []
  {
    var alert := new Alert(keepAll, false, callbacks);
    alerts := new Alerts([alert], budget);
  }

  /** Data raised between calls and then processed. With KEEP_ALL_DATA every callback receives them all, first and
      in order, whatever it raises itself. */
  method RaiseAndProcess(keepAll: bool, callbacks: nat, budget: nat, ds: seq<Data>)
      returns (alerts: Alerts, ok: bool)
    ensures fresh(alerts) && |alerts.all| == 1 && (keepAll ==> ok)
    ensures var log := alerts.all[0].log;
            ok ==>
              && alerts.Valid() && !alerts.hasAlertPending && alerts.all[0].data.nodes == []
              && ds <= log.raised && Received(keepAll, log, callbacks)
              && (keepAll ==> forall c :: 0 <= c < callbacks ==> ds <= log.got[c])
  {
    hide Kept, List.Valid, Items, Even, Alert.Consistent, Alerts.Wired, Received, Alerts.Valid;
    alerts := OneAlert(keepAll, callbacks, budget);
    for k := 0 to |ds|
      invariant fresh(alerts) && |alerts.all| == 1 && fresh(alerts.all[0]) && fresh(alerts.all[0].data)
      invariant alerts.Valid() && fresh(alerts.owner.Keys) && alerts.all[0].log.raised == ds[..k]
      invariant alerts.all[0].keepAll == keepAll && alerts.all[0].callbacks == callbacks
    {
      alerts.RaiseBetweenCalls(0, ds[k]);
      assert ds[..k + 1] == ds[..k] + [ds[k]];
    }
    assert ds[..|ds|] == ds;
    ghost var was := alerts.Snaps();
    assert was[0].log.raised == ds;
    ok := alerts.ProcessAllPendingAlerts();
    if ok {
      assert was[0].log.raised <= alerts.Snaps()[0].log.raised;
      ReceivedInOrder(keepAll, alerts.all[0].log, callbacks);
    }
  }

  lemma ReceivedInOrder(keepAll: bool, log: Log, n: nat)
    requires Received(keepAll, log, n)
    ensures |log.got| == n && (keepAll ==> forall c :: 0 <= c < n ==> log.got[c] == log.raised)
  {
  }

  /** A system of one new alert, pending with one datum. */
  method OneDatum(keepAll: bool, callbacks: nat, d: Data) returns (alerts: Alerts, el: Node<Data>)
    ensures fresh(alerts) && |alerts.all| == 1 && el.item == d && alerts.budget == 1
    ensures alerts.Wired() && alerts.Consistent() && alerts.all[0].data.nodes == [el]
    ensures alerts.all[0].keepAll == keepAll && alerts.all[0].callbacks == callbacks
    ensures fresh(alerts.all[0]) && fresh(alerts.all[0].data) && fresh(alerts.owner.Keys)
    ensures Even(alerts.all[0].log, callbacks) && alerts.all[0].log.raised == [d] && alerts.all[0].log.delivered == []
  {
    hide Kept, List.Valid, Items, Alert.Consistent, Alerts.Consistent, Alerts.Wired, Alerts.Valid, Even, Reached;
    alerts := OneAlert(keepAll, callbacks, 1);
    alerts.RaiseBetweenCalls(0, d);
    alerts.Opened(0);
    alerts.FrontOfQueue(0);
    el := alerts.all[0].data.head;
  }

  /** The first callback of an alert is handed the first datum, el. */
  method HandFirst(keepAll: bool, callbacks: nat, d: Data) returns (alerts: Alerts, el: Node<Data>)
    requires callbacks > 0
    ensures fresh(alerts) && |alerts.all| == 1 && el.item == d && alerts.budget == 1
    ensures alerts.Wired() && alerts.Consistent() && alerts.all[0].data.nodes == [el] && !alerts.all[0].pending
    ensures alerts.all[0].keepAll == keepAll && fresh(alerts.all[0]) && fresh(alerts.all[0].data)
    ensures fresh(alerts.owner.Keys)
    ensures var log := alerts.all[0].log; |log.got| == callbacks && log.got[0] == [d] && log.raised == [d]
  {
    hide Kept, List.Valid, Items, Alert.Consistent, Alerts.Wired, Alerts.Valid, UpToDate, Even, PassedTo, Reached;
    hide Hand, Alerts.Consistent;
    alerts, el := OneDatum(keepAll, callbacks, d);
    alerts.Clear(0);
    assert alerts.Snaps()[0].nodes == [el];
    FirstHanded(alerts.all[0].log, callbacks, el.item);
    alerts.HandTo(0, 0, Some(el.item));
    assert alerts.Snaps()[0].log == alerts.all[0].log && alerts.Snaps()[0].nodes == alerts.all[0].data.nodes;
  }

  /** A callback raises its own alert with new data while it is being handed a datum: the node in delivery, el,
      is still queued exactly if the alert has KEEP_ALL_DATA. Without it the code has freed the node, hands it to
      the other callbacks and then deletes it from the list. */
  method RaiseOwnAlert(keepAll: bool, callbacks: nat, d: Data, e: Data)
      returns (alerts: Alerts, el: Node<Data>, ok: bool)
    requires callbacks > 0
    ensures fresh(alerts) && |alerts.all| == 1 && el.item == d
    ensures ok == keepAll && (el in alerts.all[0].data.nodes <==> keepAll)
    ensures var log := alerts.all[0].log; |log.got| == callbacks && log.got[0] == [d] && log.raised == [d, e]
  {
    hide Kept, List.Valid, Items, Alert.Consistent, Alerts.Consistent, Alerts.Wired;
    alerts, el := HandFirst(keepAll, callbacks, d);
    ok := alerts.Raise(0, 0, true, e);
  }
}
