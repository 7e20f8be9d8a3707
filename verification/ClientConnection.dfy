/** The client's connection to the server (libcras/cras_client.c): a state machine that calls itself on
    every error and every change of state. System calls and messages may answer anything, or oblige. */
module ClientConnection {
  import opened Options

  const EIO := 5
  const EBUSY := 16
  const EINVAL := 22
  const ENOTCONN := 107
  const ECONNREFUSED := 111
  const EINPROGRESS := 115

  datatype SocketState = Disconnected | WaitForSocket | WaitForWritable | FirstMessage | Connected | ErrorDelay

  /** What the connection status callback is told. */
  datatype Notice = NoticeFailed | NoticeDisconnected | NoticeConnected

  /** The server_state pointer: null, a mapped region, or the error value of mmap. */
  datatype Mapping = Unmapped | Mapped | MapFailed

  datatype Poll = Poll(readable: bool, writable: bool, hup: bool)

  const NO_EVENTS := Poll(false, false, false)
  const HUP := Poll(false, false, true)

  /** What answers: anything at all, or a server that listens and accepts, and sends the client id first. */
  datatype Environment = AnyAnswers | Obliging(clientId: nat)

  /** A system call made and how it ended: a descriptor of -1 or an error number other than 0 is a failure. */
  datatype SystemCall =
    | SocketCall(fd: int)
    | ConnectCall(fd: int, errno: nat)
    | TimerCreate(fd: int)
    | TimerSet(fd: int, errno: nat)
    | MessageRead

  datatype FileEvent = FileCreated | FileDeleted | FileNone

  /** A 32-bit unsigned value stored in an int. */
  function ToInt32(u: nat): (i: int)
    requires u < 0x1_0000_0000
    ensures i >= 0 <==> u < 0x8000_0000
  {
    if u < 0x8000_0000 then u else u - 0x1_0000_0000
  }

  // ----- the callback history -----

  /** A connection has been announced and its loss has not. */
  ghost predicate Open(ns: seq<Notice>) {
    ns != [] &&
    match ns[|ns| - 1]
    case NoticeConnected => true
    case NoticeDisconnected => false
    case NoticeFailed => Open(ns[..|ns| - 1])
  }

  /** Every announced loss closes an announced connection. */
  ghost predicate Paired(ns: seq<Notice>) {
    ns == [] || (Paired(ns[..|ns| - 1]) && (ns[|ns| - 1].NoticeDisconnected? ==> Open(ns[..|ns| - 1])))
  }

  /** Position k announces a connection, and no loss is announced from there up to n. */
  ghost predicate OpenedAt(ns: seq<Notice>, k: nat, n: nat)
    requires n <= |ns|
  {
    k < n && ns[k].NoticeConnected? && forall i :: k < i < n ==> !ns[i].NoticeDisconnected?
  }

  lemma {:induction false} OpenMeaning(ns: seq<Notice>)
    ensures Open(ns) <==> exists k: nat :: OpenedAt(ns, k, |ns|)
    decreases |ns|
  {
    if ns != [] {
      var n := |ns| - 1;
      OpenMeaning(ns[..n]);
      if ns[n].NoticeConnected? {
        assert OpenedAt(ns, n, |ns|);
      } else if ns[n].NoticeFailed? {
        if Open(ns[..n]) {
          var k: nat :| OpenedAt(ns[..n], k, n);
          assert OpenedAt(ns, k, |ns|);
        }
        if exists k: nat :: OpenedAt(ns, k, |ns|) {
          var k: nat :| OpenedAt(ns, k, |ns|);
          assert OpenedAt(ns[..n], k, n);
        }
      }
    }
  }

  /** Paired histories are exactly those where every announced loss comes after an announced connection
      with no other loss in between: no two losses without a connection between them. */
  lemma {:induction false} PairedMeaning(ns: seq<Notice>)
    ensures Paired(ns) <==>
            forall j :: 0 <= j < |ns| && ns[j].NoticeDisconnected? ==> exists k: nat :: OpenedAt(ns, k, j)
    decreases |ns|
  {
    if ns != [] {
      var n := |ns| - 1;
      var front := ns[..n];
      PairedMeaning(front);
      OpenMeaning(front);
      forall j, k: nat | 0 <= j <= n
        ensures OpenedAt(front, k, j) <==> OpenedAt(ns, k, j)
      {
      }
    }
  }

  lemma NoticeAdded(ns: seq<Notice>, x: Notice)
    requires Paired(ns) && (x.NoticeDisconnected? ==> Open(ns))
    ensures Paired(ns + [x])
    ensures Open(ns + [x]) == if x.NoticeFailed? then Open(ns) else x.NoticeConnected?
  {
    assert (ns + [x])[..|ns|] == ns;
  }

  /** What a change of state from s to t tells the callback, whatever states lie between. */
  function Announced(s: SocketState, t: SocketState): seq<Notice> {
    (if s.Connected? && !t.Connected? then [NoticeDisconnected] else [])
    + (if !s.Connected? && t.Connected? then [NoticeConnected] else [])
    + (if !s.Disconnected? && t.Disconnected? then [NoticeFailed] else [])
  }

  /** The callback history after a change of state from s to t. */
  ghost predicate Told(hasCallback: bool, was: seq<Notice>, s: SocketState, now: seq<Notice>, t: SocketState) {
    now == was + if hasCallback then Announced(s, t) else []
  }

  lemma NothingTold(hasCallback: bool, ns: seq<Notice>, s: SocketState)
    ensures Told(hasCallback, ns, s, ns, s)
  {
  }

  /** A disconnected client stays so, a client that has connected stays so, and one that has lost its connection
      does not regain it. */
  ghost predicate InTurn(s: SocketState, u: SocketState, m: SocketState, t: SocketState) {
    && !s.Disconnected? && !u.Disconnected? && !m.Disconnected?
    && (s.Connected? && !u.Connected? ==> !m.Connected? && !t.Connected?)
    && (!s.Connected? ==> !u.Connected?) && (u.Connected? ==> m.Connected?)
    && (m.Connected? && !u.Connected? ==> t.Connected?)
  }

  lemma AnnouncedTwice(s: SocketState, m: SocketState, t: SocketState)
    requires InTurn(s, s, m, t) || InTurn(s, m, m, t)
    ensures Announced(s, m) + Announced(m, t) == Announced(s, t)
  {
  }

  lemma ToldTwice(hasCallback: bool, a: seq<Notice>, s: SocketState, b: seq<Notice>, m: SocketState, c: seq<Notice>,
                  t: SocketState)
    requires Told(hasCallback, a, s, b, m) && Told(hasCallback, b, m, c, t)
    requires InTurn(s, s, m, t) || InTurn(s, m, m, t)
    ensures Told(hasCallback, a, s, c, t)
  {
    hide Announced;
    AnnouncedTwice(s, m, t);
    if hasCallback {
      assert c == a + (Announced(s, m) + Announced(m, t));
    }
  }

  /** Then what three changes of state tell is what the change from first to last tells. */
  lemma ToldInTurn(hasCallback: bool, a: seq<Notice>, s: SocketState, b: seq<Notice>, u: SocketState, c: seq<Notice>,
                   m: SocketState, d: seq<Notice>, t: SocketState)
    requires Told(hasCallback, a, s, b, u) && Told(hasCallback, b, u, c, m) && Told(hasCallback, c, m, d, t)
    requires InTurn(s, u, m, t)
    ensures Told(hasCallback, a, s, d, t)
  {
    hide Told;
    ToldTwice(hasCallback, b, u, c, m, d, t);
    ToldTwice(hasCallback, a, s, b, u, d, t);
  }

  // ----- what a dispatch does, told from outside -----

  /** No system call is due: there is no event to act on, or only the socket file to wait for. */
  predicate Idle(s: SocketState, fd: int, ev: Poll, sock: bool) {
    match s
    case Disconnected => true
    case WaitForSocket => !ev.hup && !sock
    case WaitForWritable => !ev.hup && fd != -1 && !ev.writable
    case FirstMessage => !ev.hup && !ev.readable
    case Connected => if ev.hup then !sock else !ev.readable
    case ErrorDelay => ev.hup || (fd != -1 && (ev.readable ==> !sock))
  }

  /** Where a client ends that makes no system call. */
  function Rests(s: SocketState, ev: Poll): SocketState {
    match s
    case ErrorDelay => if ev.hup then Disconnected else if ev.readable then WaitForSocket else ErrorDelay
    case Connected => if ev.hup then WaitForSocket else Connected
    case _ => s
  }

  /** The first system call, where one is due. */
  predicate Due(s: SocketState, fd: int, ev: Poll, call: SystemCall) {
    if ev.hup then
      if s.Connected? then call.SocketCall? else call.TimerCreate?
    else
      match s
      case Disconnected => false
      case WaitForSocket => call.SocketCall?
      case WaitForWritable => if fd == -1 then call.SocketCall? else call.ConnectCall? && call.fd == fd
      case FirstMessage => call.MessageRead?
      case Connected => call.MessageRead?
      case ErrorDelay => if fd == -1 then call.TimerCreate? else call.SocketCall?
  }

  /** How the last system call made explains the state and the descriptor a client ends in. */
  predicate Explains(call: SystemCall, s: SocketState, fd: int, sock: bool) {
    match call
    case SocketCall(_) => false
    case ConnectCall(f, errno) =>
      if errno == 0 then s.FirstMessage? && fd == f
      else if errno == EINPROGRESS then s.WaitForWritable? && fd == f
      else errno == ECONNREFUSED && s.WaitForWritable? && fd == -1
    case TimerCreate(f) => f == -1 && s.Disconnected?
    case TimerSet(f, errno) => if errno == 0 then s.ErrorDelay? && fd == f else s.Disconnected?
    case MessageRead => s.Connected? || (s.WaitForSocket? && !sock)
  }

  /** From state s with descriptor fd to state t with descriptor g: the calls start with the one that is due and
      end with one that explains the result. Only the first message connects a client. */
  ghost predicate Dispatched(s: SocketState, fd: int, ev: Poll, sock: bool, was: seq<SystemCall>,
                             t: SocketState, g: int, now: seq<SystemCall>) {
    && was <= now
    && if Idle(s, fd, ev, sock) then now == was && t == Rests(s, ev) && (t == s && !ev.hup ==> g == fd)
       else
         && |was| < |now| && Due(s, fd, ev, now[|was|]) && Explains(now[|now| - 1], t, g, sock)
         && (t.Connected? ==> (s.Connected? || s.FirstMessage?) && !ev.hup && now == was + [MessageRead] && g == fd)
  }

  /** Where a dispatch ends in an obliging environment. */
  function Settles(s: SocketState, fd: int, ev: Poll, sock: bool, clientId: nat): SocketState {
    if ev.hup then
      match s
      case Disconnected => Disconnected
      case ErrorDelay => Disconnected
      case Connected => if sock then FirstMessage else WaitForSocket
      case _ => ErrorDelay
    else
      match s
      case WaitForSocket => if sock then FirstMessage else WaitForSocket
      case WaitForWritable => if fd == -1 || ev.writable then FirstMessage else WaitForWritable
      case FirstMessage =>
        if !ev.readable then FirstMessage else if clientId < 0x8000_0000 then Connected else ErrorDelay
      case ErrorDelay =>
        if fd == -1 || !ev.readable then ErrorDelay else if sock then FirstMessage else WaitForSocket
      case _ => s
  }

  /** The state a hang-up leads to. */
  function HungUp(s: SocketState): SocketState {
    match s
    case Disconnected => Disconnected
    case ErrorDelay => Disconnected
    case Connected => WaitForSocket
    case _ => ErrorDelay
  }

  /** What the action of state s does: from descriptor fd to state m with descriptor h, and result rc. */
  ghost predicate Stepped(s: SocketState, fd: int, ev: Poll, sock: bool, was: seq<SystemCall>, rc: int,
                          m: SocketState, h: int, now: seq<SystemCall>) {
    && was <= now
    && (rc != 0 ==> m == s && |was| < |now|)
    && match s
       case Disconnected => false
       case ErrorDelay =>
         if fd != -1 then
           rc == 0 && now == was && (if ev.readable then m.WaitForSocket? && h == -1 else m == s && h == fd)
         else
           && |was| < |now| && now[|was|].TimerCreate?
           && if rc == 0 then Explains(now[|now| - 1], m, h, sock) && m.ErrorDelay?
              else Explains(now[|now| - 1], Disconnected, -1, sock)
       case WaitForSocket =>
         rc == 0 && now == was && h == fd && m == if sock then WaitForWritable else s
       case WaitForWritable =>
         if fd != -1 && !ev.writable then rc == 0 && m == s && h == fd && now == was
         else
           && |was| < |now| && Due(s, fd, ev, now[|was|])
           && (rc == 0 ==> Explains(now[|now| - 1], m, h, sock) && (m == s || m.FirstMessage?))
       case FirstMessage =>
         && h == fd && now == was + (if ev.readable then [MessageRead] else [])
         && (rc == 0 ==> m == if ev.readable then Connected else s)
       case Connected =>
         m == s && h == fd && now == was + if ev.readable then [MessageRead] else []
  }

  /** What the action of state s does in an obliging environment. */
  ghost predicate Obliged(s: SocketState, fd: int, ev: Poll, clientId: nat, rc: int, m: SocketState) {
    && (rc != 0 <==> s.FirstMessage? && ev.readable && clientId >= 0x8000_0000)
    && (s.WaitForWritable? && (fd == -1 || ev.writable) ==> m.FirstMessage?)
  }

  lemma OnlyHungUp(s: SocketState, fd: int, ev: Poll, sock: bool, env: Environment, was: seq<SystemCall>, g: int)
    requires s.Disconnected? || (ev.hup && s.ErrorDelay?)
    requires s.Disconnected? && !ev.hup ==> g == fd
    ensures Dispatched(s, fd, ev, sock, was, Disconnected, g, was)
    ensures env.Obliging? ==> Settles(s, fd, ev, sock, env.clientId) == Disconnected
  {
  }

  // ----- termination -----

  /** How many further calls a call of server_fd_dispatch may lead to, at most. */
  function Rank(s: SocketState, ev: Poll): nat {
    if ev.hup then
      match s
      case Disconnected => 0
      case ErrorDelay => 1
      case Connected => 4
      case _ => 2
    else
      match s
      case Disconnected => 0
      case WaitForSocket => 4
      case WaitForWritable => 3
      case FirstMessage => if ev.readable then 3 else 0
      case Connected => if ev.readable then 5 else 0
      case ErrorDelay => if ev.readable then 5 else 2
  }

  /** What server_fd_dispatch starts from: state s with descriptor fd, and after a hang-up state u with descriptor e. */
  ghost predicate Begins(s: SocketState, fd: int, ev: Poll, u: SocketState, e: int) {
    && !s.Disconnected? && !u.Disconnected? && (s.WaitForSocket? ==> fd == -1)
    && if ev.hup then u == HungUp(s) && e == -1 else u == s && e == fd
  }

  /** The event server_fd_dispatch calls itself with, after result rc of the action of state u, which led to m. */
  function Next(rc: int, u: SocketState, m: SocketState): (ev: Option<Poll>) {
    if rc != 0 then Some(HUP) else if m != u then Some(NO_EVENTS) else None
  }

  /** A call that server_fd_dispatch makes of itself has a lower rank. */
  lemma RankFalls(s: SocketState, fd: int, ev: Poll, sock: bool, was: seq<SystemCall>, u: SocketState, e: int,
                  rc: int, m: SocketState, h: int, mid: seq<SystemCall>)
    requires Begins(s, fd, ev, u, e) && Stepped(u, e, ev, sock, was, rc, m, h, mid)
    ensures !m.Disconnected? && (rc != 0 ==> m == u)
    ensures var next := Next(rc, u, m); next.Some? ==> Rank(m, next.value) < Rank(s, ev)
  {
  }

  /** An action and the dispatch it leads to are one dispatch. */
  lemma StepThenDispatch(s: SocketState, fd: int, ev: Poll, sock: bool, was: seq<SystemCall>, u: SocketState, e: int,
                         rc: int, m: SocketState, h: int, mid: seq<SystemCall>, t: SocketState, g: int,
                         now: seq<SystemCall>)
    requires Begins(s, fd, ev, u, e) && Stepped(u, e, ev, sock, was, rc, m, h, mid)
    requires match Next(rc, u, m)
             case None => t == m && g == h && now == mid
             case Some(next) => Dispatched(m, h, next, sock, mid, t, g, now)
    ensures Dispatched(s, fd, ev, sock, was, t, g, now)
    ensures InTurn(s, u, m, t)
    ensures s.Connected? && t.Connected? ==> !ev.hup && u.Connected? && m.Connected?
    ensures t.Connected? && !s.Connected? ==> m.Connected?
  {
  }

  lemma StepThenSettle(s: SocketState, fd: int, ev: Poll, sock: bool, clientId: nat, was: seq<SystemCall>,
                       u: SocketState, e: int, rc: int, m: SocketState, h: int, mid: seq<SystemCall>, t: SocketState)
    requires Begins(s, fd, ev, u, e) && Stepped(u, e, ev, sock, was, rc, m, h, mid)
    requires Obliged(u, e, ev, clientId, rc, m)
    requires match Next(rc, u, m)
             case None => t == m
             case Some(next) => t == Settles(m, h, next, sock, clientId)
    ensures t == Settles(s, fd, ev, sock, clientId)
  {
  }

  /** struct cras_client, as far as the connection goes. */
  class Client {
    var id: int
    var serverFd: int
    var state: SocketState
    var eventValue: nat
    var serverState: Mapping
    var sockFileExists: bool
    var streams: seq<int>
    const hasCallback: bool
    const env: Environment
    ghost var notices: seq<Notice>
    ghost var calls: seq<SystemCall>

    /** What holds even between a failure and the clean-up after it. */
    ghost predicate Base()
      reads this
    {
      && serverFd >= -1 && (env.Obliging? ==> env.clientId < 0x1_0000_0000)
      && eventValue == (if state.Connected? then 1 else 0)
      && (state.Disconnected? || state.WaitForSocket? ==> serverFd == -1)
      && (state.FirstMessage? || state.Connected? ==> serverFd >= 0)
      && Paired(notices)
      && (hasCallback && state.Connected? ==> Open(notices))
    }

    /** The server's resources are held exactly while connected. */
    ghost predicate Clean()
      reads this
    {
      if state.Connected? then id >= 0 && serverState == Mapped else id == -1 && serverState == Unmapped
    }

    /** The resource invariant of every state at rest. */
    ghost predicate Valid()
      reads this
    {
      Base() && Clean() && (state.ErrorDelay? ==> serverFd >= 0)
    }

    /** cras_client_create_with_type: nothing open, nothing known. */
    constructor (hasCallback: bool, sockFileExists: bool, env: Environment)
      requires env.Obliging? ==> env.clientId < 0x1_0000_0000
      ensures Valid() && state == Disconnected && notices == [] && streams == [] && calls == []
      ensures this.hasCallback == hasCallback && this.sockFileExists == sockFileExists && this.env == env
    {
      id, serverFd, state, eventValue := -1, -1, Disconnected, 0;
      serverState, streams, notices, calls := Unmapped, [], [], [];
      this.hasCallback, this.env := hasCallback, env;
      this.sockFileExists := sockFileExists;
    }

    /** The connection status callback; it must not call back into the client. */
    method Notify(n: Notice)
      modifies this`notices
      ensures notices == if hasCallback then old(notices) + [n] else old(notices)
    {
      if hasCallback {
        notices := notices + [n];
      }
    }

    /** socket. */
    method Socket() returns (fd: int)
      modifies this`calls
      ensures fd >= -1 && (env.Obliging? ==> fd >= 0) && calls == old(calls) + [SocketCall(fd)]
    {
      fd := NewDescriptor(env);
      calls := calls + [SocketCall(fd)];
    }

    /** connect. */
    method Connect() returns (errno: nat)
      modifies this`calls
      ensures (env.Obliging? ==> errno == 0) && calls == old(calls) + [ConnectCall(serverFd, errno)]
    {
      errno := ErrorNumber(env);
      calls := calls + [ConnectCall(serverFd, errno)];
    }

    /** timerfd_create. */
    method CreateTimer() returns (fd: int)
      modifies this`calls
      ensures fd >= -1 && (env.Obliging? ==> fd >= 0) && calls == old(calls) + [TimerCreate(fd)]
    {
      fd := NewDescriptor(env);
      calls := calls + [TimerCreate(fd)];
    }

    /** timerfd_settime, to two seconds. */
    method SetTimer() returns (errno: nat)
      modifies this`calls
      ensures (env.Obliging? ==> errno == 0) && calls == old(calls) + [TimerSet(serverFd, errno)]
    {
      errno := ErrorNumber(env);
      calls := calls + [TimerSet(serverFd, errno)];
    }

    /** error_delay_next_action: start the retry timer, or leave the state when it has expired. */
    method ErrorDelayNextAction(ev: Poll) returns (rc: int)
      requires state.ErrorDelay? && serverFd >= -1
      modifies this`serverFd, this`state, this`calls
      ensures rc != 0 ==> state == ErrorDelay && serverFd >= -1 && old(serverFd) == -1 && env.AnyAnswers?
      ensures rc == 0 && old(serverFd) == -1 ==> state == ErrorDelay && serverFd >= 0
      ensures rc == 0 && old(serverFd) != -1 ==>
                if ev.readable then state == WaitForSocket && serverFd == -1
                else state == ErrorDelay && serverFd == old(serverFd)
      ensures calls == old(calls) +
                       if old(serverFd) != -1 then [] else
                       if serverFd == -1 then [TimerCreate(-1)]
                       else [TimerCreate(serverFd), TimerSet(serverFd, if rc < 0 then -rc else 0)]
      ensures rc <= 0
    {
      if serverFd == -1 {
        serverFd := CreateTimer();
        if serverFd == -1 {
          var errno := FailureCode();
          return -errno;
        }
        var errno: int := SetTimer();
        if errno != 0 {
          return -errno;
        }
        return 0;
      } else if !ev.readable {
        return 0;
      }
      serverFd := -1;
      state := WaitForSocket;
      return 0;
    }

    /** wait_for_socket_next_action. */
    method WaitForSocketNextAction()
      requires state.WaitForSocket?
      modifies this`state
      ensures state == if sockFileExists then WaitForWritable else WaitForSocket
    {
      if sockFileExists {
        state := WaitForWritable;
      }
    }

    /** wait_for_writable_next_action: open the socket and try to connect. */
    method WaitForWritableNextAction(ev: Poll) returns (rc: int)
      requires state.WaitForWritable? && serverFd >= -1
      modifies this`serverFd, this`state, this`calls
      ensures rc <= 0 && (env.Obliging? ==> rc == 0)
      ensures old(serverFd) != -1 && !ev.writable ==>
                rc == 0 && state == WaitForWritable && serverFd == old(serverFd) && calls == old(calls)
      ensures old(serverFd) == -1 || ev.writable ==>
                (exists fd: int, errno: nat ::
                   && fd >= -1 && (old(serverFd) != -1 ==> fd == old(serverFd))
                   && (env.Obliging? ==> fd >= 0 && errno == 0)
                   && calls == old(calls) + (if old(serverFd) == -1 then [SocketCall(fd)] else [])
                               + (if fd == -1 then [] else [ConnectCall(fd, errno)])
                   && Tried(fd, errno, rc))
    {
      if serverFd == -1 {
        serverFd := Socket();
        if serverFd < 0 {
          var code := FailureCode();
          assert Tried(-1, 0, -code);
          return -code;
        }
      } else if !ev.writable {
        return 0;
      }
      ghost var fd := serverFd;
      var errno: int := Connect();
      if errno != 0 {
        rc := -errno;
        if rc == -ECONNREFUSED {
          serverFd := -1;
        } else if rc != -EINPROGRESS {
          assert Tried(fd, errno, rc);
          return rc;
        }
        assert Tried(fd, errno, 0);
        return 0;
      }
      state := FirstMessage;
      assert Tried(fd, errno, 0);
      return 0;
    }

    /** Where an attempt to connect descriptor fd leaves the client. */
    predicate Tried(fd: int, errno: int, rc: int)
      reads this
    {
      if fd == -1 then rc < 0 && state.WaitForWritable? && serverFd == -1
      else if errno == 0 then rc == 0 && state.FirstMessage? && serverFd == fd
      else if errno == EINPROGRESS then rc == 0 && state.WaitForWritable? && serverFd == fd
      else if errno == ECONNREFUSED then rc == 0 && state.WaitForWritable? && serverFd == -1
      else rc == -errno && state.WaitForWritable? && serverFd == fd
    }

    /** client_attach_shm. */
    method AttachShm() returns (rc: int, ghost mapped: bool)
      modifies this`serverState
      ensures rc <= 0
      ensures rc == 0 ==> old(serverState) == Unmapped && serverState == Mapped
      ensures rc != 0 && old(serverState) == Unmapped ==> serverState == if mapped then Unmapped else MapFailed
      ensures old(serverState) != Unmapped ==> rc != 0 && serverState == old(serverState)
      ensures env.Obliging? && old(serverState) == Unmapped ==> rc == 0
    {
      if serverState != Unmapped {
        return -EBUSY, false;
      }
      var errno := FailureCode();
      var success := Outcome(env);
      if !success {
        serverState := MapFailed;
        return -errno, false;
      }
      serverState := Mapped;
      var knownVersion := Outcome(env);
      if !knownVersion {
        serverState := Unmapped;
        return -EINVAL, true;
      }
      return 0, true;
    }

    /** handle_message_from_server: only a first "connected" message changes the fields modelled here.
        The message's 32-bit client id may not fit an int. */
    method HandleMessageFromServer() returns (rc: int)
      requires env.Obliging? ==> env.clientId < 0x1_0000_0000
      modifies this`id, this`serverState, this`calls
      ensures rc <= 0 && calls == old(calls) + [MessageRead]
      ensures old(serverState) != Unmapped ==> id == old(id) && serverState == old(serverState)
      ensures rc == 0 && id != old(id) ==> serverState == Mapped
      ensures env.Obliging? ==> rc == 0
      ensures env.Obliging? && old(serverState) == Unmapped ==> id == ToInt32(env.clientId) && serverState == Mapped
    {
      calls := calls + [MessageRead];
      var wellFormed := Outcome(env);
      var isConnected := FirstKind(env, serverState == Unmapped);
      var oneDescriptor := Outcome(env);
      var accepted := Outcome(env);
      if !wellFormed {
        return -EIO;
      }
      if isConnected {
        if !oneDescriptor {
          return -EINVAL;
        }
        ghost var mapped: bool;
        rc, mapped := AttachShm();
        if rc != 0 {
          return rc;
        }
        var clientId := ClientId(env);
        id := ToInt32(clientId);
        return 0;
      }
      return if accepted then 0 else -EINVAL;
    }

    /** connect_transition_action. */
    method ConnectTransitionAction() returns (rc: int)
      requires Base() && state.FirstMessage?
      modifies this`state, this`eventValue, this`notices
      ensures Base() && rc <= 0
      ensures if rc < 0 then state == FirstMessage && notices == old(notices) else
                state == Connected && notices == if hasCallback then old(notices) + [NoticeConnected] else old(notices)
      ensures env.Obliging? ==> rc == 0
    {
      var errno := FailureCode();
      var registered := Outcome(env);
      if !registered {
        return -errno;
      }
      state := Connected;
      eventValue := 0;
      eventValue := eventValue + 1;
      NoticeAdded(notices, NoticeConnected);
      Notify(NoticeConnected);
      return 0;
    }

    /** first_message_next_action. */
    method FirstMessageNextAction(ev: Poll) returns (rc: int)
      requires Base() && Clean() && state.FirstMessage?
      modifies this`state, this`eventValue, this`notices, this`id, this`serverState, this`calls
      ensures Base() && calls == old(calls) + if ev.readable then [MessageRead] else []
      ensures !ev.readable ==> rc == 0 && state == FirstMessage && Clean() && notices == old(notices)
      ensures ev.readable ==>
                if rc == 0 then
                  && state == Connected && Clean()
                  && notices == if hasCallback then old(notices) + [NoticeConnected] else old(notices)
                else state == FirstMessage && notices == old(notices)
      ensures env.Obliging? && ev.readable ==> (rc == 0 <==> env.clientId < 0x8000_0000)
      ensures env.Obliging? && state.Connected? ==> id == env.clientId
    {
      if serverFd < 0 {
        return -EINVAL;
      }
      if !ev.readable {
        return 0;
      }
      rc := HandleMessageFromServer();
      if rc < 0 {
        return rc;
      } else if id >= 0 {
        rc := ConnectTransitionAction();
      } else {
        rc := -EINVAL;
      }
    }

    /** The tear-down of disconnect_transition_action: streams, mapping, id, descriptor and event counter. */
    method GiveBack()
      requires serverFd >= -1
      modifies this`id, this`serverFd, this`eventValue, this`serverState, this`streams
      ensures id == serverFd == -1 && serverState == Unmapped && eventValue == 0 && streams == []
    {
      while streams != []
        modifies this`streams
        decreases |streams|
      {
        streams := streams[1..];
      }
      if serverState != Unmapped {
        serverState := Unmapped;
      }
      id := -1;
      if serverFd >= 0 {
        serverFd := -1;
      }
      eventValue := 0;
    }

    /** disconnect_transition_action: give everything back, then move on from the state we were in. */
    method DisconnectTransitionAction(force: bool)
      requires env.Obliging? ==> env.clientId < 0x1_0000_0000
      requires serverFd >= -1 && Paired(notices) && (hasCallback && state.Connected? ==> Open(notices))
      modifies this`id, this`serverFd, this`state, this`eventValue, this`serverState, this`streams, this`notices
      ensures Base() && Clean() && serverFd == -1 && streams == []
      ensures state == HungUp(old(state))
      ensures Told(hasCallback, old(notices), old(state), notices, state)
    {
      hide Paired, Open;
      var oldState := state;
      GiveBack();
      match oldState {
        case Disconnected =>
        case ErrorDelay =>
          state := Disconnected;
          NoticeAdded(notices, NoticeFailed);
          Notify(NoticeFailed);
        case WaitForSocket =>
          state := ErrorDelay;
        case WaitForWritable =>
          state := ErrorDelay;
        case FirstMessage =>
          state := ErrorDelay;
        case Connected =>
          state := WaitForSocket;
          if hasCallback {
            NoticeAdded(notices, NoticeDisconnected);
          }
          Notify(NoticeDisconnected);
      }
    }

    /** The hang-up of server_fd_dispatch. */
    method HangUp(ev: Poll)
      requires Base() && (!ev.hup ==> Clean())
      modifies this`id, this`serverFd, this`state, this`eventValue, this`serverState, this`streams, this`notices
      ensures Base() && Clean() && (state.Disconnected? ==> Valid())
      ensures !ev.hup ==> id == old(id) && notices == old(notices) && streams == old(streams)
      ensures if ev.hup then state == HungUp(old(state)) && serverFd == -1 && streams == []
              else state == old(state) && serverFd == old(serverFd)
      ensures Told(hasCallback, old(notices), old(state), notices, state)
      ensures if state.Disconnected? then old(state).Disconnected? || (ev.hup && old(state).ErrorDelay?)
              else Begins(old(state), old(serverFd), ev, state, serverFd)
    {
      hide Paired, Open, Told;
      NothingTold(hasCallback, notices, state);
      if ev.hup {
        DisconnectTransitionAction(true);
      }
    }

    /** The switch of server_fd_dispatch: the action of the state. */
    method Step(ev: Poll) returns (rc: int)
      requires Base() && Clean() && !state.Disconnected?
      requires ev.hup ==> serverFd == -1 && exists s :: state == HungUp(s)
      modifies this`id, this`serverFd, this`state, this`eventValue, this`serverState, this`notices, this`calls
      ensures Base() && (rc == 0 ==> Clean())
      ensures rc == 0 && state == old(state) ==> Valid()
      ensures Stepped(old(state), old(serverFd), ev, sockFileExists, old(calls), rc, state, serverFd, calls)
      ensures Told(hasCallback, old(notices), old(state), notices, state)
      ensures old(state).Connected? ==> id == old(id)
      ensures env.Obliging? ==>
                && Obliged(old(state), old(serverFd), ev, env.clientId, rc, state)
                && (state.Connected? && !old(state).Connected? ==> id == env.clientId)
    {
      hide Paired, Open;
      rc := 0;
      match state {
        case Disconnected =>
        case ErrorDelay =>
          rc := ErrorDelayNextAction(ev);
        case WaitForSocket =>
          WaitForSocketNextAction();
        case WaitForWritable =>
          rc := WaitForWritableNextAction(ev);
        case FirstMessage =>
          rc := FirstMessageNextAction(ev);
        case Connected =>
          if ev.readable {
            rc := HandleMessageFromServer();
          }
      }
    }

    /** server_fd_dispatch. It terminates whatever the system calls answer, and it returns with the
        resource invariant, having failed exactly if the client ended up disconnected. The system calls made
        start with the one that is due and end with one that explains the state reached. */
    method ServerFdDispatch(ev: Poll) returns (rc: int)
      requires Base() && (!ev.hup ==> Clean())
      modifies this`id, this`serverFd, this`state, this`eventValue, this`serverState, this`streams, this`notices
      modifies this`calls
      ensures Valid()
      ensures rc == if state.Disconnected? then -ENOTCONN else 0
      ensures old(state).Disconnected? ==> state.Disconnected?
      ensures Dispatched(old(state), old(serverFd), ev, sockFileExists, old(calls), state, serverFd, calls)
      ensures Told(hasCallback, old(notices), old(state), notices, state)
      ensures env.Obliging? ==>
                && state == Settles(old(state), old(serverFd), ev, sockFileExists, env.clientId)
                && (state.Connected? && !old(state).Connected? ==> id == env.clientId)
      ensures old(state).Connected? && state.Connected? ==> id == old(id)
      decreases Rank(state, ev)
    {
      hide Told, Dispatched, Stepped, Settles, Obliged, Base, Clean, Valid, Begins, Rank, HungUp, InTurn;
      HangUp(ev);
      var oldState := state;
      if oldState.Disconnected? {
        OnlyHungUp(old(state), old(serverFd), ev, sockFileExists, env, calls, serverFd);
        return -ENOTCONN;
      }
      ghost var e, ns := serverFd, notices;
      rc := Step(ev);
      ghost var code, m, h, mid, told := rc, state, serverFd, calls, notices;
      RankFalls(old(state), old(serverFd), ev, sockFileExists, old(calls), oldState, e, code, m, h, mid);
      NothingTold(hasCallback, notices, m);
      if rc != 0 {
        rc := ServerFdDispatch(HUP);
      } else if oldState != state {
        rc := ServerFdDispatch(NO_EVENTS);
      }
      StepThenDispatch(old(state), old(serverFd), ev, sockFileExists, old(calls), oldState, e, code, m, h, mid, state,
                       serverFd, calls);
      if env.Obliging? {
        StepThenSettle(old(state), old(serverFd), ev, sockFileExists, env.clientId, old(calls), oldState, e, code, m, h,
                       mid, state);
      }
      ToldInTurn(hasCallback, old(notices), old(state), ns, oldState, told, m, notices, state);
    }

    /** server_connect. */
    method ServerConnect() returns (rc: int)
      requires Valid()
      modifies this`id, this`serverFd, this`state, this`eventValue, this`serverState, this`streams, this`notices
      modifies this`calls
      ensures Valid()
      ensures rc == if state.Disconnected? then -ENOTCONN else 0
      ensures !old(state).Disconnected? ==> unchanged(this)
      ensures old(state).Disconnected? ==>
                && Dispatched(WaitForSocket, -1, NO_EVENTS, sockFileExists, old(calls), state, serverFd, calls)
                && Told(hasCallback, old(notices), WaitForSocket, notices, state)
                && (env.Obliging? ==> state == if sockFileExists then FirstMessage else WaitForSocket)
    {
      if state != Disconnected {
        return 0;
      }
      state := WaitForSocket;
      rc := ServerFdDispatch(NO_EVENTS);
    }

    /** server_disconnect: on request, so without a callback. */
    method ServerDisconnect()
      requires Valid()
      modifies this`id, this`serverFd, this`state, this`eventValue, this`serverState, this`streams, this`notices
      ensures Valid() && state == Disconnected && notices == old(notices)
    {
      if state == Disconnected {
        return;
      }
      state := Disconnected;
      DisconnectTransitionAction(false);
    }

    /** sock_file_wait_callback. A created file lets a client go on that waits for it or for a descriptor; a deleted
        one sends every client that is not disconnected to waiting, silently. */
    method SockFileWaitCallback(event: FileEvent)
      requires Valid()
      modifies this
      ensures Valid()
      ensures sockFileExists == match event
                                case FileCreated => true
                                case FileDeleted => false
                                case FileNone => old(sockFileExists)
      ensures event.FileCreated? && (old(state).WaitForSocket? || old(state).WaitForWritable?) ==>
                && Dispatched(old(state), old(serverFd), NO_EVENTS, true, old(calls), state, serverFd, calls)
                && Told(hasCallback, old(notices), old(state), notices, state)
                && (env.Obliging? ==> state == Settles(old(state), old(serverFd), NO_EVENTS, true, env.clientId))
      ensures event.FileDeleted? ==>
                && state == (if old(state).Disconnected? then Disconnected else WaitForSocket)
                && notices == old(notices) && calls == old(calls)
      ensures event.FileNone? || (event.FileCreated? && !old(state).WaitForSocket? && !old(state).WaitForWritable?) ==>
                && state == old(state) && serverFd == old(serverFd) && id == old(id) && streams == old(streams)
                && notices == old(notices) && calls == old(calls)
    {
      match event {
        case FileCreated =>
          sockFileExists := true;
          if state.WaitForSocket? || state.WaitForWritable? {
            var _ := ServerFdDispatch(NO_EVENTS);
          }
        case FileDeleted =>
          sockFileExists := false;
          if !state.Disconnected? {
            ServerDisconnect();
            var _ := ServerConnect();
          }
        case FileNone =>
      }
    }
  }

  // ----- runs -----

  const READABLE := Poll(true, false, false)

  /** A new client of a server that obliges asks for a connection: as soon as the socket file exists it waits for
      the first message, having opened a socket and connected it. */
  method StartConnecting(clientId: nat, hasCallback: bool, sockFileExists: bool) returns (c: Client)
    requires clientId < 0x1_0000_0000
    ensures fresh(c) && c.Valid() && c.hasCallback == hasCallback && c.env == Obliging(clientId)
    ensures c.state.FirstMessage? && c.notices == []
    ensures c.calls != [] && c.calls[0].SocketCall? && c.calls[|c.calls| - 1] == ConnectCall(c.serverFd, 0)
  {
    hide Client.Valid;
    c := new Client(hasCallback, sockFileExists, Obliging(clientId));
    var rc := c.ServerConnect();
    if !sockFileExists {
      assert c.calls == [] && c.notices == [] && c.state.WaitForSocket? && c.serverFd == -1;
      c.SockFileWaitCallback(FileCreated);
    }
  }

  /** The first message connects it exactly if the client id fits an int. */
  method ConnectToServer(clientId: nat, hasCallback: bool, sockFileExists: bool) returns (c: Client)
    requires clientId < 0x1_0000_0000
    ensures c.Valid() && c.hasCallback == hasCallback
    ensures if clientId < 0x8000_0000 then c.state.Connected? && c.id == clientId else c.state.ErrorDelay?
    ensures c.notices == if hasCallback && clientId < 0x8000_0000 then [NoticeConnected] else []
    ensures c.calls != [] && c.calls[0].SocketCall?
  {
    c := StartConnecting(clientId, hasCallback, sockFileExists);
    ghost var was := c.calls;
    assert c.Base() && c.Clean();
    var rc := c.ServerFdDispatch(READABLE);
    assert was <= c.calls;
  }

  /** The server is restarted, so that its socket file is deleted and created again: whatever a client that is not
      disconnected was doing, it connects again, and tells nobody in between. */
  method Reconnect(c: Client) returns (rc: int)
    requires c.Valid() && c.env.Obliging? && !c.state.Disconnected?
    modifies c
    ensures c.Valid() && rc == 0
    ensures if c.env.clientId < 0x8000_0000 then c.state.Connected? && c.id == c.env.clientId else c.state.ErrorDelay?
    ensures c.notices == old(c.notices) +
                         if c.hasCallback && c.env.clientId < 0x8000_0000 then [NoticeConnected] else []
  {
    c.SockFileWaitCallback(FileDeleted);
    c.SockFileWaitCallback(FileCreated);
    rc := c.ServerFdDispatch(READABLE);
  }

  // ----- the environment -----

  /** A descriptor from timerfd_create or socket, -1 on failure. */
  method NewDescriptor(env: Environment) returns (fd: int)
    ensures fd >= -1 && (env.Obliging? ==> fd >= 0)
  {
    if env.Obliging? {
      fd :| fd >= 0;
    } else {
      fd :| fd >= -1;
    }
  }

  /** errno after a failed call. */
  method FailureCode() returns (errno: int)
    ensures errno > 0
  {
    errno :| errno > 0;
  }

  /** 0 for success, or the error number. */
  method ErrorNumber(env: Environment) returns (errno: nat)
    ensures env.Obliging? ==> errno == 0
  {
    if env.Obliging? {
      errno := 0;
    } else {
      errno := *;
    }
  }

  method Outcome(env: Environment) returns (success: bool)
    ensures env.Obliging? ==> success
  {
    if env.Obliging? {
      success := true;
    } else {
      success := *;
    }
  }

  /** Whether a message is of the first kind, "connected". An obliging server sends it when it is expected. */
  method FirstKind(env: Environment, expected: bool) returns (connected: bool)
    ensures env.Obliging? ==> connected == expected
  {
    if env.Obliging? {
      connected := expected;
    } else {
      connected := *;
    }
  }

  /** The client id of a "connected" message, 32 bits. */
  method ClientId(env: Environment) returns (clientId: nat)
    requires env.Obliging? ==> env.clientId < 0x1_0000_0000
    ensures clientId < 0x1_0000_0000 && (env.Obliging? ==> clientId == env.clientId)
  {
    if env.Obliging? {
      clientId := env.clientId;
    } else {
      clientId :| clientId < 0x1_0000_0000;
    }
  }
}
