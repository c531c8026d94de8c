/** The reconnect protocol between the server thread and the client threads
    (src/serverm.c, src/serverc.c, src/libconnth/poll.c, ce.c and conn.c): a
    client thread that cannot write drops its descriptor and waits; the server
    closes it and hands over the one of the new connection. All steps that the
    threads can interleave are separate transitions. */
module Reconnect {

  const NONE: int := -1

  /** Where a client thread is. It holds `fd` itself; Holding(x) is the moment
      between reading x under the mutex and storing it. */
  datatype ThreadPc = Sending | Dropped | Waiting | Holding(x: int)

  datatype Thread = NotCreated | Alive(pc: ThreadPc, fd: int) | Exited | Joined

  /** One table entry: the server's descriptor (pfd) and copy of it (ce.fd), the
      created flag, the shared struct thread_info_st, and the thread. */
  datatype Client = Client(
    pfd: int, ceFd: int, created: bool, status: int, clientFd: int, thread: Thread)

  datatype ServerPc =
    | Idle
    | Creating(c: nat)                // pthread_create done, flag not yet set
    | SweepRunning(c: nat)            // dirty sweep: the entry is a running client
    | SweepDirty(c: nat)              // ... whose connection_status is set
    | SweepClosed(c: nat)             // ... whose descriptor was closed
    | Restoring(c: nat, fd: int)      // shared fields set, pfd not yet
    | Deleting(c: nat)                // thread joined, or never created

  /** `open`: the descriptors open for connections, with their clients. */
  datatype State = State(clients: map<nat, Client>, open: map<int, nat>, server: ServerPc)

  datatype Step =
    // server thread
    | Accept(c: nat, fd: int)
    | CreateThread(c: nat)
    | MarkCreated
    | CheckRunning(c: nat)
    | CheckStatus
    | CloseDirty(ok: bool)
    | MarkClosed
    | Restore(c: nat, fd: int)
    | MarkRestored
    | Join(c: nat)
    | CloseDeleted(ok: bool)
    // client threads
    | WriteFails(c: nat)
    | RaiseStatus(c: nat, locked: bool)
    | ReadStatus(c: nat)
    | StoreFd(c: nat)
    | Exit(c: nat)

  predicate AliveAt(s: State, c: nat) { c in s.clients && s.clients[c].thread.Alive? }

  predicate HasThread(cl: Client) { cl.thread.Alive? || cl.thread.Exited? }

  predicate Enabled(s: State, step: Step)
  {
    match step
    case Accept(c, fd) => s.server == Idle && c !in s.clients && 0 <= fd && fd !in s.open
    case CreateThread(c) => s.server == Idle && c in s.clients && s.clients[c].thread == NotCreated
    case MarkCreated => s.server.Creating?
    case CheckRunning(c) => s.server == Idle && AliveAt(s, c) && s.clients[c].created
    case CheckStatus => s.server.SweepRunning?
    case CloseDirty(_) => s.server.SweepDirty?
    case MarkClosed => s.server.SweepClosed?
    case Restore(c, fd) =>
      && s.server == Idle && c in s.clients && HasThread(s.clients[c])
      && s.clients[c].status != 0 && 0 <= fd && fd !in s.open
    case MarkRestored => s.server.Restoring?
    case Join(c) => s.server == Idle && c in s.clients
    case CloseDeleted(_) => s.server.Deleting?
    case WriteFails(c) => AliveAt(s, c) && s.clients[c].thread.pc == Sending && s.clients[c].thread.fd != NONE
    case RaiseStatus(c, _) => AliveAt(s, c) && s.clients[c].thread.pc == Dropped
    case ReadStatus(c) => AliveAt(s, c) && s.clients[c].thread.pc == Waiting
    case StoreFd(c) => AliveAt(s, c) && s.clients[c].thread.pc.Holding?
    case Exit(c) => AliveAt(s, c)
  }

  function With(s: State, c: nat, cl: Client): State { s.(clients := s.clients[c := cl]) }

  predicate Present(s: State)
  {
    s.server != Idle ==> s.server.c in s.clients
  }

  function Apply(s: State, step: Step): State
    requires Enabled(s, step) && Present(s)
  {
    match step
    case Accept(c, fd) =>
      s.(clients := s.clients[c := Client(fd, fd, false, 0, fd, NotCreated)], open := s.open[fd := c])
    case CreateThread(c) =>
      var cl := s.clients[c];
      With(s, c, cl.(status := 0, clientFd := cl.ceFd, thread := Alive(Sending, cl.ceFd))).(server := Creating(c))
    case MarkCreated =>
      With(s, s.server.c, s.clients[s.server.c].(created := true)).(server := Idle)
    case CheckRunning(c) => s.(server := SweepRunning(c))
    case CheckStatus =>
      var cl := s.clients[s.server.c];
      s.(server := if cl.status != 0 && cl.pfd != NONE then SweepDirty(s.server.c) else Idle)
    case CloseDirty(ok) =>
      if ok then s.(open := s.open - {s.clients[s.server.c].pfd}, server := SweepClosed(s.server.c))
      else s.(server := Idle)
    case MarkClosed =>
      With(s, s.server.c, s.clients[s.server.c].(pfd := NONE)).(server := Idle)
    case Restore(c, fd) =>
      With(s, c, s.clients[c].(clientFd := fd, status := 0)).(open := s.open[fd := c], server := Restoring(c, fd))
    case MarkRestored =>
      With(s, s.server.c, s.clients[s.server.c].(pfd := s.server.fd)).(server := Idle)
    case Join(c) =>
      var cl := s.clients[c];
      With(s, c, cl.(thread := if HasThread(cl) then Joined else cl.thread)).(server := Deleting(c))
    case CloseDeleted(ok) =>
      var cl := s.clients[s.server.c];
      State(s.clients - {s.server.c},
            if cl.pfd != NONE && ok then s.open - {cl.pfd} else s.open,
            Idle)
    case WriteFails(c) => With(s, c, s.clients[c].(thread := Alive(Dropped, NONE)))
    case RaiseStatus(c, locked) =>
      var cl := s.clients[c];
      With(s, c, if locked then cl.(clientFd := NONE, status := 1, thread := Alive(Waiting, NONE))
                 else cl.(thread := Alive(Waiting, NONE)))
    case ReadStatus(c) =>
      var cl := s.clients[c];
      if cl.status == 0 then With(s, c, cl.(thread := Alive(Holding(cl.clientFd), cl.thread.fd))) else s
    case StoreFd(c) =>
      With(s, c, s.clients[c].(thread := Alive(Sending, s.clients[c].thread.pc.x)))
    case Exit(c) => With(s, c, s.clients[c].(thread := Exited))
  }

  // ---------- the invariant ----------

  /** The descriptor is open, belongs to c, and the server has it on record. */
  predicate Backed(s: State, c: nat, cl: Client, d: int)
  {
    d in s.open && s.open[d] == c && (cl.pfd == d || s.server == Restoring(c, d))
  }

  predicate ClientInv(s: State, c: nat, cl: Client)
  {
    // shared fields
    && (cl.status == 0 || cl.status == 1)
    && (cl.thread == NotCreated ==> cl.status == 0 && cl.clientFd == cl.ceFd)
    && (cl.status == 0 && !cl.thread.Joined? && s.server != Deleting(c) ==> Backed(s, c, cl, cl.clientFd))
    // the server's descriptor
    && (cl.pfd != NONE && s.server != SweepClosed(c) ==> cl.pfd in s.open && s.open[cl.pfd] == c)
    && (cl.created ==> cl.thread != NotCreated)
    && (HasThread(cl) ==> cl.created || s.server == Creating(c))
    && (cl.thread.Joined? ==> s.server == Deleting(c))
    // the thread
    && (cl.thread.Alive? ==>
          && (cl.thread.fd != NONE ==> cl.thread.pc == Sending && cl.status == 0 && cl.clientFd == cl.thread.fd)
          && (cl.thread.pc == Dropped ==> cl.status == 0)
          && (cl.thread.pc.Holding? ==> cl.status == 0 && cl.clientFd == cl.thread.pc.x)
          && (cl.status != 0 ==> cl.thread.pc == Waiting))
  }

  predicate ServerInv(s: State)
  {
    match s.server
    case Idle => true
    case Creating(c) => c in s.clients && s.clients[c].thread != NotCreated
    case SweepRunning(c) => c in s.clients && HasThread(s.clients[c])
    case SweepDirty(c) => c in s.clients && HasThread(s.clients[c]) && s.clients[c].status != 0 && s.clients[c].pfd != NONE
    case SweepClosed(c) =>
      c in s.clients && HasThread(s.clients[c]) && s.clients[c].status != 0 && s.clients[c].pfd !in s.open
    case Restoring(c, fd) =>
      && c in s.clients && HasThread(s.clients[c]) && fd in s.open && s.open[fd] == c
      && (s.clients[c].status == 0 ==> s.clients[c].clientFd == fd) && s.clients[c].pfd != fd
    case Deleting(c) => c in s.clients && !HasThread(s.clients[c])
  }

  predicate Inv(s: State)
  {
    && ServerInv(s)
    && (forall d :: d in s.open ==> d >= 0)
    && (forall c :: c in s.clients ==> ClientInv(s, c, s.clients[c]))
  }

  predicate ThreadStep(step: Step)
  {
    step.WriteFails? || step.RaiseStatus? || step.ReadStatus? || step.StoreFd? || step.Exit?
  }

  predicate SweepStep(step: Step)
  {
    step.CheckRunning? || step.CheckStatus? || step.CloseDirty? || step.MarkClosed?
  }

  lemma ThreadStepKeepsInv(s: State, step: Step)
    requires Inv(s) && Enabled(s, step) && ThreadStep(step)
    ensures Inv(Apply(s, step))
  {
    var t := Apply(s, step);
    assert t.open == s.open && t.server == s.server && ServerInv(t);
    OwnThread(s, step);
    hide Apply;
    hide Enabled;
    hide ServerInv;
    forall c | c in t.clients ensures ClientInv(t, c, t.clients[c]) {
      ClientInvSame(s, t, c, t.clients[c]);
    }
  }

  lemma ClientInvSame(s: State, t: State, c: nat, cl: Client)
    requires s.open == t.open && s.server == t.server
    ensures ClientInv(s, c, cl) <==> ClientInv(t, c, cl)
  {
  }

  lemma OwnThread(s: State, step: Step)
    requires Inv(s) && Enabled(s, step) && ThreadStep(step)
    ensures var t := Apply(s, step);
            && step.c in t.clients && ClientInv(s, step.c, t.clients[step.c])
            && forall c :: c in t.clients && c != step.c ==> c in s.clients && t.clients[c] == s.clients[c]
  {
    assert ClientInv(s, step.c, s.clients[step.c]);
  }

  lemma SweepStepKeepsInv(s: State, step: Step)
    requires Inv(s) && Enabled(s, step) && SweepStep(step)
    ensures Inv(Apply(s, step))
  {
  }

  lemma TableStepKeepsInv(s: State, step: Step)
    requires Inv(s) && Enabled(s, step) && !ThreadStep(step) && !SweepStep(step)
    ensures Inv(Apply(s, step))
  {
  }

  lemma StepKeepsInv(s: State, step: Step)
    requires Inv(s) && Enabled(s, step)
    ensures Inv(Apply(s, step))
  {
    if ThreadStep(step) {
      ThreadStepKeepsInv(s, step);
    } else if SweepStep(step) {
      SweepStepKeepsInv(s, step);
    } else {
      TableStepKeepsInv(s, step);
    }
  }

  // ---------- every interleaving ----------

  /** The steps can be taken one after another from s. */
  predicate Possible(s: State, steps: seq<Step>)
    decreases |steps|
  {
    steps == [] ||
    (Present(s) && Enabled(s, steps[0]) && Possible(Apply(s, steps[0]), steps[1..]))
  }

  function After(s: State, steps: seq<Step>): State
    requires Possible(s, steps)
    decreases |steps|
  {
    if steps == [] then s else After(Apply(s, steps[0]), steps[1..])
  }

  lemma {:induction false} RunKeepsInv(s: State, steps: seq<Step>)
    requires Inv(s) && Possible(s, steps)
    ensures Inv(After(s, steps))
    decreases |steps|
  {
    if steps != [] {
      StepKeepsInv(s, steps[0]);
      RunKeepsInv(Apply(s, steps[0]), steps[1..]);
    }
  }

  const START := State(map[], map[], Idle)

  /** A thread holding a live descriptor has connection_status 0 and that same
      client_fd; the descriptor is open, is this client's connection, and the
      server either polls it or is about to. */
  lemma HolderIsCurrent(steps: seq<Step>, c: nat)
    requires Possible(START, steps) && AliveAt(After(START, steps), c)
    ensures var s := After(START, steps);
            var cl := s.clients[c];
            cl.thread.fd != NONE ==>
              && cl.status == 0 && cl.clientFd == cl.thread.fd
              && cl.thread.fd in s.open && s.open[cl.thread.fd] == c
              && (cl.pfd == cl.thread.fd || s.server == Restoring(c, cl.thread.fd))
  {
    RunKeepsInv(START, steps);
  }

  /** No two threads ever hold the same descriptor. */
  lemma HoldersAreApart(steps: seq<Step>, c: nat, d: nat)
    requires Possible(START, steps) && c != d
    requires AliveAt(After(START, steps), c) && AliveAt(After(START, steps), d)
    ensures var s := After(START, steps);
            s.clients[c].thread.fd != NONE ==> s.clients[c].thread.fd != s.clients[d].thread.fd
  {
    HolderIsCurrent(steps, c);
    HolderIsCurrent(steps, d);
  }

  /** The thread of c has let go of its descriptor, was joined, or never ran. */
  predicate LetGo(s: State, c: nat)
  {
    c in s.clients ==>
      !s.clients[c].thread.Alive? || (s.clients[c].thread.fd == NONE && s.clients[c].thread.pc == Waiting)
  }

  /** The server closes a client's descriptor only when its thread has dropped
      it to -1 and said so, has exited or been joined, or was never created. */
  lemma ClosesOnlyWhenLetGo(steps: seq<Step>, step: Step, fd: int)
    requires Possible(START, steps) && Present(After(START, steps)) && Enabled(After(START, steps), step)
    requires fd in After(START, steps).open && fd !in Apply(After(START, steps), step).open
    ensures LetGo(After(START, steps), After(START, steps).open[fd])
  {
    RunKeepsInv(START, steps);
  }

  // ---------- clients that are served ----------

  /** The state with another entry for c, other open descriptors and another server. */
  function At(s: State, c: nat, cl: Client, fds: map<int, nat>, pc: ServerPc): State
  {
    State(s.clients[c := cl], fds, pc)
  }

  lemma {:induction false} Joins(s: State, a: seq<Step>, b: seq<Step>)
    requires Possible(s, a) && Possible(After(s, a), b)
    ensures Possible(s, a + b) && After(s, a + b) == After(After(s, a), b)
    decreases |a|
  {
    if a == [] {
      assert a + b == b;
    } else {
      assert (a + b)[1..] == a[1..] + b;
      Joins(Apply(s, a[0]), a[1..], b);
    }
  }

  lemma TwoSteps(s: State, a: Step, b: Step)
    requires Present(s) && Enabled(s, a) && Present(Apply(s, a)) && Enabled(Apply(s, a), b)
    ensures Possible(s, [a, b]) && After(s, [a, b]) == Apply(Apply(s, a), b)
  {
    hide Apply;
    hide Enabled;
    var t := Apply(s, a);
    OneMore(t, b, []);
    OneMore(s, a, [b]);
    assert [a] + [b] == [a, b] && [b] + [] == [b];
  }

  /** A new client is served: its thread sends on the descriptor accepted. */
  lemma NewClientIsServed(s: State, c: nat, fd: int)
    requires s.server == Idle && c !in s.clients && 0 <= fd && fd !in s.open
    ensures var steps := [Accept(c, fd), CreateThread(c)] + [MarkCreated];
            && Possible(s, steps)
            && After(s, steps) == At(s, c, Client(fd, fd, true, 0, fd, Alive(Sending, fd)), s.open[fd := c], Idle)
  {
    TwoSteps(s, Accept(c, fd), CreateThread(c));
    var t := After(s, [Accept(c, fd), CreateThread(c)]);
    OneMore(t, MarkCreated, []);
    assert [MarkCreated] + [] == [MarkCreated];
    Joins(s, [Accept(c, fd), CreateThread(c)], [MarkCreated]);
    assert After(s, [Accept(c, fd), CreateThread(c)] + [MarkCreated]).clients
        == s.clients[c := Client(fd, fd, true, 0, fd, Alive(Sending, fd))];
  }

  /** A thread that cannot write lets go of its descriptor and says so. */
  lemma WriterLetsGo(s: State, c: nat)
    requires Present(s) && AliveAt(s, c) && s.clients[c].thread.pc == Sending && s.clients[c].thread.fd != NONE
    ensures var steps := [WriteFails(c), RaiseStatus(c, true)];
            var down := s.clients[c].(clientFd := NONE, status := 1, thread := Alive(Waiting, NONE));
            Possible(s, steps) && After(s, steps) == At(s, c, down, s.open, s.server)
  {
    TwoSteps(s, WriteFails(c), RaiseStatus(c, true));
    assert After(s, [WriteFails(c), RaiseStatus(c, true)]).clients
        == s.clients[c := s.clients[c].(clientFd := NONE, status := 1, thread := Alive(Waiting, NONE))];
  }

  /** The sweep closes the descriptor of a connection that is down. */
  lemma SweepCloses(s: State, c: nat)
    requires s.server == Idle && AliveAt(s, c) && s.clients[c].created
    requires s.clients[c].status != 0 && s.clients[c].pfd != NONE
    ensures var steps := [CheckRunning(c), CheckStatus] + [CloseDirty(true), MarkClosed];
            && Possible(s, steps)
            && After(s, steps) == At(s, c, s.clients[c].(pfd := NONE), s.open - {s.clients[c].pfd}, Idle)
  {
    TwoSteps(s, CheckRunning(c), CheckStatus);
    var t := After(s, [CheckRunning(c), CheckStatus]);
    assert t == s.(server := SweepDirty(c));
    TwoSteps(t, CloseDirty(true), MarkClosed);
    Joins(s, [CheckRunning(c), CheckStatus], [CloseDirty(true), MarkClosed]);
  }

  /** A client that is down gets the descriptor of its new connection. */
  lemma ClientIsRestored(s: State, c: nat, fd: int)
    requires s.server == Idle && AliveAt(s, c) && s.clients[c].status != 0 && 0 <= fd && fd !in s.open
    ensures var steps := [Restore(c, fd), MarkRestored];
            && Possible(s, steps)
            && After(s, steps) == At(s, c, s.clients[c].(clientFd := fd, status := 0, pfd := fd), s.open[fd := c], Idle)
  {
    TwoSteps(s, Restore(c, fd), MarkRestored);
    assert After(s, [Restore(c, fd), MarkRestored]).clients
        == s.clients[c := s.clients[c].(clientFd := fd, status := 0, pfd := fd)];
  }

  /** A thread that waits takes up the descriptor as soon as the status is 0, and it
      is an open one of its own client. */
  lemma WaiterIsServed(s: State, c: nat)
    requires Inv(s) && AliveAt(s, c) && s.clients[c].thread.pc == Waiting && s.clients[c].status == 0
    ensures var steps := [ReadStatus(c), StoreFd(c)];
            var cl := s.clients[c];
            && Possible(s, steps)
            && After(s, steps) == At(s, c, cl.(thread := Alive(Sending, cl.clientFd)), s.open, s.server)
            && cl.clientFd in s.open && s.open[cl.clientFd] == c
  {
    assert ClientInv(s, c, s.clients[c]);
    TwoSteps(s, ReadStatus(c), StoreFd(c));
    var cl := s.clients[c];
    assert After(s, [ReadStatus(c), StoreFd(c)]).clients
        == s.clients[c := cl.(thread := Alive(Sending, cl.clientFd))];
  }

  /** ... and holds none until then, however often it looks. */
  lemma WaiterHoldsNone(steps: seq<Step>, c: nat)
    requires Possible(START, steps) && AliveAt(After(START, steps), c) && After(START, steps).clients[c].status != 0
    ensures var s := After(START, steps);
            && s.clients[c].thread == Alive(Waiting, NONE)
            && Present(s) && Enabled(s, ReadStatus(c)) && Apply(s, ReadStatus(c)) == s
  {
    RunKeepsInv(START, steps);
    assert ClientInv(After(START, steps), c, After(START, steps).clients[c]);
  }

  function RoundTripSteps(c: nat, fd: int): seq<Step>
  {
    [WriteFails(c), RaiseStatus(c, true)]
    + (([CheckRunning(c), CheckStatus] + [CloseDirty(true), MarkClosed])
       + ([Restore(c, fd), MarkRestored] + [ReadStatus(c), StoreFd(c)]))
  }

  /** Whenever the server is idle and a thread is sending, this can happen: the write
      fails, the sweep closes the old descriptor, the client reconnects, and the
      thread sends on the new descriptor. Nothing else has changed then. */
  lemma RoundTrip(steps: seq<Step>, c: nat, fd: int)
    requires Possible(START, steps) && AliveAt(After(START, steps), c) && After(START, steps).server == Idle
    requires After(START, steps).clients[c].thread.pc == Sending && After(START, steps).clients[c].thread.fd != NONE
    requires 0 <= fd && fd !in After(START, steps).open
    ensures var s := After(START, steps);
            var cl := s.clients[c];
            && Possible(s, RoundTripSteps(c, fd))
            && After(s, RoundTripSteps(c, fd)) ==
               At(s, c, cl.(pfd := fd, clientFd := fd, thread := Alive(Sending, fd)),
                  (s.open - {cl.thread.fd})[fd := c], Idle)
            && cl.thread.fd in s.open && cl.thread.fd != fd
  {
    hide Apply;
    hide Enabled;
    hide Possible;
    hide After;
    hide ServerInv;
    var s := After(START, steps);
    RunKeepsInv(START, steps);
    var cl := s.clients[c];
    assert ClientInv(s, c, cl);
    var down := [WriteFails(c), RaiseStatus(c, true)];
    var sweep := [CheckRunning(c), CheckStatus] + [CloseDirty(true), MarkClosed];
    var restore, resume := [Restore(c, fd), MarkRestored], [ReadStatus(c), StoreFd(c)];
    WriterLetsGo(s, c);
    var s1 := After(s, down);
    SweepCloses(s1, c);
    var s2 := After(s1, sweep);
    ClientIsRestored(s2, c, fd);
    var s3 := After(s2, restore);
    RunKeepsInv(s, down);
    RunKeepsInv(s1, sweep);
    RunKeepsInv(s2, restore);
    WaiterIsServed(s3, c);
    Joins(s2, restore, resume);
    Joins(s1, sweep, restore + resume);
    Joins(s, down, sweep + (restore + resume));
    var last := cl.(pfd := fd, clientFd := fd, thread := Alive(Sending, fd));
    assert After(s3, resume).clients == s.clients[c := last];
  }

  /** A thread can exit at any time, and changes nothing that the server sees. */
  lemma ThreadCanExit(s: State, c: nat)
    requires Present(s) && AliveAt(s, c)
    ensures Possible(s, [Exit(c)])
    ensures After(s, [Exit(c)]) == At(s, c, s.clients[c].(thread := Exited), s.open, s.server)
  {
    OneMore(s, Exit(c), []);
    assert [Exit(c)] + [] == [Exit(c)];
  }

  /** A client that is deleted leaves no entry and no open descriptor. */
  lemma DeletedIsGone(s: State, c: nat)
    requires Inv(s) && s.server == Idle && c in s.clients
    ensures var steps := [Join(c), CloseDeleted(true)];
            && Possible(s, steps)
            && After(s, steps) == State(s.clients - {c}, s.open - {s.clients[c].pfd}, Idle)
  {
    var t := Apply(s, Join(c));
    assert t.clients - {c} == s.clients - {c} && t.open == s.open && t.clients[c].pfd == s.clients[c].pfd;
    assert s.open - {NONE} == s.open;
    hide Inv;
    TwoSteps(s, Join(c), CloseDeleted(true));
  }

  /** A sweep that finds the status 0, or cannot close the descriptor, changes nothing
      but the server's place; so it can be tried again. */
  lemma SweepCanBeRepeated(s: State, c: nat)
    requires s.server == Idle && AliveAt(s, c) && s.clients[c].created
    ensures s.clients[c].status == 0 ==>
              Possible(s, [CheckRunning(c), CheckStatus]) && After(s, [CheckRunning(c), CheckStatus]) == s
    ensures s.clients[c].status != 0 && s.clients[c].pfd != NONE ==>
              var steps := [CheckRunning(c), CheckStatus] + [CloseDirty(false)];
              Possible(s, steps) && After(s, steps) == s
  {
    TwoSteps(s, CheckRunning(c), CheckStatus);
    var t := After(s, [CheckRunning(c), CheckStatus]);
    if s.clients[c].status != 0 && s.clients[c].pfd != NONE {
      assert t == s.(server := SweepDirty(c));
      OneMore(t, CloseDirty(false), []);
      assert [CloseDirty(false)] + [] == [CloseDirty(false)];
      Joins(s, [CheckRunning(c), CheckStatus], [CloseDirty(false)]);
    }
  }

  /** A thread that cannot take the lock lets go too, and changes nothing that the
      server sees. */
  lemma UnlockedLetsGo(s: State, c: nat)
    requires Present(s) && AliveAt(s, c) && s.clients[c].thread.pc == Sending && s.clients[c].thread.fd != NONE
    ensures var steps := [WriteFails(c), RaiseStatus(c, false)];
            && Possible(s, steps)
            && After(s, steps) == At(s, c, s.clients[c].(thread := Alive(Waiting, NONE)), s.open, s.server)
  {
    TwoSteps(s, WriteFails(c), RaiseStatus(c, false));
    assert After(s, [WriteFails(c), RaiseStatus(c, false)]).clients
        == s.clients[c := s.clients[c].(thread := Alive(Waiting, NONE))];
  }

  // ---------- descriptors nobody closes ----------

  /** Open, but no longer on record with the server. */
  predicate Orphan(s: State, fd: int)
  {
    && fd in s.open
    && (forall c :: c in s.clients ==> s.clients[c].pfd != fd)
    && !(s.server.Restoring? && s.server.fd == fd)
  }

  /** Such a descriptor is never closed and never reused. */
  lemma {:induction false} OrphansStay(s: State, steps: seq<Step>, fd: int)
    requires Inv(s) && Possible(s, steps) && Orphan(s, fd)
    ensures Orphan(After(s, steps), fd)
    decreases |steps|
  {
    if steps != [] {
      StepKeepsInv(s, steps[0]);
      OrphanStays(s, steps[0], fd);
      OrphansStay(Apply(s, steps[0]), steps[1..], fd);
    }
  }

  lemma OrphanStays(s: State, step: Step, fd: int)
    requires Inv(s) && Enabled(s, step) && Orphan(s, fd)
    ensures Orphan(Apply(s, step), fd)
  {
  }

  /** A step orphans a descriptor exactly when a reconnection overtakes the dirty
      sweep (the old descriptor is still on record when the new one replaces it),
      or when close() fails on a deleted client. */
  predicate Loses(s: State, step: Step)
    requires Present(s) && Enabled(s, step)
  {
    (step == MarkRestored || step == CloseDeleted(false)) && s.clients[s.server.c].pfd != NONE
  }

  lemma OrphansExactlyWhenLost(s: State, step: Step)
    requires Inv(s) && Present(s) && Enabled(s, step)
    ensures Loses(s, step) <==> exists fd :: !Orphan(s, fd) && Orphan(Apply(s, step), fd)
  {
    if Loses(s, step) {
      var fd := s.clients[s.server.c].pfd;
      assert !Orphan(s, fd) && Orphan(Apply(s, step), fd);
    } else {
      var t := Apply(s, step);
      forall fd | Orphan(t, fd) ensures Orphan(s, fd) {
        if step.Accept? {
          assert t.clients[step.c].pfd == step.fd;
        } else if step == MarkRestored {
          assert t.clients[s.server.c].pfd == s.server.fd;
        }
        forall c | c in s.clients ensures s.clients[c].pfd != fd {
          assert c in t.clients ==> t.clients[c].pfd != fd;
        }
      }
    }
  }

  /** A client whose thread has just failed to write. */
  const FAILED := State(map[1 := Client(5, 5, true, 0, 5, Alive(Dropped, NONE))], map[5 := 1], Idle)

  lemma ReconnectAfterFailure()
    ensures var steps := [RaiseStatus(1, true), Restore(1, 6), MarkRestored];
            Possible(FAILED, steps) && Orphan(After(FAILED, steps), 5)
  {
    var s1 := Apply(FAILED, RaiseStatus(1, true));
    var s2 := Apply(s1, Restore(1, 6));
    OneMore(s2, MarkRestored, []);
    OneMore(s1, Restore(1, 6), [MarkRestored]);
    OneMore(FAILED, RaiseStatus(1, true), [Restore(1, 6), MarkRestored]);
  }

  /** A run in which that happens: the thread fails and the client reconnects
      before the next sweep. */
  lemma ReconnectCanOvertakeSweep()
    ensures var steps := [Accept(1, 5), CreateThread(1), MarkCreated, WriteFails(1),
                          RaiseStatus(1, true), Restore(1, 6), MarkRestored];
            Possible(START, steps) && Orphan(After(START, steps), 5)
  {
    hide Possible;
    hide After;
    hide Orphan;
    var last := [RaiseStatus(1, true), Restore(1, 6), MarkRestored];
    var s1 := Apply(START, Accept(1, 5));
    var s2 := Apply(s1, CreateThread(1));
    var s3 := Apply(s2, MarkCreated);
    assert Apply(s3, WriteFails(1)) == FAILED;
    ReconnectAfterFailure();
    OneMore(s3, WriteFails(1), last);
    OneMore(s2, MarkCreated, [WriteFails(1)] + last);
    OneMore(s1, CreateThread(1), [MarkCreated] + ([WriteFails(1)] + last));
    OneMore(START, Accept(1, 5), [CreateThread(1)] + ([MarkCreated] + ([WriteFails(1)] + last)));
    assert [Accept(1, 5)] + ([CreateThread(1)] + ([MarkCreated] + ([WriteFails(1)] + last)))
        == [Accept(1, 5), CreateThread(1), MarkCreated, WriteFails(1), RaiseStatus(1, true), Restore(1, 6), MarkRestored];
  }

  lemma OneMore(s: State, step: Step, rest: seq<Step>)
    requires Present(s) && Enabled(s, step) && Possible(Apply(s, step), rest)
    ensures Possible(s, [step] + rest) && After(s, [step] + rest) == After(Apply(s, step), rest)
  {
    assert ([step] + rest)[1..] == rest;
  }
}
