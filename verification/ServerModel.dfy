/**
  The server's shared state as its I/O threads interleave on it: re-arming accepts, inserting
  and ending sessions under the sessions lock, and draining.

  A step is what one thread does between two accesses to something shared. Handlers of
  sessions may run at any moment (their strands only ever serialise them), so the model allows
  more interleavings than the threads can produce, never fewer. Only accept handlers are
  tied to threads, as the connection bound depends on how many of them can run at once.
 */
module ServerModel {
  import M = SessionModel
  import opened Sums

  // ----- Accepting -----

  /** What a thread is doing about an accepted (or failed, or rejected) connection. */
  datatype Thread =
    | Free
    | Fresh(socket: bool)                 // calling doAccept; `socket`: it will insert a session after
    | Loading(socket: bool)               // found the server neither stopped nor draining
    | Arming(socket: bool, admit: bool)   // compared the count with the limit
    | Inserting                           // re-armed; about to take the sessions lock
    | Counting(id: nat)                   // in the set, not yet in the count; holds the lock
    | Launching(id: nat)                  // released the lock; about to call start()

  datatype Acceptor = Acceptor(
    threads: seq<Thread>,
    admitting: nat,   // accepts outstanding whose connection becomes a session
    rejecting: nat    // accepts outstanding whose connection is closed at once
  )

  datatype AcceptResult = Accepted | Failed | Aborted

  function HasSocket(t: Thread): nat {
    match t
    case Fresh(b) => if b then 1 else 0
    case Loading(b) => if b then 1 else 0
    case Arming(b, _) => if b then 1 else 0
    case Inserting => 1
    case Counting(_) => 1
    case _ => 0
  }

  function Decides(t: Thread): nat {
    if t.Fresh? || t.Loading? || t.Arming? then 1 else 0
  }

  function ArmsAdmission(t: Thread): nat {
    if t.Arming? && t.admit then 1 else 0
  }

  /** Where a thread goes when its call of doAccept returns. */
  function AfterAccept(socket: bool): Thread {
    if socket then Inserting else Free
  }

  function AdmitDone(a: Acceptor, t: nat, result: AcceptResult): Acceptor
    requires a.admitting > 0 && t < |a.threads|
  {
    a.(admitting := a.admitting - 1,
       threads := a.threads[t := if result.Aborted? then Free else Fresh(result.Accepted?)])
  }

  function RejectDone(a: Acceptor, t: nat): Acceptor
    requires a.rejecting > 0 && t < |a.threads|
  {
    a.(rejecting := a.rejecting - 1, threads := a.threads[t := Fresh(false)])
  }

  function Test(a: Acceptor, t: nat, stoppedOrDraining: bool): Acceptor
    requires t < |a.threads| && a.threads[t].Fresh?
  {
    var b := a.threads[t].socket;
    a.(threads := a.threads[t := if stoppedOrDraining then AfterAccept(b) else Loading(b)])
  }

  function Load(a: Acceptor, t: nat, active: int, max: nat): Acceptor
    requires t < |a.threads| && a.threads[t].Loading?
  {
    a.(threads := a.threads[t := Arming(a.threads[t].socket, active < max)])
  }

  function Arm(a: Acceptor, t: nat): Acceptor
    requires t < |a.threads| && a.threads[t].Arming?
  {
    var th := a.threads[t];
    var a' := a.(threads := a.threads[t := AfterAccept(th.socket)]);
    if th.admit then a'.(admitting := a.admitting + 1) else a'.(rejecting := a.rejecting + 1)
  }

  /**
    At most one accept is outstanding or being decided on; and the sessions counted, the
    connections on their way to being counted, and the next admission together stay within
    the limit plus one per thread.
   */
  ghost predicate AcceptInv(a: Acceptor, active: int, max: nat) {
    && a.admitting + a.rejecting + Sum(a.threads, Decides) <= 1
    && active + Sum(a.threads, HasSocket) + a.admitting + Sum(a.threads, ArmsAdmission) <= max + |a.threads|
  }

  /** The three sums when one thread moves on. */
  lemma ThreadMoves(ts: seq<Thread>, t: nat, x: Thread)
    requires t < |ts|
    ensures Sum(ts[t := x], Decides) + Decides(ts[t]) == Sum(ts, Decides) + Decides(x)
    ensures Sum(ts[t := x], HasSocket) + HasSocket(ts[t]) == Sum(ts, HasSocket) + HasSocket(x)
    ensures Sum(ts[t := x], ArmsAdmission) + ArmsAdmission(ts[t]) == Sum(ts, ArmsAdmission) + ArmsAdmission(x)
  {
    SumUpdate(ts, t, x, Decides);
    SumUpdate(ts, t, x, HasSocket);
    SumUpdate(ts, t, x, ArmsAdmission);
  }

  lemma {:induction false} AdmissionsAreDecisions(ts: seq<Thread>)
    ensures Sum(ts, ArmsAdmission) <= Sum(ts, Decides)
    decreases |ts|
  {
    if ts == [] {
    } else {
      AdmissionsAreDecisions(ts[1..]);
    }
  }

  /** The one step that can raise the total: it may see the count before all connections are in it. */
  lemma LoadInv(a: Acceptor, t: nat, active: int, max: nat)
    requires AcceptInv(a, active, max) && t < |a.threads| && a.threads[t].Loading?
    ensures AcceptInv(Load(a, t, active, max), active, max)
  {
    var a' := Load(a, t, active, max);
    ThreadMoves(a.threads, t, a'.threads[t]);
    SumAtLeast(a.threads, t, Decides);
    AdmissionsAreDecisions(a'.threads);
    SumAtMostLength(a'.threads, HasSocket);
  }

  lemma ArmInv(a: Acceptor, t: nat, active: int, max: nat)
    requires AcceptInv(a, active, max) && t < |a.threads| && a.threads[t].Arming?
    ensures AcceptInv(Arm(a, t), active, max)
  {
    ThreadMoves(a.threads, t, AfterAccept(a.threads[t].socket));
  }

  lemma AdmitDoneInv(a: Acceptor, t: nat, result: AcceptResult, active: int, max: nat)
    requires AcceptInv(a, active, max) && a.admitting > 0 && t < |a.threads| && a.threads[t].Free?
    ensures AcceptInv(AdmitDone(a, t, result), active, max)
  {
    ThreadMoves(a.threads, t, AdmitDone(a, t, result).threads[t]);
  }

  lemma RejectDoneInv(a: Acceptor, t: nat, active: int, max: nat)
    requires AcceptInv(a, active, max) && a.rejecting > 0 && t < |a.threads| && a.threads[t].Free?
    ensures AcceptInv(RejectDone(a, t), active, max)
  {
    ThreadMoves(a.threads, t, Fresh(false));
  }

  lemma TestInv(a: Acceptor, t: nat, off: bool, active: int, max: nat)
    requires AcceptInv(a, active, max) && t < |a.threads| && a.threads[t].Fresh?
    ensures AcceptInv(Test(a, t, off), active, max)
  {
    ThreadMoves(a.threads, t, Test(a, t, off).threads[t]);
  }

  /** A thread that moves on without deciding anything. */
  function Put(a: Acceptor, t: nat, x: Thread): Acceptor
    requires t < |a.threads|
  {
    a.(threads := a.threads[t := x])
  }

  /** The lock holder, and the thread that goes on to start the session. */
  lemma InsertMoves(a: Acceptor, t: nat, id: nat, active: int, max: nat)
    requires AcceptInv(a, active, max) && t < |a.threads|
    ensures a.threads[t].Inserting? ==> AcceptInv(Put(a, t, Counting(id)), active, max)
    ensures a.threads[t].Counting? ==> AcceptInv(Put(a, t, Launching(id)), active + 1, max)
    ensures a.threads[t].Launching? ==> AcceptInv(Put(a, t, Free), active, max)
  {
    ThreadMoves(a.threads, t, Counting(id));
    ThreadMoves(a.threads, t, Launching(id));
    ThreadMoves(a.threads, t, Free);
  }

  // ----- The books: the session set, the count, and the lock that guards both -----

  datatype Lock =
    | Unlocked
    | Adding(t: nat)     // the session is in the set; the count is next
    | Erased             // out of the set; the count is next
    | Ended              // out of both; the drain check is next

  datatype Books = Books(
    sessions: seq<M.Session>,  // every session ever inserted, by number
    inserters: seq<nat>,       // history: the thread that inserted it
    registered: set<nat>,      // m_sessions
    active: int,               // m_activeSessions
    lock: Lock                 // m_sessionsMutex, and what its holder has done so far
  )

  function InsertBook(b: Books, t: nat): Books {
    b.(sessions := b.sessions + [M.FRESH], inserters := b.inserters + [t],
       registered := b.registered + {|b.sessions|}, lock := Adding(t))
  }

  function CountBook(b: Books): Books {
    b.(active := b.active + 1, lock := Unlocked)
  }

  function EraseBook(b: Books, i: nat): Books
    requires i < |b.sessions| && b.sessions[i].endCalls > 0
  {
    var s := b.sessions[i];
    b.(sessions := b.sessions[i := s.(endCalls := s.endCalls - 1, removed := true)],
       registered := b.registered - {i}, lock := Erased)
  }

  function DecrementBook(b: Books): Books {
    b.(active := b.active - 1, lock := Ended)
  }

  /** How far the count is behind or ahead of the set, depending on where the lock holder is. */
  function Offset(l: Lock): int {
    match l
    case Adding(_) => 1
    case Erased => -1
    case _ => 0
  }

  ghost predicate BooksInv(b: Books) {
    && |b.inserters| == |b.sessions|
    && (forall i :: i in b.registered <==> 0 <= i < |b.sessions| && !b.sessions[i].removed)
    && |b.registered| == b.active + Offset(b.lock)
    // The counter never goes below zero, nor is it decremented at zero.
    && b.active >= (if b.lock.Erased? then 1 else 0)
  }

  lemma InsertBookInv(b: Books, t: nat)
    requires BooksInv(b) && b.lock.Unlocked?
    ensures BooksInv(InsertBook(b, t))
  {
    assert |b.sessions| !in b.registered;
  }

  /** The session being ended is still registered, so erasing it takes exactly one out. */
  lemma EraseBookInv(b: Books, i: nat)
    requires BooksInv(b) && b.lock.Unlocked?
    requires i < |b.sessions| && b.sessions[i].endCalls > 0 && !b.sessions[i].removed
    ensures BooksInv(EraseBook(b, i))
  {
    assert i in b.registered;
  }
}
