/** The transfer section of linux/lib/memory_mapping/linux_memory_mapping.c in Thread mode,
    composed with the log handshake: each thread opens its file, takes `p_mutex`, maps and sends
    the file, releases `p_mutex`, and then calls the log routine. */
module TransferLock {
  import opened LogPipe

  /** How the system calls on a thread's file turn out. */
  datatype File = Served | Empty | StatFails | MapFails | OpenFails

  /** The early returns taken with `p_mutex` held. */
  predicate Leaks(f: File) { f == Empty || f == StatFails || f == MapFails }

  datatype ThreadPc =
    | AtOpen
    | AtTransferLock  // about to lock p_mutex
    | InTransfer      // holds p_mutex
    | Sent            // holds p_mutex, about to unlock it
    | Released        // about to close the socket and call the log routine
    | InLog           // inside or past the log routine
    | Left            // returned an error without logging

  datatype Holder = Free | HeldBy(id: nat)

  datatype Server = Server(files: seq<File>, threads: seq<ThreadPc>, transfer: Holder, log: State)

  datatype Move = Transfer(i: nat) | Log(step: Step)

  predicate Start(s: Server) {
    && |s.files| == |s.threads| == |s.log.handlers|
    && s.transfer == Free && Init(s.log)
    && forall i :: 0 <= i < |s.threads| ==> s.threads[i] == AtOpen
  }

  predicate TransferEnabled(s: Server, i: nat) {
    && i < |s.threads| && i < |s.files| && HandlerEnabled(s.log, i)
    && match s.threads[i] {
      case AtOpen => true
      case AtTransferLock => s.transfer == Free
      case InTransfer => true
      case Sent => true
      case Released => s.log.handlers[i] == Busy
      case InLog => false
      case Left => false
    }
  }

  function TransferNext(s: Server, i: nat): Server
    requires TransferEnabled(s, i)
  {
    match s.threads[i] {
      case AtOpen =>
        s.(threads := s.threads[i := if s.files[i] == OpenFails then Left else AtTransferLock])
      case AtTransferLock =>
        s.(threads := s.threads[i := InTransfer], transfer := HeldBy(i))
      case InTransfer =>
        match s.files[i] {
          case Served => s.(threads := s.threads[i := Sent])
          case OpenFails => s.(threads := s.threads[i := Left])
          case Empty => s.(threads := s.threads[i := InLog], log := HandlerNext(s.log, i))
          case StatFails => s.(threads := s.threads[i := Left])
          case MapFails => s.(threads := s.threads[i := Left])
        }
      case Sent => s.(threads := s.threads[i := Released], transfer := Free)
      case Released => s.(threads := s.threads[i := InLog], log := HandlerNext(s.log, i))
      case InLog => s
      case Left => s
    }
  }

  /** What a thread does outside the log routine, file by file: it leaves with p_mutex locked exactly for
      an empty file, a failing `fstat` and a failing `mmap`, and calls the log routine exactly for a file
      that was sent or is empty. */
  lemma TransferSteps(s: Server, i: nat)
    requires TransferEnabled(s, i)
    ensures var t := TransferNext(s, i); var pc, pc', f := s.threads[i], t.threads[i], s.files[i];
      && (pc == AtOpen ==> t.transfer == s.transfer && pc' == if f == OpenFails then Left else AtTransferLock)
      && (pc == AtTransferLock ==> s.transfer == Free && t.transfer == HeldBy(i) && pc' == InTransfer)
      && (pc == InTransfer ==> t.transfer == s.transfer)
      && (pc == InTransfer ==> pc' == if f == Served then Sent else if f == Empty then InLog else Left)
      && (pc == Sent ==> t.transfer == Free && pc' == Released)
      && (pc == Released ==> t.transfer == s.transfer && pc' == InLog)
      && t.log == if pc' == InLog then HandlerNext(s.log, i) else s.log
    ensures Leaks(s.files[i]) <==> s.files[i] in {Empty, StatFails, MapFails}
  {
  }

  predicate MoveEnabled(s: Server, m: Move) {
    match m {
      case Transfer(i) => TransferEnabled(s, i)
      case Log(step) => Enabled(s.log, step) &&
        (step.HandlerStep? ==> step.i < |s.threads| && s.threads[step.i] == InLog)
    }
  }

  function MoveNext(s: Server, m: Move): Server
    requires MoveEnabled(s, m)
  {
    match m {
      case Transfer(i) => TransferNext(s, i)
      case Log(step) => s.(log := Next(s.log, step))
    }
  }

  ghost predicate Serving(run: seq<Server>, moves: seq<Move>) {
    && |run| == |moves| + 1
    && forall k :: 0 <= k < |moves| ==> MoveEnabled(run[k], moves[k]) && run[k + 1] == MoveNext(run[k], moves[k])
  }

  ghost predicate QuietMoves(moves: seq<Move>) {
    Log(SpuriousWakeup) !in moves
  }

  // ---------- invariant ----------

  predicate InSection(pc: ThreadPc) { pc == InTransfer || pc == Sent }

  /** A thread owns p_mutex while it is in the section, and for ever after a leaking return. */
  predicate Owns(f: File, pc: ThreadPc) {
    InSection(pc) || (Leaks(f) && (pc == InLog || pc == Left))
  }

  /** What ties a thread's position to its file, to the log and to p_mutex. */
  predicate ThreadInv(f: File, pc: ThreadPc, logging: HandlerPc, owner: bool) {
    && (Owns(f, pc) <==> owner)
    && (pc == InLog <==> logging != Busy)
    && match f {
      case Served => pc != Left
      case Empty => pc != Left && pc != Sent && pc != Released
      case StatFails => pc != InLog && pc != Sent && pc != Released
      case MapFails => pc != InLog && pc != Sent && pc != Released
      case OpenFails => pc == AtOpen || pc == Left
    }
  }

  ghost predicate ServerInv(s: Server) { ThreadsInv(s) && Inv(s.log) }

  ghost predicate ThreadsInv(s: Server) {
    && |s.files| == |s.threads| == |s.log.handlers|
    && (s.transfer.HeldBy? ==> s.transfer.id < |s.threads|)
    && forall i: nat :: i < |s.threads| ==>
         ThreadInv(s.files[i], s.threads[i], s.log.handlers[i], s.transfer == HeldBy(i))
  }

  /** What holds as well until a spurious wakeup happens. */
  ghost predicate QuietServerInv(s: Server) { ServerInv(s) && QuietInv(s.log) }

  lemma TransferKeepsThreads(s: Server, i: nat)
    requires ThreadsInv(s) && TransferEnabled(s, i)
    ensures ThreadsInv(TransferNext(s, i))
  {
    var t := TransferNext(s, i);
    assert ThreadInv(s.files[i], s.threads[i], s.log.handlers[i], s.transfer == HeldBy(i));
    forall j: nat | j < |t.threads|
      ensures ThreadInv(t.files[j], t.threads[j], t.log.handlers[j], t.transfer == HeldBy(j))
    {
      assert ThreadInv(s.files[j], s.threads[j], s.log.handlers[j], s.transfer == HeldBy(j));
      if j != i {
        assert t.threads[j] == s.threads[j] && t.log.handlers[j] == s.log.handlers[j];
      }
    }
  }

  lemma TransferKeepsInv(s: Server, i: nat)
    requires ServerInv(s) && TransferEnabled(s, i)
    ensures ServerInv(TransferNext(s, i))
    ensures QuietServerInv(s) ==> QuietServerInv(TransferNext(s, i))
  {
    HandlerKeepsInv(s.log, i);
    TransferKeepsThreads(s, i);
  }

  lemma LogKeepsThreads(s: Server, step: Step)
    requires ThreadsInv(s) && MoveEnabled(s, Log(step))
    ensures ThreadsInv(MoveNext(s, Log(step)))
  {
  }

  lemma LogKeepsInv(s: Server, step: Step)
    requires ServerInv(s) && MoveEnabled(s, Log(step))
    ensures ServerInv(MoveNext(s, Log(step)))
    ensures QuietServerInv(s) && step != SpuriousWakeup ==> QuietServerInv(MoveNext(s, Log(step)))
  {
    StepKeepsInv(s.log, step);
    LogKeepsThreads(s, step);
  }

  lemma MoveKeepsInv(s: Server, m: Move)
    requires ServerInv(s) && MoveEnabled(s, m)
    ensures ServerInv(MoveNext(s, m)) && MoveNext(s, m).files == s.files
    ensures QuietServerInv(s) && m != Log(SpuriousWakeup) ==> QuietServerInv(MoveNext(s, m))
  {
    match m {
      case Transfer(i) => TransferKeepsInv(s, i);
      case Log(step) => LogKeepsInv(s, step);
    }
  }

  lemma {:induction false} ServingInv(run: seq<Server>, moves: seq<Move>, k: nat)
    requires Serving(run, moves) && Start(run[0]) && k < |run|
    ensures ServerInv(run[k]) && run[k].files == run[0].files
    ensures QuietMoves(moves) ==> QuietServerInv(run[k])
  {
    if k == 0 {
      InitInv(run[0].log);
    } else {
      ServingInv(run, moves, k - 1);
      MoveKeepsInv(run[k - 1], moves[k - 1]);
    }
  }

  /** In every run, spurious wakeups or not, at most one thread is in the transfer section, and the
      thread that owns p_mutex is not inside the log routine -- unless its file was empty. */
  lemma TransferIsExclusive(run: seq<Server>, moves: seq<Move>, k: nat, i: nat, j: nat)
    requires Serving(run, moves) && Start(run[0]) && k < |run|
    requires i < |run[k].threads| && j < |run[k].threads|
    ensures InSection(run[k].threads[i]) && InSection(run[k].threads[j]) ==> i == j
    ensures run[k].transfer == HeldBy(i) ==>
      && i < |run[k].log.handlers| && i < |run[0].files|
      && (run[k].log.handlers[i] != Busy ==> run[0].files[i] == Empty)
  {
    ServingInv(run, moves, k);
  }

  // ---------- progress ----------

  ghost predicate ServerStuck(s: Server) {
    && !LoggerEnabled(s.log)
    && (forall i :: 0 <= i < |s.threads| ==> !MoveEnabled(s, Transfer(i)) && !MoveEnabled(s, Log(HandlerStep(i))))
  }

  predicate Finished(s: Server, i: nat)
    requires i < |s.threads|
  {
    s.threads[i] == Left || (s.threads[i] == InLog && i < |s.log.handlers| && s.log.handlers[i] == Done)
  }

  ghost predicate AtRest(s: State) {
    s.logger == Waiting && s.mutex == Nobody && s.tokens == 1 && s.pipe == ""
  }

  /** p_mutex is owned by a thread that has left the section without unlocking it. */
  predicate Leaked(s: Server) {
    s.transfer.HeldBy? && s.transfer.id < |s.threads| && !InSection(s.threads[s.transfer.id])
  }

  /** The server can be stuck in one way only besides having finished: p_mutex has leaked, and
      every unfinished thread waits for it. */
  lemma ServerStuckIff(s: Server)
    requires QuietServerInv(s)
    ensures ServerStuck(s) <==>
      && AtRest(s.log)
      && forall i :: 0 <= i < |s.threads| ==> Finished(s, i) || (Leaked(s) && s.threads[i] == AtTransferLock)
  {
    if ServerStuck(s) {
      StuckLogIsIdle(s);
      forall i | 0 <= i < |s.threads|
        ensures Finished(s, i) || (Leaked(s) && s.threads[i] == AtTransferLock)
      {
        assert !MoveEnabled(s, Transfer(i));
        if s.transfer.HeldBy? {
          assert !MoveEnabled(s, Transfer(s.transfer.id));
        }
      }
    }
  }

  lemma StuckLogIsIdle(s: Server)
    requires QuietServerInv(s) && ServerStuck(s)
    ensures AtRest(s.log)
    ensures forall i :: 0 <= i < |s.threads| ==> s.log.handlers[i] == Busy || s.log.handlers[i] == Done
  {
    QuietNotPoisoned(s.log);
    forall i | 0 <= i < |s.log.handlers| && s.log.handlers[i] != Busy
      ensures !HandlerEnabled(s.log, i)
    {
      assert !MoveEnabled(s, Log(HandlerStep(i)));
    }
    IdleLog(s.log);
  }

  function ThreadRank(pc: ThreadPc): nat {
    match pc {
      case AtOpen => 5
      case AtTransferLock => 4
      case InTransfer => 3
      case Sent => 2
      case Released => 1
      case InLog => 0
      case Left => 0
    }
  }

  function ServerRank(s: Server): nat {
    Sum(s.threads, ThreadRank) + Rank(s.log)
  }

  lemma MoveDecreasesRank(s: Server, m: Move)
    requires QuietServerInv(s) && MoveEnabled(s, m) && m != Log(SpuriousWakeup)
    ensures ServerRank(MoveNext(s, m)) < ServerRank(s)
  {
    match m {
      case Transfer(i) =>
        assert ThreadInv(s.files[i], s.threads[i], s.log.handlers[i], s.transfer == HeldBy(i));
        SumUpdate(s.threads, ThreadRank, i, TransferNext(s, i).threads[i]);
        HandlerDecreasesRank(s.log, i);
      case Log(step) =>
        StepDecreasesRank(s.log, step);
    }
  }

  lemma {:induction false} ServingRank(run: seq<Server>, moves: seq<Move>, k: nat)
    requires Serving(run, moves) && Start(run[0]) && QuietMoves(moves) && k < |run|
    ensures ServerRank(run[k]) <= 18 * |run[0].files| + 3 - k
  {
    if k == 0 {
      SumConstant(run[0].threads, ThreadRank, 5);
      SumConstant(run[0].log.handlers, HandlerRank, 13);
    } else {
      ServingRank(run, moves, k - 1);
      ServingInv(run, moves, k - 1);
      MoveDecreasesRank(run[k - 1], moves[k - 1]);
    }
  }

  ghost predicate NoLeaks(files: seq<File>) {
    forall i :: 0 <= i < |files| ==> !Leaks(files[i])
  }

  /** Transfer and handshake together: with no leaking file, every run ends within 18N + 3 moves
      with p_mutex free, and the log holds exactly the served files, each once. */
  lemma EveryRunServesAll(run: seq<Server>, moves: seq<Move>)
    requires Serving(run, moves) && Start(run[0]) && QuietMoves(moves) && NoLeaks(run[0].files)
    ensures |moves| <= 18 * |run[0].files| + 3
    ensures ServerStuck(Last(run)) ==>
      var s := Last(run);
      && s.transfer == Free
      && (forall i :: 0 <= i < |s.threads| ==> Finished(s, i))
      && Distinct(s.log.order)
      && (forall i: nat :: i in s.log.order <==> i < |run[0].files| && run[0].files[i] == Served)
      && (forall j :: 0 <= j < |s.log.order| ==> s.log.order[j] < |s.log.reports|)
      && s.log.logged == Records(s.log.reports, s.log.order)
  {
    var s := Last(run);
    ServingRank(run, moves, |moves|);
    ServingInv(run, moves, |moves|);
    if ServerStuck(s) {
      ServerStuckIff(s);
      forall i: nat | i < |s.threads|
        ensures Finished(s, i) && s.transfer != HeldBy(i)
        ensures i in s.log.order <==> run[0].files[i] == Served
      {
        assert ThreadInv(s.files[i], s.threads[i], s.log.handlers[i], s.transfer == HeldBy(i));
      }
      assert Held(s.log) == [] && Queued(s.log) == [];
      assert s.log.logged + [] + [] == s.log.logged;
    }
  }

  // ---------- what a leaking return does ----------

  predicate BeforeSection(pc: ThreadPc) { pc == AtOpen || pc == AtTransferLock }

  lemma LeakedStep(s: Server, m: Move, i: nat)
    requires ServerInv(s) && MoveEnabled(s, m) && Leaked(s)
    requires i < |s.threads| && BeforeSection(s.threads[i]) && s.files[i] != OpenFails
    ensures Leaked(MoveNext(s, m)) && MoveNext(s, m).transfer == s.transfer
    ensures |MoveNext(s, m).threads| == |s.threads| && BeforeSection(MoveNext(s, m).threads[i])
  {
    var o := s.transfer.id;
    assert ThreadInv(s.files[o], s.threads[o], s.log.handlers[o], true);
    assert ThreadInv(s.files[i], s.threads[i], s.log.handlers[i], s.transfer == HeldBy(i));
  }

  lemma LeakedNext(run: seq<Server>, moves: seq<Move>, k: nat, i: nat)
    requires Serving(run, moves) && Start(run[0]) && k < |moves|
    requires Leaked(run[k]) && i < |run[0].files| && run[0].files[i] != OpenFails
    requires i < |run[k].threads| && BeforeSection(run[k].threads[i])
    ensures Leaked(run[k + 1]) && run[k + 1].transfer == run[k].transfer
    ensures i < |run[k + 1].threads| && BeforeSection(run[k + 1].threads[i])
  {
    ServingInv(run, moves, k);
    LeakedStep(run[k], moves[k], i);
  }

  /** After a leak no thread ever enters the section again. */
  lemma {:induction false} LeakedForever(run: seq<Server>, moves: seq<Move>, j: nat, k: nat, i: nat)
    requires Serving(run, moves) && Start(run[0]) && j <= k < |run|
    requires Leaked(run[j]) && i < |run[0].files| && run[0].files[i] != OpenFails
    requires i < |run[j].threads| && BeforeSection(run[j].threads[i])
    ensures Leaked(run[k]) && run[k].transfer == run[j].transfer
    ensures i < |run[k].threads| && BeforeSection(run[k].threads[i])
  {
    if j < k {
      LeakedForever(run, moves, j, k - 1, i);
      LeakedNext(run, moves, k - 1, i);
    }
  }

  /** Any run can be continued until nothing can move. */
  lemma {:induction false} RunOn(run: seq<Server>, moves: seq<Move>) returns (run': seq<Server>, moves': seq<Move>)
    requires Serving(run, moves) && Start(run[0]) && QuietMoves(moves)
    ensures Serving(run', moves') && QuietMoves(moves') && ServerStuck(Last(run'))
    ensures run <= run'
    decreases ServerRank(Last(run))
  {
    var s := Last(run);
    ServingInv(run, moves, |moves|);
    if ServerStuck(s) {
      run', moves' := run, moves;
    } else {
      var m := SomeMove(s);
      MoveDecreasesRank(s, m);
      OneMoveMore(run, moves, m);
      run', moves' := RunOn(run + [MoveNext(s, m)], moves + [m]);
    }
  }

  lemma SomeMove(s: Server) returns (m: Move)
    requires !ServerStuck(s)
    ensures MoveEnabled(s, m) && m != Log(SpuriousWakeup)
  {
    m := Log(LoggerStep);
    if !LoggerEnabled(s.log) {
      var i :| 0 <= i < |s.threads| && (MoveEnabled(s, Transfer(i)) || MoveEnabled(s, Log(HandlerStep(i))));
      m := if MoveEnabled(s, Transfer(i)) then Transfer(i) else Log(HandlerStep(i));
    }
  }

  lemma OneMoveMore(run: seq<Server>, moves: seq<Move>, m: Move)
    requires Serving(run, moves) && MoveEnabled(Last(run), m)
    ensures Serving(run + [MoveNext(Last(run), m)], moves + [m])
  {
  }

  /** No two threads want p_mutex. */
  ghost predicate OneLocker(files: seq<File>) {
    forall i, j :: 0 <= i < |files| && 0 <= j < |files| && files[i] != OpenFails && files[j] != OpenFails ==> i == j
  }

  ghost predicate AllFinished(s: Server) {
    forall i :: 0 <= i < |s.threads| ==> Finished(s, i)
  }

  ghost predicate EndsFinished(s: Server) {
    forall run, moves :: Serving(run, moves) && run[0] == s && QuietMoves(moves) && ServerStuck(Last(run)) ==>
      AllFinished(Last(run))
  }

  lemma LeakIsFatal(s: Server, i: nat, j: nat)
    requires Start(s) && |s.log.handlers| == |s.files|
    requires i < |s.files| && Leaks(s.files[i]) && j < |s.files| && j != i && s.files[j] != OpenFails
    ensures !EndsFinished(s)
  {
    var moves := [Transfer(i), Transfer(i), Transfer(i)];
    var s1 := TransferNext(s, i);
    var s2 := TransferNext(s1, i);
    var run := [s, s1, s2, TransferNext(s2, i)];
    var run', moves' := RunOn(run, moves);
    assert run'[3] == run[3];
    LeakedForever(run', moves', 3, |moves'|, j);
    assert !Finished(Last(run'), j);
  }

  /** Every thread is served under every schedule without spurious wakeups if and only if no file is
      empty or fails to stat or map, or no two threads want p_mutex. */
  lemma AllServedIff(s: Server)
    requires Start(s)
    ensures EndsFinished(s) <==> NoLeaks(s.files) || OneLocker(s.files)
  {
    if !NoLeaks(s.files) && !OneLocker(s.files) {
      var i: nat :| i < |s.files| && Leaks(s.files[i]);
      var j: nat :| j < |s.files| && j != i && s.files[j] != OpenFails;
      LeakIsFatal(s, i, j);
    }
    if NoLeaks(s.files) || OneLocker(s.files) {
      forall run, moves | Serving(run, moves) && run[0] == s && QuietMoves(moves) && ServerStuck(Last(run))
        ensures AllFinished(Last(run))
      {
        StuckUnlessLeaked(run, moves);
      }
    }
  }

  lemma StuckUnlessLeaked(run: seq<Server>, moves: seq<Move>)
    requires Serving(run, moves) && Start(run[0]) && QuietMoves(moves) && ServerStuck(Last(run))
    requires NoLeaks(run[0].files) || OneLocker(run[0].files)
    ensures AllFinished(Last(run))
  {
    var s := Last(run);
    ServingInv(run, moves, |moves|);
    ServerStuckIff(s);
    forall i | 0 <= i < |s.threads| ensures Finished(s, i) {
      if s.threads[i] == AtTransferLock && Leaked(s) {
        var o := s.transfer.id;
        assert ThreadInv(s.files[o], s.threads[o], s.log.handlers[o], true);
        assert ThreadInv(s.files[i], s.threads[i], s.log.handlers[i], s.transfer == HeldBy(i));
      }
    }
  }
}
