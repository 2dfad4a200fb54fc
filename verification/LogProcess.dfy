/** The two routines of linux/lib/pipe/linux_pipe.c as programs: straight-line code over a mutex, a
    condition variable and two pipes that know nothing of each other.  Running them, one call of any
    process at a time, is an execution of the handshake in LogPipe. */
module LogProcess {
  import opened CStrings
  import opened Utils
  import opened LogPipe

  // ---------- the shared objects ----------

  /** A mutex is unlocked by the process that locked it. */
  class Mutex {
    var owner: Option<nat>

    constructor ()
      ensures owner == None
    {
      owner := None;
    }

    method Lock(who: nat)
      requires owner == None
      modifies this
      ensures owner == Some(who)
    {
      owner := Some(who);
    }

    method Unlock(who: nat)
      requires owner == Some(who)
      modifies this
      ensures owner == None
    {
      owner := None;
    }
  }

  class Condition {
    var parked: set<nat>

    constructor ()
      ensures parked == {}
    {
      parked := {};
    }

    /** `pthread_cond_wait` up to where it sleeps: only the owner of the mutex may call it. */
    method Park(who: nat, mutex: Mutex)
      requires mutex.owner == Some(who)
      modifies this, mutex
      ensures mutex.owner == None && parked == old(parked) + {who}
    {
      mutex.Unlock(who);
      parked := parked + {who};
    }

    /** `pthread_cond_signal` wakes one of those that wait, or nobody. */
    method Signal()
      modifies this
      ensures old(parked) == {} ==> parked == {}
      ensures old(parked) != {} ==> exists who :: who in old(parked) && parked == old(parked) - {who}
    {
      if parked != {} {
        var who :| who in parked;
        parked := parked - {who};
      }
    }

    /** A wakeup without a signal, which POSIX permits. */
    method WakeSpuriously(who: nat)
      requires who in parked
      modifies this
      ensures parked == old(parked) - {who}
    {
      parked := parked - {who};
    }
  }

  class Pipe {
    var bytes: string

    constructor ()
      ensures bytes == ""
    {
      bytes := "";
    }

    method Write(message: string)
      requires |bytes| + |message| <= PIPE_CAPACITY
      modifies this
      ensures bytes == old(bytes) + message
    {
      bytes := bytes + message;
    }

    /** `read` of up to `size` bytes, into a zeroed buffer of that size */
    method Read(size: nat) returns (buffer: string)
      requires bytes != ""
      modifies this
      ensures var n := if |old(bytes)| < size then |old(bytes)| else size;
        buffer == old(bytes)[..n] + Zeros(size - n) && bytes == old(bytes)[n..]
    {
      var n := if |bytes| < size then |bytes| else size;
      buffer := bytes[..n] + Zeros(size - n);
      bytes := bytes[n..];
    }
  }

  // ---------- the programs ----------

  datatype Call =
    | ServeFile  // whatever precedes the log routine
    | ReadToken
    | LockMutex
    | WriteRecord
    | SignalCondition
    | UnlockMutex
    | WriteToken
    | WaitCondition
    | LeaveWait  // pthread_cond_wait, from being woken to taking the mutex again
    | ReadRecord
    | AppendRecord

  /** A request, from its file to the end of socket_pipe_log_server_single_process. */
  const HANDLER: seq<Call> := [ServeFile, ReadToken, LockMutex, WriteRecord, SignalCondition, UnlockMutex]

  /** The body of the logger's endless loop. */
  const LOGGER: seq<Call> :=
    [LockMutex, WriteToken, WaitCondition, LeaveWait, ReadRecord, AppendRecord, UnlockMutex]

  /** Where a handler is before its call number `k`. */
  function HandlerAt(k: nat): HandlerPc {
    if k == 0 then Busy else if k == 1 then AtToken else if k == 2 then HasToken else if k == 3 then HasLock
    else if k == 4 then Written else if k == 5 then Signalled else Done
  }

  /** Where the logger is before its call number `k`. */
  function LoggerAt(k: nat, parked: bool): LoggerPc {
    if k == 0 then AtLock else if k == 1 then Locked else if k == 2 then TokenWritten
    else if k == 3 then (if parked then Waiting else Woken)
    else if k == 4 then AtRead else if k == 5 then AtAppend else AtUnlock
  }

  function OwnerOf(owner: Option<nat>, logger: nat): Owner {
    match owner
    case None => Nobody
    case Some(who) => if who == logger then Logger else Handler(who)
  }

  // ---------- running them ----------

  class LogSystem {
    const reports: seq<Report>
    const mutex: Mutex
    const condition: Condition
    const tokens: Pipe
    const data: Pipe
    var handlersAt: seq<nat>  // each handler's next call
    var loggerAt: nat         // the logger's next call
    var message: string
    var logged: seq<string>

    ghost var run: seq<State>
    ghost var steps: seq<Step>

    /** The logger's number among the processes. */
    function LoggerId(): nat { |reports| }

    /** The objects and program counters are those of the state the execution has come to. */
    ghost predicate Valid()
      reads this, mutex, condition, tokens, data
    {
      Execution(run, steps) && Init(run[0]) && run[0].reports == reports && Formed() && Shows(Last(run))
    }

    ghost predicate Formed()
      reads this, condition
    {
      && tokens != data && loggerAt < |LOGGER|
      && condition.parked <= {LoggerId()} && (condition.parked != {} ==> loggerAt == 3)
    }

    ghost predicate Shows(s: State)
      reads this, mutex, condition, tokens, data
    {
      && s.reports == reports && |handlersAt| == |reports| == |s.handlers|
      && (forall i :: 0 <= i < |reports| ==> handlersAt[i] <= |HANDLER| && s.handlers[i] == HandlerAt(handlersAt[i]))
      && s.logger == LoggerAt(loggerAt, condition.parked != {})
      && s.mutex == OwnerOf(mutex.owner, LoggerId())
      && s.tokens == |tokens.bytes| && s.pipe == data.bytes
      && s.message == message && s.logged == logged
    }

    constructor (reports: seq<Report>)
      ensures Valid() && this.reports == reports && steps == []
      ensures fresh(mutex) && fresh(condition) && fresh(tokens) && fresh(data)
    {
      this.reports := reports;
      mutex := new Mutex();
      condition := new Condition();
      tokens := new Pipe();
      data := new Pipe();
      handlersAt, loggerAt := seq(|reports|, _ => 0), 0;
      message, logged := "", [];
      run := [State(reports, AtLock, "", seq(|reports|, _ => Busy), Nobody, 0, "", [], [])];
      steps := [];
    }

    /** A handler's next call would not block. */
    predicate CanHandler(i: nat)
      requires i < |handlersAt|
      reads this, mutex, tokens, data
    {
      handlersAt[i] < |HANDLER| &&
      match HANDLER[handlersAt[i]] {
        case ReadToken => tokens.bytes != ""
        case LockMutex => mutex.owner == None
        case WriteRecord => |data.bytes| + RECORD_SIZE <= PIPE_CAPACITY
        case _ => true
      }
    }

    /** The logger's next call would not block. */
    predicate CanLogger()
      requires loggerAt < |LOGGER|
      reads this, mutex, condition, tokens, data
    {
      match LOGGER[loggerAt] {
        case LockMutex => mutex.owner == None
        case WriteToken => |tokens.bytes| < PIPE_CAPACITY
        case LeaveWait => LoggerId() !in condition.parked && mutex.owner == None
        case ReadRecord => data.bytes != ""
        case _ => true
      }
    }

    /** A process can go on in the program exactly when it can in the handshake. */
    lemma CanIffEnabled(s: State)
      requires Formed() && Shows(s)
      ensures CanLogger() <==> LoggerEnabled(s)
      ensures forall i :: 0 <= i < |reports| ==> (CanHandler(i) <==> HandlerEnabled(s, i))
    {
    }

    ghost method Take(step: Step)
      requires Execution(run, steps) && Enabled(Last(run), step)
      modifies this`run, this`steps
      ensures Execution(run, steps) && steps == old(steps) + [step]
      ensures run[0] == old(run[0]) && Last(run) == Next(old(Last(run)), step)
    {
      run, steps := run + [Next(Last(run), step)], steps + [step];
    }

    // ---------- the handler's calls ----------

    method Advance(i: nat)
      requires i < |handlersAt|
      modifies this`handlersAt
      ensures handlersAt == old(handlersAt)[i := old(handlersAt)[i] + 1]
    {
      handlersAt := handlersAt[i := handlersAt[i] + 1];
    }

    method HandlerReadsToken(i: nat, ghost s: State)
      requires Formed() && Shows(s) && i < |reports| && handlersAt[i] == 1 && tokens.bytes != ""
      modifies this`handlersAt, tokens
      ensures Formed() && Shows(HandlerNext(s, i))
    {
      var r := tokens.Read(1);
      Advance(i);
    }

    method HandlerLocks(i: nat, ghost s: State)
      requires Formed() && Shows(s) && i < |reports| && handlersAt[i] == 2 && mutex.owner == None
      modifies this`handlersAt, mutex
      ensures Formed() && Shows(HandlerNext(s, i))
    {
      mutex.Lock(i);
      Advance(i);
    }

    method HandlerWrites(i: nat, ghost s: State)
      requires Formed() && Shows(s) && i < |reports| && handlersAt[i] == 3
      requires |data.bytes| + RECORD_SIZE <= PIPE_CAPACITY
      modifies this`handlersAt, data
      ensures Formed() && Shows(HandlerNext(s, i))
    {
      data.Write(Record(reports[i]));
      Advance(i);
    }

    method HandlerSignals(i: nat, ghost s: State)
      requires Formed() && Shows(s) && i < |reports| && handlersAt[i] == 4
      modifies this`handlersAt, condition
      ensures Formed() && Shows(HandlerNext(s, i))
    {
      condition.Signal();
      assert condition.parked == {};
      Advance(i);
    }

    /** The mutex is the handler's own: it is the invariant of the handshake that says so. */
    method HandlerUnlocks(i: nat, ghost s: State)
      requires Formed() && Shows(s) && s.mutex == Handler(i) && i < |reports| && handlersAt[i] == 5
      modifies this`handlersAt, mutex
      ensures Formed() && Shows(HandlerNext(s, i))
    {
      mutex.Unlock(i);
      Advance(i);
    }

    method HandlerServes(i: nat, ghost s: State)
      requires Formed() && Shows(s) && i < |reports| && handlersAt[i] == 0
      modifies this`handlersAt
      ensures Formed() && Shows(HandlerNext(s, i))
    {
      Advance(i);
    }

    method HandlerCalls(i: nat, ghost s: State)
      requires Formed() && Shows(s) && Inv(s) && HandlerEnabled(s, i) && i < |handlersAt| && CanHandler(i)
      modifies this`handlersAt, mutex, condition, tokens, data
      ensures Formed() && Shows(HandlerNext(s, i))
    {
      var call := HANDLER[handlersAt[i]];
      if call == ReadToken { HandlerReadsToken(i, s); }
      else if call == LockMutex { HandlerLocks(i, s); }
      else if call == WriteRecord { HandlerWrites(i, s); }
      else if call == SignalCondition { HandlerSignals(i, s); }
      else if call == UnlockMutex { HandlerUnlocks(i, s); }
      else { HandlerServes(i, s); }
    }

    /** A handler makes its next call. */
    method RunHandler(i: nat)
      requires Valid() && i < |handlersAt| && CanHandler(i)
      modifies this, mutex, condition, tokens, data
      ensures Valid() && steps == old(steps) + [HandlerStep(i)]
    {
      RunInv(run, steps, |steps|);
      CanIffEnabled(Last(run));
      HandlerCalls(i, Last(run));
      Take(HandlerStep(i));
    }

    // ---------- the logger's calls ----------

    method LoggerLocks(ghost s: State)
      requires Formed() && Shows(s) && (loggerAt == 0 || (loggerAt == 3 && condition.parked == {}))
      requires mutex.owner == None
      modifies this`loggerAt, mutex
      ensures Formed() && Shows(LoggerNext(s))
    {
      mutex.Lock(LoggerId());
      loggerAt := loggerAt + 1;
    }

    method LoggerWritesToken(ghost s: State)
      requires Formed() && Shows(s) && loggerAt == 1 && |tokens.bytes| < PIPE_CAPACITY
      modifies this`loggerAt, tokens
      ensures Formed() && Shows(LoggerNext(s))
    {
      tokens.Write("1");
      loggerAt := loggerAt + 1;
    }

    method LoggerWaits(ghost s: State)
      requires Formed() && Shows(s) && Inv(s) && loggerAt == 2
      modifies this`loggerAt, mutex, condition
      ensures Formed() && Shows(LoggerNext(s))
    {
      assert s.mutex == Logger;
      condition.Park(LoggerId(), mutex);
      loggerAt := loggerAt + 1;
    }

    method LoggerReads(ghost s: State)
      requires Formed() && Shows(s) && loggerAt == 4 && data.bytes != ""
      modifies this`loggerAt, this`message, data
      ensures Formed() && Shows(LoggerNext(s))
    {
      message := data.Read(RECORD_SIZE);
      loggerAt := loggerAt + 1;
    }

    method LoggerAppends(ghost s: State)
      requires Formed() && Shows(s) && loggerAt == 5
      modifies this`loggerAt, this`logged
      ensures Formed() && Shows(LoggerNext(s))
    {
      logged := logged + [message];
      loggerAt := loggerAt + 1;
    }

    method LoggerUnlocks(ghost s: State)
      requires Formed() && Shows(s) && Inv(s) && loggerAt == 6
      modifies this`loggerAt, mutex
      ensures Formed() && Shows(LoggerNext(s))
    {
      assert s.mutex == Logger;
      mutex.Unlock(LoggerId());
      loggerAt := 0;
    }

    method LoggerCalls(ghost s: State)
      requires Formed() && Shows(s) && Inv(s) && LoggerEnabled(s) && CanLogger()
      modifies this`loggerAt, this`message, this`logged, mutex, condition, tokens, data
      ensures Formed() && Shows(LoggerNext(s))
    {
      var call := LOGGER[loggerAt];
      if call == LockMutex || call == LeaveWait { LoggerLocks(s); }
      else if call == WriteToken { LoggerWritesToken(s); }
      else if call == WaitCondition { LoggerWaits(s); }
      else if call == ReadRecord { LoggerReads(s); }
      else if call == AppendRecord { LoggerAppends(s); }
      else { LoggerUnlocks(s); }
    }

    /** The logger makes its next call. */
    method RunLogger()
      requires Valid() && CanLogger()
      modifies this, mutex, condition, tokens, data
      ensures Valid() && steps == old(steps) + [LoggerStep]
    {
      RunInv(run, steps, |steps|);
      CanIffEnabled(Last(run));
      LoggerCalls(Last(run));
      Take(LoggerStep);
    }

    method DisturbLogger()
      requires Valid() && LoggerId() in condition.parked
      modifies this`run, this`steps, condition
      ensures Valid() && steps == old(steps) + [SpuriousWakeup]
    {
      condition.WakeSpuriously(LoggerId());
      assert condition.parked == {};
      Take(SpuriousWakeup);
    }

    /** Some process can make its next call. */
    predicate CanMove()
      requires loggerAt < |LOGGER|
      reads this, mutex, condition, tokens, data
    {
      CanLogger() || exists i :: 0 <= i < |handlersAt| && CanHandler(i)
    }

    /** Whatever the scheduler picks, the programs come to rest after 13N + 3 steps with every record in
        the log file once, in the order of the writes, and the mutex free. */
    method RunToRest()
      requires Valid() && steps == []
      modifies this, mutex, condition, tokens, data
      ensures Valid() && !CanMove() && |steps| == 13 * |reports| + 3
      ensures mutex.owner == None && |tokens.bytes| == 1 && data.bytes == "" && condition.parked == {LoggerId()}
      ensures AllLogged(Last(run)) && logged == Records(reports, Last(run).order)
    {
      while CanMove()
        invariant Valid() && Quiet(steps)
        decreases 13 * |reports| + 3 - |steps|
      {
        EveryMaximalRunLogsAll(run, steps);
        CanIffEnabled(Last(run));
        if {
          case CanLogger() =>
            RunLogger();
          case exists i :: 0 <= i < |handlersAt| && CanHandler(i) =>
            var i :| 0 <= i < |handlersAt| && CanHandler(i);
            RunHandler(i);
        }
      }
      EveryMaximalRunLogsAll(run, steps);
      CanIffEnabled(Last(run));
    }
  }
}
