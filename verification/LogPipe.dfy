/** The log handshake of linux/lib/pipe/linux_pipe.c.

    Any number of request handlers hand one record each to a single logger process.  They share
    a mutex, a condition variable, a token pipe and a data pipe.  One step of the system is one
    system call (or pthread call) of one process; any process may move next. */
module LogPipe {
  import opened CStrings

  const RECORD_SIZE: nat := 4096     // BUFFER_SIZE * 2
  const PIPE_CAPACITY: nat := 65536  // a Linux pipe; a write that does not fit blocks

  /** What a handler reports about the file it sent. */
  datatype Report = Report(path: string, size: int, ip: string, host: string, port: int)

  ghost predicate IsReport(r: Report) {
    NUL !in r.path && NUL !in r.ip && NUL !in r.host
  }

  function Text(r: Report): string {
    "FileName: " + r.path + "\t" + Decimal(r.size) + " Byte \t IP Client: " + r.ip
    + " \t " + r.host + " Port: " + Decimal(r.port)
  }

  /** `snprintf(message, 4096, ...)` into a zeroed buffer, of which 4096 bytes are written. */
  function Record(r: Report): (m: string)
    ensures |m| == RECORD_SIZE
  {
    var t := Text(r);
    if |t| < RECORD_SIZE then t + Zeros(RECORD_SIZE - |t|)
    else t[..RECORD_SIZE - 1] + Zeros(1)
  }

  /** `dprintf(fd_log, "L->  %s\n", message)` */
  function Line(message: string): string {
    "L->  " + CStr(message) + "\n"
  }

  datatype LoggerPc =
    | AtLock        // about to lock the mutex
    | Locked        // holds the mutex, about to write a token
    | TokenWritten  // holds the mutex, about to wait
    | Waiting       // inside pthread_cond_wait, mutex released
    | Woken         // inside pthread_cond_wait, about to take the mutex again
    | AtRead        // holds the mutex, about to read a record
    | AtAppend      // holds the mutex and a record
    | AtUnlock      // holds the mutex, about to unlock

  datatype HandlerPc =
    | Busy          // has not called the log routine yet
    | AtToken       // about to read a token
    | HasToken      // about to lock the mutex
    | HasLock       // holds the mutex, about to write its record
    | Written       // holds the mutex, about to signal
    | Signalled     // holds the mutex, about to unlock
    | Done

  datatype Owner = Nobody | Logger | Handler(id: nat)

  datatype State = State(
    reports: seq<Report>,      // what each handler has to log
    logger: LoggerPc,
    message: string,           // the logger's buffer
    handlers: seq<HandlerPc>,
    mutex: Owner,
    tokens: nat,               // bytes in the token pipe
    pipe: string,              // bytes in the data pipe
    logged: seq<string>,       // the messages appended to the log file, one `dprintf` each
    order: seq<nat>)           // history: the handlers in the order they wrote
  {
    function At(i: nat, pc: HandlerPc): State
      requires i < |handlers|
    {
      this.(handlers := handlers[i := pc])
    }
  }

  datatype Step = HandlerStep(i: nat) | LoggerStep | SpuriousWakeup

  predicate Init(s: State) {
    && |s.handlers| == |s.reports|
    && s.logger == AtLock && s.mutex == Nobody && s.tokens == 0
    && s.pipe == "" && s.logged == [] && s.order == []
    && forall i :: 0 <= i < |s.handlers| ==> s.handlers[i] == Busy
  }

  // ---------- one handler ----------

  predicate HandlerEnabled(s: State, i: nat) {
    && i < |s.handlers| && i < |s.reports|
    && match s.handlers[i] {
      case Busy => true
      case AtToken => s.tokens > 0
      case HasToken => s.mutex == Nobody
      case HasLock => |s.pipe| + RECORD_SIZE <= PIPE_CAPACITY
      case Written => true
      case Signalled => true
      case Done => false
    }
  }

  function HandlerNext(s: State, i: nat): State
    requires HandlerEnabled(s, i)
  {
    match s.handlers[i] {
      case Busy => s.At(i, AtToken)
      case AtToken => s.At(i, HasToken).(tokens := s.tokens - 1)
      case HasToken => s.At(i, HasLock).(mutex := Handler(i))
      case HasLock => s.At(i, Written).(pipe := s.pipe + Record(s.reports[i]), order := s.order + [i])
      case Written => s.At(i, Signalled).(logger := if s.logger == Waiting then Woken else s.logger)
      case Signalled => s.At(i, Done).(mutex := Nobody)
      case Done => s
    }
  }

  // ---------- the logger ----------

  predicate LoggerEnabled(s: State) {
    match s.logger {
      case AtLock => s.mutex == Nobody
      case Locked => s.tokens < PIPE_CAPACITY
      case TokenWritten => true
      case Waiting => false
      case Woken => s.mutex == Nobody
      case AtRead => s.pipe != ""
      case AtAppend => true
      case AtUnlock => true
    }
  }

  /** `read(fd, buffer, 4096)` on a non-empty pipe takes what is there, up to 4096 bytes. */
  function ReadSize(s: State): nat {
    if |s.pipe| < RECORD_SIZE then |s.pipe| else RECORD_SIZE
  }

  function LoggerNext(s: State): State
    requires LoggerEnabled(s)
  {
    match s.logger {
      case AtLock => s.(logger := Locked, mutex := Logger)
      case Locked => s.(logger := TokenWritten, tokens := s.tokens + 1)
      case TokenWritten => s.(logger := Waiting, mutex := Nobody)
      case Waiting => s
      case Woken => s.(logger := AtRead, mutex := Logger)
      case AtRead =>
        var n := ReadSize(s);
        s.(logger := AtAppend, message := s.pipe[..n] + Zeros(RECORD_SIZE - n), pipe := s.pipe[n..])
      case AtAppend => s.(logger := AtUnlock, logged := s.logged + [s.message])
      case AtUnlock => s.(logger := AtLock, mutex := Nobody)
    }
  }

  // ---------- the system ----------

  predicate Enabled(s: State, step: Step) {
    match step {
      case HandlerStep(i) => HandlerEnabled(s, i)
      case LoggerStep => LoggerEnabled(s)
      case SpuriousWakeup => s.logger == Waiting
    }
  }

  function Next(s: State, step: Step): State
    requires Enabled(s, step)
  {
    match step {
      case HandlerStep(i) => HandlerNext(s, i)
      case LoggerStep => LoggerNext(s)
      case SpuriousWakeup => s.(logger := Woken)
    }
  }

  /** `run` is the sequence of states that the steps lead through. */
  ghost predicate Execution(run: seq<State>, steps: seq<Step>) {
    && |run| == |steps| + 1
    && forall k :: 0 <= k < |steps| ==> Enabled(run[k], steps[k]) && run[k + 1] == Next(run[k], steps[k])
  }

  ghost predicate Quiet(steps: seq<Step>) {
    SpuriousWakeup !in steps
  }

  function Last<T>(run: seq<T>): T
    requires run != []
  {
    run[|run| - 1]
  }

  // ---------- counting handlers ----------

  function Sum<T>(hs: seq<T>, weight: T -> nat): nat {
    if hs == [] then 0 else weight(hs[0]) + Sum(hs[1..], weight)
  }

  lemma {:induction false} SumUpdate<T>(hs: seq<T>, weight: T -> nat, i: nat, pc: T)
    requires i < |hs|
    ensures Sum(hs[i := pc], weight) == Sum(hs, weight) - weight(hs[i]) + weight(pc)
    ensures weight(hs[i]) <= Sum(hs, weight)
  {
    if i == 0 {
      assert hs[i := pc][1..] == hs[1..];
    } else {
      assert hs[i := pc][1..] == hs[1..][i - 1 := pc];
      SumUpdate(hs[1..], weight, i - 1, pc);
    }
  }

  lemma {:induction false} SumConstant<T>(hs: seq<T>, weight: T -> nat, w: nat)
    requires forall i :: 0 <= i < |hs| ==> weight(hs[i]) == w
    ensures Sum(hs, weight) == w * |hs|
  {
    if hs != [] { SumConstant(hs[1..], weight, w); }
  }

  lemma {:induction false} SumWitness<T>(hs: seq<T>, weight: T -> nat) returns (i: nat)
    requires Sum(hs, weight) > 0
    ensures i < |hs| && weight(hs[i]) > 0
  {
    if weight(hs[0]) > 0 {
      i := 0;
    } else {
      i := SumWitness(hs[1..], weight);
      i := i + 1;
    }
  }

  // A token is held unspent from the moment it is read until the handler signals; it is
  // held unwritten until the handler has written its record.
  function Unspent(pc: HandlerPc): nat {
    if pc == HasToken || pc == HasLock || pc == Written then 1 else 0
  }
  function Unwritten(pc: HandlerPc): nat {
    if pc == HasToken || pc == HasLock then 1 else 0
  }

  predicate HandlerHolds(pc: HandlerPc) { pc == HasLock || pc == Written || pc == Signalled }

  predicate LoggerHolds(pc: LoggerPc) {
    pc == Locked || pc == TokenWritten || pc == AtRead || pc == AtAppend || pc == AtUnlock
  }

  predicate HasWritten(pc: HandlerPc) { pc == Written || pc == Signalled || pc == Done }

  // ---------- the invariants ----------

  /** Who holds the mutex is exactly what the program counters say. */
  ghost predicate MutexInv(s: State) {
    && (s.mutex == Logger <==> LoggerHolds(s.logger))
    && (forall i: nat :: i < |s.handlers| ==> (HandlerHolds(s.handlers[i]) <==> s.mutex == Handler(i)))
    && (s.mutex.Handler? ==> s.mutex.id < |s.handlers|)
  }

  function Offered(pc: LoggerPc): nat {
    if pc == TokenWritten || pc == Waiting then 1 else 0
  }
  function Armed(pc: LoggerPc): nat {
    if pc == TokenWritten || pc == Waiting || pc == Woken || pc == AtRead then 1 else 0
  }
  function Piped(s: State): nat {
    if s.pipe == "" then 0 else 1
  }

  /** One token makes one record, and the logger offers the next only after reading it. */
  ghost predicate TokenInv(s: State) {
    && s.tokens + Sum(s.handlers, Unwritten) + Piped(s) == Armed(s.logger)
    && (Offered(s.logger) == 1 ==> s.tokens + Sum(s.handlers, Unspent) == 1)
  }

  /** The records of the handlers in `order`. */
  function Records(reports: seq<Report>, order: seq<nat>): (records: seq<string>)
    requires forall k :: 0 <= k < |order| ==> order[k] < |reports|
    ensures |records| == |order|
  {
    seq(|order|, k requires 0 <= k < |order| => Record(reports[order[k]]))
  }

  ghost predicate Distinct(order: seq<nat>) {
    forall j, k :: 0 <= j < k < |order| ==> order[j] != order[k]
  }

  ghost predicate WrittenOnce(s: State) {
    && Distinct(s.order)
    && (forall i: nat :: i in s.order <==> i < |s.handlers| && HasWritten(s.handlers[i]))
  }

  function Held(s: State): seq<string> {
    if s.logger == AtAppend then [s.message] else []
  }
  function Queued(s: State): seq<string> {
    if s.pipe == "" then [] else [s.pipe]
  }

  /** The log file, then the record the logger holds, then the data pipe, are the whole
      history of writes in order; the pipe holds at most one record. */
  ghost predicate Fifo(s: State) {
    && (|s.pipe| == 0 || |s.pipe| == RECORD_SIZE)
    && (forall k :: 0 <= k < |s.order| ==> s.order[k] < |s.reports|)
    && Records(s.reports, s.order) == s.logged + Held(s) + Queued(s)
  }

  ghost predicate Inv(s: State) {
    && |s.handlers| == |s.reports|
    && MutexInv(s) && TokenInv(s) && WrittenOnce(s) && Fifo(s)
  }

  /** The part of QuietInv about tokens. */
  ghost predicate OfferedInv(s: State) { s.tokens + Sum(s.handlers, Unspent) == Offered(s.logger) }

  /** Without spurious wakeups an unspent token exists exactly while the logger offers one. */
  ghost predicate QuietInv(s: State) {
    Inv(s) && OfferedInv(s)
  }

  lemma InitInv(s: State)
    requires Init(s)
    ensures QuietInv(s)
  {
    SumConstant(s.handlers, Unspent, 0);
    SumConstant(s.handlers, Unwritten, 0);
  }

  lemma HandlerKeepsMutex(s: State, i: nat)
    requires |s.handlers| == |s.reports| && MutexInv(s) && HandlerEnabled(s, i)
    ensures MutexInv(HandlerNext(s, i))
  {
  }

  lemma HandlerKeepsArmed(s: State, i: nat)
    requires MutexInv(s) && TokenInv(s) && HandlerEnabled(s, i)
    ensures var t := HandlerNext(s, i); t.tokens + Sum(t.handlers, Unwritten) + Piped(t) == Armed(t.logger)
  {
    SumUpdate(s.handlers, Unwritten, i, HandlerNext(s, i).handlers[i]);
  }

  lemma HandlerKeepsOffered(s: State, i: nat)
    requires MutexInv(s) && TokenInv(s) && HandlerEnabled(s, i)
    ensures var t := HandlerNext(s, i); Offered(t.logger) == 1 ==> t.tokens + Sum(t.handlers, Unspent) == 1
    ensures OfferedInv(s) ==> OfferedInv(HandlerNext(s, i))
  {
    SumUpdate(s.handlers, Unspent, i, HandlerNext(s, i).handlers[i]);
  }

  lemma HandlerKeepsTokens(s: State, i: nat)
    requires MutexInv(s) && TokenInv(s) && HandlerEnabled(s, i)
    ensures TokenInv(HandlerNext(s, i))
    ensures OfferedInv(s) ==> OfferedInv(HandlerNext(s, i))
  {
    HandlerKeepsArmed(s, i);
    HandlerKeepsOffered(s, i);
  }

  lemma HandlerKeepsOnce(s: State, i: nat)
    requires WrittenOnce(s) && HandlerEnabled(s, i)
    ensures WrittenOnce(HandlerNext(s, i))
  {
    var t := HandlerNext(s, i);
    if s.handlers[i] == HasLock {
      assert i !in s.order;
      assert forall j: nat :: j in t.order <==> j in s.order || j == i;
    } else {
      assert t.order == s.order;
    }
  }

  lemma RecordsSnoc(reports: seq<Report>, order: seq<nat>, i: nat)
    requires i < |reports| && forall k :: 0 <= k < |order| ==> order[k] < |reports|
    ensures Records(reports, order + [i]) == Records(reports, order) + [Record(reports[i])]
  {
  }

  lemma WriteKeepsFifo(s: State, i: nat)
    requires Inv(s) && HandlerEnabled(s, i) && s.handlers[i] == HasLock
    ensures Fifo(HandlerNext(s, i))
  {
    var t := HandlerNext(s, i);
    var m := Record(s.reports[i]);
    SumUpdate(s.handlers, Unwritten, i, Written);
    assert s.pipe == "" && s.logger != AtAppend;
    assert t.pipe == "" + m == m;
    RecordsSnoc(s.reports, s.order, i);
    assert Records(s.reports, s.order) == s.logged + [] + [];
    assert Queued(t) == [m] && Held(t) == [];
  }

  lemma HandlerKeepsFifo(s: State, i: nat)
    requires Inv(s) && HandlerEnabled(s, i)
    ensures Fifo(HandlerNext(s, i))
  {
    if s.handlers[i] == HasLock {
      WriteKeepsFifo(s, i);
    }
  }

  lemma HandlerKeepsInv(s: State, i: nat)
    requires Inv(s) && HandlerEnabled(s, i)
    ensures Inv(HandlerNext(s, i))
    ensures QuietInv(s) ==> QuietInv(HandlerNext(s, i))
  {
    HandlerKeepsMutex(s, i);
    HandlerKeepsTokens(s, i);
    HandlerKeepsOnce(s, i);
    HandlerKeepsFifo(s, i);
  }

  lemma LoggerKeepsFifo(s: State)
    requires Inv(s) && LoggerEnabled(s)
    ensures Fifo(LoggerNext(s))
  {
    var t := LoggerNext(s);
    if s.logger == AtRead {
      assert s.pipe[..ReadSize(s)] + Zeros(0) == s.pipe;
      assert t.message == s.pipe && t.pipe == "";
      assert Held(s) == [] && Queued(t) == [] && Held(t) == Queued(s);
    } else if s.logger == AtAppend {
      assert s.pipe == "" && Queued(s) == Queued(t) == Held(t) == [];
    } else {
      assert Held(s) == Held(t) == [] && Queued(s) == Queued(t);
    }
  }

  lemma LoggerKeepsTokens(s: State)
    requires Inv(s) && LoggerEnabled(s)
    ensures TokenInv(LoggerNext(s)) && MutexInv(LoggerNext(s))
    ensures QuietInv(s) ==>
      LoggerNext(s).tokens + Sum(s.handlers, Unspent) == Offered(LoggerNext(s).logger)
  {
    var t := LoggerNext(s);
    if s.logger == AtRead {
      assert s.pipe != "" && t.pipe == "";
    } else if s.logger == Locked {
      forall i | 0 <= i < |s.handlers| ensures Unspent(s.handlers[i]) == 0 {
        SumUpdate(s.handlers, Unwritten, i, Done);
      }
      SumConstant(s.handlers, Unspent, 0);
    }
  }

  lemma LoggerKeepsInv(s: State)
    requires Inv(s) && LoggerEnabled(s)
    ensures Inv(LoggerNext(s))
    ensures QuietInv(s) ==> QuietInv(LoggerNext(s))
  {
    LoggerKeepsFifo(s);
    LoggerKeepsTokens(s);
  }

  // ---------- every run ----------

  lemma StepKeepsInv(s: State, step: Step)
    requires Inv(s) && Enabled(s, step)
    ensures Inv(Next(s, step)) && Next(s, step).reports == s.reports
    ensures QuietInv(s) && step != SpuriousWakeup ==> QuietInv(Next(s, step))
  {
    match step {
      case HandlerStep(i) => HandlerKeepsInv(s, i);
      case LoggerStep => LoggerKeepsInv(s);
      case SpuriousWakeup =>
    }
  }

  lemma InvNext(run: seq<State>, steps: seq<Step>, k: nat)
    requires Execution(run, steps) && k < |steps| && Inv(run[k])
    ensures Inv(run[k + 1]) && run[k + 1].reports == run[k].reports
    ensures QuietInv(run[k]) && steps[k] != SpuriousWakeup ==> QuietInv(run[k + 1])
  {
    StepKeepsInv(run[k], steps[k]);
  }

  lemma QuietSnoc(steps: seq<Step>, k: nat)
    requires k < |steps| && Quiet(steps[..k + 1])
    ensures Quiet(steps[..k]) && steps[k] != SpuriousWakeup
  {
    assert steps[..k + 1] == steps[..k] + [steps[k]];
  }

  /** Every state of every execution satisfies the invariant, spurious wakeups or not. */
  lemma {:induction false} RunInv(run: seq<State>, steps: seq<Step>, k: nat)
    requires Execution(run, steps) && Init(run[0]) && k < |run|
    ensures Inv(run[k]) && run[k].reports == run[0].reports
    ensures Quiet(steps[..k]) ==> QuietInv(run[k])
  {
    if k == 0 {
      InitInv(run[0]);
    } else {
      RunInv(run, steps, k - 1);
      InvNext(run, steps, k - 1);
      if Quiet(steps[..k]) { QuietSnoc(steps, k - 1); }
    }
  }

  /** No lost wakeup: without spurious wakeups a token is unspent exactly while the logger is
      between writing it and being woken, so every signal finds the logger waiting. */
  lemma NoLostWakeup(run: seq<State>, steps: seq<Step>, k: nat)
    requires Execution(run, steps) && Init(run[0]) && Quiet(steps) && k < |run|
    ensures run[k].tokens + Sum(run[k].handlers, Unspent) ==
            if run[k].logger == TokenWritten || run[k].logger == Waiting then 1 else 0
    ensures forall i: nat :: HandlerEnabled(run[k], i) && run[k].handlers[i] == Written ==>
            run[k].logger == Waiting && HandlerNext(run[k], i).logger == Woken
  {
    RunInv(run, steps, k);
    forall i: nat | i < |run[k].handlers| && run[k].handlers[i] == Written
      ensures run[k].logger == Waiting
    {
      SumUpdate(run[k].handlers, Unspent, i, Done);
    }
  }

  /** Exactly-once FIFO logging, spurious wakeups allowed: the logged messages, then the record
      the logger holds, then the data pipe, are the records written so far, in the order they
      were written, one for each handler that has written; a read takes one whole record. */
  lemma ExactlyOnceFifo(run: seq<State>, steps: seq<Step>, k: nat)
    requires Execution(run, steps) && Init(run[0]) && k < |run|
    ensures var s := run[k];
      && Distinct(s.order)
      && (forall i: nat :: i in s.order <==> i < |s.handlers| && HasWritten(s.handlers[i]))
      && (forall j :: 0 <= j < |s.order| ==> s.order[j] < |run[0].reports|)
      && s.logged + Held(s) + Queued(s) == Records(run[0].reports, s.order)
    ensures var s := run[k];
      k < |steps| && steps[k] == LoggerStep && s.logger == AtRead ==>
        && s.order != [] && run[k + 1].pipe == ""
        && run[k + 1].message == Record(run[0].reports[s.order[|s.order| - 1]])
  {
    RunInv(run, steps, k);
    var s := run[k];
    if k < |steps| && steps[k] == LoggerStep && s.logger == AtRead {
      var records := Records(s.reports, s.order);
      assert records == s.logged + [s.pipe];
      assert records[|records| - 1] == s.pipe;
      assert s.pipe[..RECORD_SIZE] + Zeros(0) == s.pipe;
    }
  }

  /** What a log line shows: the handler's text, cut at 4095 characters. */
  lemma LineShowsText(r: Report)
    requires IsReport(r)
    ensures |Text(r)| < 4096 ==> Line(Record(r)) == "L->  " + Text(r) + "\n"
    ensures |Text(r)| >= 4096 ==> Line(Record(r)) == "L->  " + Text(r)[..4095] + "\n"
  {
    var t := Text(r);
    assert NUL !in t;
    if |t| < RECORD_SIZE {
      CStrIs(Record(r), t);
    } else {
      CStrIs(Record(r), t[..RECORD_SIZE - 1]);
    }
  }

  /** The text between its tabs: file, size, client, then host and port. */
  lemma TextSplits(r: Report)
    requires '\t' !in r.path && '\t' !in r.ip && '\t' !in r.host
    ensures Split(Text(r), "\t") == [
      "FileName: " + r.path,
      Decimal(r.size) + " Byte ",
      " IP Client: " + r.ip + " ",
      " " + r.host + " Port: " + Decimal(r.port)]
  {
    var a, b := "FileName: " + r.path, Decimal(r.size) + " Byte ";
    var c, d := " IP Client: " + r.ip + " ", " " + r.host + " Port: " + Decimal(r.port);
    TextIs(r);
    LiteralsHaveNoTab();
    SplitWithout(a, "\t");
    SplitWithout(b, "\t");
    SplitWithout(c, "\t");
    SplitWithout(d, "\t");
    SplitAtSeparator(a, '\t', b, "\t");
    SplitAtSeparator(a + "\t" + b, '\t', c, "\t");
    SplitAtSeparator(a + "\t" + b + "\t" + c, '\t', d, "\t");
  }

  lemma TextIs(r: Report)
    ensures Text(r) == ("FileName: " + r.path) + "\t" + (Decimal(r.size) + " Byte ") + "\t" +
      (" IP Client: " + r.ip + " ") + "\t" + (" " + r.host + " Port: " + Decimal(r.port))
  {
    assert " Byte \t IP Client: " == " Byte " + "\t" + " IP Client: ";
    assert " \t " == " " + "\t" + " ";
  }

  lemma LiteralsHaveNoTab()
    ensures '\t' !in "FileName: " && '\t' !in " Byte " && '\t' !in " IP Client: " && '\t' !in " Port: "
  {
  }

  // ---------- progress ----------

  function HandlerRank(pc: HandlerPc): nat {
    match pc {
      case Busy => 13
      case AtToken => 12
      case HasToken => 11
      case HasLock => 10
      case Written => 9
      case Signalled => 1
      case Done => 0
    }
  }
  function LoggerRank(pc: LoggerPc): nat {
    match pc {
      case Woken => 7
      case AtRead => 6
      case AtAppend => 5
      case AtUnlock => 4
      case AtLock => 3
      case Locked => 2
      case TokenWritten => 1
      case Waiting => 0
    }
  }

  /** The number of steps left: each handler owes six of its own and seven of the logger's. */
  function Rank(s: State): nat {
    Sum(s.handlers, HandlerRank) + LoggerRank(s.logger)
  }

  lemma HandlerDecreasesRank(s: State, i: nat)
    requires QuietInv(s) && HandlerEnabled(s, i)
    ensures Rank(HandlerNext(s, i)) == Rank(s) - 1
  {
    SumUpdate(s.handlers, HandlerRank, i, HandlerNext(s, i).handlers[i]);
    if s.handlers[i] == Written { SignalFindsWaiter(s, i); }
  }

  lemma SignalFindsWaiter(s: State, i: nat)
    requires MutexInv(s) && OfferedInv(s) && i < |s.handlers| && s.handlers[i] == Written
    ensures s.logger == Waiting
  {
    SumUpdate(s.handlers, Unspent, i, Done);
  }

  lemma StepDecreasesRank(s: State, step: Step)
    requires QuietInv(s) && Enabled(s, step) && step != SpuriousWakeup
    ensures Rank(Next(s, step)) == Rank(s) - 1
  {
    if step.HandlerStep? {
      HandlerDecreasesRank(s, step.i);
    } else {
      assert LoggerNext(s).handlers == s.handlers;
    }
  }

  /** All work done: the logger waits for the next record, with one token on offer. */
  ghost predicate Quiescent(s: State) {
    && s.logger == Waiting && s.mutex == Nobody && s.tokens == 1 && s.pipe == ""
    && forall i :: 0 <= i < |s.handlers| ==> s.handlers[i] == Done
  }

  /** No process can move. */
  ghost predicate Stuck(s: State) {
    !LoggerEnabled(s) && forall i :: 0 <= i < |s.handlers| ==> !HandlerEnabled(s, i)
  }

  /** The logger holds the mutex and waits for a record that nobody can write. */
  predicate Poisoned(s: State) {
    s.logger == AtRead && s.pipe == ""
  }

  ghost predicate AllBlocked(s: State) {
    forall i :: 0 <= i < |s.handlers| ==>
      (s.handlers[i] == AtToken && s.tokens == 0) || s.handlers[i] == HasToken || s.handlers[i] == Done
  }

  /** If neither the logger nor any handler inside the log routine can move, and the logger is
      not waiting on an empty pipe, then the logger is parked and every call is complete. */
  lemma IdleLog(s: State)
    requires Inv(s) && !Poisoned(s) && !LoggerEnabled(s)
    requires forall i :: 0 <= i < |s.handlers| && s.handlers[i] != Busy ==> !HandlerEnabled(s, i)
    ensures s.logger == Waiting && s.mutex == Nobody && s.tokens == 1 && s.pipe == ""
    ensures forall i :: 0 <= i < |s.handlers| ==> s.handlers[i] == Busy || s.handlers[i] == Done
  {
    if s.mutex.Handler? {
      assert HandlerEnabled(s, s.mutex.id);
    }
    assert s.logger == Waiting && s.mutex == Nobody;
    if s.tokens == 0 {
      var i := SumWitness(s.handlers, Unspent);
      assert HandlerEnabled(s, i);
    }
    forall i | 0 <= i < |s.handlers| ensures s.handlers[i] == Busy || s.handlers[i] == Done {
      SumUpdate(s.handlers, Unspent, i, Done);
    }
  }

  lemma HealthyStuckIsQuiescent(s: State)
    requires Inv(s) && Stuck(s) && !Poisoned(s)
    ensures Quiescent(s)
  {
    IdleLog(s);
    assert forall i :: 0 <= i < |s.handlers| && s.handlers[i] == Busy ==> HandlerEnabled(s, i);
  }

  lemma PoisonedStuck(s: State)
    requires Inv(s) && Poisoned(s)
    ensures Stuck(s) <==> AllBlocked(s)
  {
    forall i | 0 <= i < |s.handlers|
      ensures !HandlerEnabled(s, i) <==>
        ((s.handlers[i] == AtToken && s.tokens == 0) || s.handlers[i] == HasToken || s.handlers[i] == Done)
    {
      assert s.mutex == Logger;
    }
  }

  /** A reachable state is a deadlock in exactly two ways: all work is done, or the logger
      read an empty pipe while every handler still to log waits for a token or for the mutex. */
  lemma StuckIff(s: State)
    requires Inv(s)
    ensures Stuck(s) <==> Quiescent(s) || (Poisoned(s) && AllBlocked(s))
  {
    if Poisoned(s) {
      PoisonedStuck(s);
    } else if Stuck(s) {
      HealthyStuckIsQuiescent(s);
    }
  }

  lemma {:induction false} RunRank(run: seq<State>, steps: seq<Step>, k: nat)
    requires Execution(run, steps) && Init(run[0]) && Quiet(steps) && k < |run|
    ensures Rank(run[k]) == 13 * |run[0].reports| + 3 - k
  {
    if k == 0 {
      SumConstant(run[0].handlers, HandlerRank, 13);
    } else {
      RunRank(run, steps, k - 1);
      RunInv(run, steps, k - 1);
      StepDecreasesRank(run[k - 1], steps[k - 1]);
    }
  }

  lemma QuiescentLoggedAll(s: State)
    requires Inv(s) && Quiescent(s)
    ensures AllLogged(s)
  {
    assert Held(s) == [] && Queued(s) == [];
    assert s.logged + [] + [] == s.logged;
  }

  /** The log holds the record of every handler exactly once, in the order of their writes. */
  ghost predicate AllLogged(s: State) {
    && Distinct(s.order)
    && (forall i: nat :: i in s.order <==> i < |s.reports|)
    && (forall k :: 0 <= k < |s.order| ==> s.order[k] < |s.reports|)
    && s.logged == Records(s.reports, s.order)
  }

  lemma QuietNotPoisoned(s: State)
    requires QuietInv(s)
    ensures !Poisoned(s)
  {
    if Poisoned(s) {
      var i := SumWitness(s.handlers, Unwritten);
      SumUpdate(s.handlers, Unspent, i, Done);
    }
  }

  /** Without spurious wakeups no run of N handlers has more than 13N + 3 steps, and a run that
      cannot be continued has exactly that many and has logged everything. */
  lemma EveryMaximalRunLogsAll(run: seq<State>, steps: seq<Step>)
    requires Execution(run, steps) && Init(run[0]) && Quiet(steps)
    ensures |steps| <= 13 * |run[0].reports| + 3
    ensures Stuck(Last(run)) <==> |steps| == 13 * |run[0].reports| + 3
    ensures Stuck(Last(run)) ==> Quiescent(Last(run)) && AllLogged(Last(run))
  {
    var s := Last(run);
    RunRank(run, steps, |steps|);
    assert steps[..|steps|] == steps;
    RunInv(run, steps, |steps|);
    QuietNotPoisoned(s);
    if Stuck(s) {
      HealthyStuckIsQuiescent(s);
      QuiescentLoggedAll(s);
      SumConstant(s.handlers, HandlerRank, 0);
    } else if LoggerEnabled(s) {
      StepDecreasesRank(s, LoggerStep);
    } else {
      var i :| 0 <= i < |s.handlers| && HandlerEnabled(s, i);
      StepDecreasesRank(s, HandlerStep(i));
    }
  }

  // ---------- what a spurious wakeup can do ----------

  lemma PoisonedStep(s: State, step: Step)
    requires MutexInv(s) && Poisoned(s) && Enabled(s, step)
    ensures Poisoned(Next(s, step)) && Next(s, step).logged == s.logged
  {
  }

  lemma PoisonedNext(run: seq<State>, steps: seq<Step>, k: nat)
    requires Execution(run, steps) && Init(run[0]) && k < |steps| && Poisoned(run[k])
    ensures Poisoned(run[k + 1]) && run[k + 1].logged == run[k].logged
  {
    RunInv(run, steps, k);
    PoisonedStep(run[k], steps[k]);
  }

  /** Once the logger waits on an empty pipe it waits for ever, and nothing more is logged. */
  lemma {:induction false} PoisonedForever(run: seq<State>, steps: seq<Step>, j: nat, k: nat)
    requires Execution(run, steps) && Init(run[0]) && j <= k < |run| && Poisoned(run[j])
    ensures Poisoned(run[k]) && run[k].logged == run[j].logged
  {
    if j < k {
      PoisonedForever(run, steps, j, k - 1);
      PoisonedNext(run, steps, k - 1);
    }
  }

  /** With spurious wakeups, a run that cannot be continued has logged everything if and only if
      the logger never found the data pipe empty when it took the mutex again. */
  lemma SpuriousRunsLogAllIff(run: seq<State>, steps: seq<Step>)
    requires Execution(run, steps) && Init(run[0]) && Stuck(Last(run))
    ensures AllLogged(Last(run)) && Quiescent(Last(run)) <==>
      forall k :: 0 <= k < |steps| && run[k].logger == Woken && steps[k] == LoggerStep ==> run[k].pipe != ""
  {
    var s := Last(run);
    RunInv(run, steps, |steps|);
    forall k | 0 <= k < |steps| && run[k].logger == Woken && steps[k] == LoggerStep && run[k].pipe == ""
      ensures !Quiescent(s)
    {
      PoisonedForever(run, steps, k + 1, |steps|);
    }
    if Poisoned(s) {
      var k := Origin(run, steps, |steps|);
    } else {
      HealthyStuckIsQuiescent(s);
      QuiescentLoggedAll(s);
    }
  }

  /** The logger comes to wait on an empty pipe only by taking the mutex again too early. */
  lemma {:induction false} Origin(run: seq<State>, steps: seq<Step>, k: nat) returns (j: nat)
    requires Execution(run, steps) && Init(run[0]) && k < |run| && Poisoned(run[k])
    ensures j < k && run[j].logger == Woken && steps[j] == LoggerStep && run[j].pipe == ""
  {
    j := k - 1;
    if Poisoned(run[j]) {
      j := Origin(run, steps, j);
    }
  }

  // How many handlers a log without repetition names.

  function Members(order: seq<nat>): set<nat> { set i | i in order }

  function Below(n: nat): (r: set<nat>)
    ensures forall i: nat :: i in r <==> i < n
  {
    if n == 0 then {} else Below(n - 1) + {n - 1}
  }

  lemma {:induction false} MembersCount(order: seq<nat>)
    requires Distinct(order)
    ensures |Members(order)| == |order|
  {
    if order != [] {
      var init, last := order[..|order| - 1], order[|order| - 1];
      MembersCount(init);
      assert order == init + [last] && last !in init;
      assert Members(order) == Members(init) + {last};
    }
  }

  lemma {:induction false} BelowCount(n: nat)
    ensures |Below(n)| == n
  {
    if n > 0 { BelowCount(n - 1); }
  }

  lemma SubsetOfSameSize(a: set<nat>, b: set<nat>)
    requires a <= b
    ensures |a| == |b| <==> a == b
  {
    assert b == a + (b - a);
  }

  /** A log without repetition names everybody exactly when it has as many entries as there are handlers. */
  lemma EverybodyIff(order: seq<nat>, n: nat)
    requires Distinct(order) && forall i :: i in order ==> i < n
    ensures |order| == n <==> forall i: nat :: i in order <==> i < n
  {
    MembersCount(order);
    BelowCount(n);
    SubsetOfSameSize(Members(order), Below(n));
    assert forall i: nat :: (i in Members(order) <==> i in order) && (i in Below(n) <==> i < n);
  }

  lemma AllLoggedIff(s: State)
    requires Inv(s) && Held(s) == [] && Queued(s) == []
    ensures AllLogged(s) <==> |s.logged| == |s.reports|
  {
    assert s.logged + [] + [] == s.logged;
    assert forall i :: i in s.order ==> i < |s.reports|;
    EverybodyIff(s.order, |s.reports|);
  }

  /** The logger takes the mutex back to an empty pipe at step `k`. */
  ghost predicate WokenInVain(run: seq<State>, steps: seq<Step>, k: nat)
    requires Execution(run, steps) && k < |steps|
  {
    run[k].logger == Woken && steps[k] == LoggerStep && run[k].pipe == ""
  }

  /** With spurious wakeups, a run that cannot be continued has logged every record if and only if every
      record was logged already whenever the logger took the mutex back to an empty pipe. */
  lemma SpuriousRunsLogEveryRecordIff(run: seq<State>, steps: seq<Step>)
    requires Execution(run, steps) && Init(run[0]) && Stuck(Last(run))
    ensures AllLogged(Last(run)) <==>
      forall k :: 0 <= k < |steps| && WokenInVain(run, steps, k) ==> |run[k].logged| == |run[0].reports|
  {
    var s := Last(run);
    RunInv(run, steps, |steps|);
    forall k | 0 <= k < |steps| && WokenInVain(run, steps, k)
      ensures s.logged == run[k].logged && Poisoned(s)
    {
      PoisonedForever(run, steps, k + 1, |steps|);
    }
    if Poisoned(s) {
      var k := Origin(run, steps, |steps|);
      assert WokenInVain(run, steps, k);
      AllLoggedIff(s);
    } else {
      HealthyStuckIsQuiescent(s);
      QuiescentLoggedAll(s);
    }
  }

  /** One spurious wakeup is enough: for any reports there is a run that ends so. */
  lemma SpuriousWakeupDeadlocks(s: State) returns (run: seq<State>, steps: seq<Step>)
    requires Init(s)
    ensures Execution(run, steps) && run[0] == s && Poisoned(Last(run))
  {
    steps := [LoggerStep, LoggerStep, LoggerStep, SpuriousWakeup, LoggerStep];
    var s1 := Next(s, LoggerStep);
    var s2 := Next(s1, LoggerStep);
    var s3 := Next(s2, LoggerStep);
    var s4 := Next(s3, SpuriousWakeup);
    run := [s, s1, s2, s3, s4, Next(s4, LoggerStep)];
  }
}
