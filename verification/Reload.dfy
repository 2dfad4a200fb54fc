/** Reloading the configuration: the loop of main.c, `linux_socket` of
    linux/lib/socket/linux_socket.c and the handler of linux/lib/signals/linux_signals.c, with
    SIGHUP arriving, and the configuration file changing, between any two steps. */
module Reload {
  import opened Utils
  import opened ConfigFile

  /** The lines that fill the parser's first array; its next line makes it grow. */
  const FIRST_LINES: nat := 1024

  /** What a request copies of the configuration, and what was in force when it was accepted. */
  datatype Request = Request(listening: int, inForce: Conf, port: int, mode: int, rootDir: string)

  datatype Pc =
    | Starting               // about to call start_server
    | Selecting              // at select
    | Ready                  // about to accept
    | Accepted(inForce: Conf)  // about to copy the configuration for the request
    | Ending                 // about to call end_server
    | Clearing               // in main, about to clear reset_config
    | Opening                // about to open the configuration file
    | Reading(text: string, openedAt: nat)
    | Applying(lines: seq<string>, openedAt: nat, before: Conf, done: nat, progress: Progress)
    | Dead                   // the process has ended

  /** `clock`, `hupAt`, `parsedAt` and `edited` are history: when the last SIGHUP arrived, when the
      parse that made the configuration opened the file, and whether the file has changed since the
      last SIGHUP. */
  datatype State = State(
    pc: Pc, reset: bool, conf: Conf, listening: seq<int>, requests: seq<Request>, file: string,
    clock: nat, hupAt: nat, parsedAt: nat, edited: bool)

  datatype Step =
    | Hup                       // signal_sighup_handler
    | Edit(file: string)
    | StartServer(ok: bool)
    | SelectReady
    | SelectFails(interrupted: bool)
    | Accept(ok: bool)          // false: accept or an allocation fails, and the loop continues
    | Copy
    | EndServer
    | Clear
    | Open(ok: bool)
    | ReadSome(n: nat)
    | OutOfMemory               // realloc of the line array fails
    | EndOfFile
    | ApplyLine

  /** The file says that this is the configuration, whatever was in force before. */
  ghost predicate Says(file: string, conf: Conf) {
    forall c :: IsConf(c) ==> Parse(FileLines(file), c) == Ok(conf)
  }

  ghost predicate Start(s: State) {
    && s.pc == Starting && !s.reset && s.listening == [] && s.requests == []
    && IsConf(s.conf) && Says(s.file, s.conf)
    && s.hupAt < s.parsedAt <= s.clock && !s.edited
  }

  predicate Enabled(s: State, step: Step) {
    match step
    case Hup => !s.pc.Dead?
    case Edit(_) => true
    case StartServer(_) => s.pc.Starting?
    case SelectReady => s.pc.Selecting?
    case SelectFails(_) => s.pc.Selecting?
    case Accept(_) => s.pc.Ready?
    case Copy => s.pc.Accepted?
    case EndServer => s.pc.Ending? && s.listening != []
    case Clear => s.pc.Clearing?
    case Open(_) => s.pc.Opening?
    case ReadSome(n) => s.pc.Reading? && 0 < n && |s.pc.text| + n <= |s.file|
    case OutOfMemory => s.pc.Reading? && |FileLines(s.pc.text)| >= FIRST_LINES
    case EndOfFile => s.pc.Reading? && |s.pc.text| >= |s.file| && IsConf(s.conf)
    case ApplyLine => s.pc.Applying? && IsConf(s.conf) && (s.pc.progress.Running? ==> IsConf(s.pc.progress.conf))
  }

  function Moved(s: State, step: Step): State
    requires Enabled(s, step)
  {
    match step
    case Hup => s.(reset := true, hupAt := s.clock, edited := false)
    case Edit(file) => s.(file := file, edited := true)
    case StartServer(ok) =>
      if ok then s.(pc := Selecting, listening := s.listening + [s.conf.port]) else s.(pc := Dead)
    case SelectReady => s.(pc := Ready)
    case SelectFails(interrupted) => if interrupted && s.reset then s.(pc := Ending) else s
    case Accept(ok) => s.(pc := if ok then Accepted(s.conf) else Selecting)
    case Copy =>
      var port := if s.listening == [] then -1 else s.listening[0];
      s.(pc := Selecting,
         requests := s.requests + [Request(port, s.pc.inForce, s.conf.port, s.conf.mode, s.conf.rootDir)])
    case EndServer => s.(pc := Clearing, listening := s.listening[1..])
    case Clear => s.(pc := Opening, reset := false)
    case Open(ok) => s.(pc := if ok then Reading("", s.clock) else Dead)
    case ReadSome(n) =>
      var text := s.pc.text + s.file[|s.pc.text|..|s.pc.text| + n];
      s.(pc := s.pc.(text := text))
    case OutOfMemory => s.(pc := Starting)
    case EndOfFile =>
      s.(pc := Applying(FileLines(s.pc.text), s.pc.openedAt, s.conf, 0, Run([], s.conf)))
    case ApplyLine => Applied(s)
  }

  /** One turn of the loop over the lines, or the check after the last. */
  function Applied(s: State): State
    requires Enabled(s, ApplyLine)
  {
    var pc := s.pc;
    if pc.done < |pc.lines| then
      var next := Apply(pc.progress, LineEffect(pc.lines[pc.done]));
      if next.Stopped? then s.(pc := Dead)
      else s.(pc := pc.(done := pc.done + 1, progress := next), conf := next.conf)
    else if Finish(pc.progress).Ok? then s.(pc := Starting, parsedAt := pc.openedAt)
    else s.(pc := Dead)
  }

  function Next(s: State, step: Step): State
    requires Enabled(s, step)
  {
    Moved(s, step).(clock := s.clock + 1)
  }

  /** Where the steps lead, if each is enabled in its turn. */
  function Reached(s: State, steps: seq<Step>): Option<State> {
    if steps == [] then Some(s) else
    match Reached(s, steps[..|steps| - 1])
    case None => None
    case Some(u) =>
      if Enabled(u, steps[|steps| - 1]) then Some(Next(u, steps[|steps| - 1])) else None
  }

  predicate Leads(s: State, steps: seq<Step>, t: State) {
    Reached(s, steps) == Some(t)
  }

  lemma Continued(s: State, steps: seq<Step>, t: State, step: Step)
    requires Leads(s, steps, t) && Enabled(t, step)
    ensures Leads(s, steps + [step], Next(t, step))
  {
    assert (steps + [step])[..|steps|] == steps;
  }

  // ---------- what every step keeps ----------

  /** In the accept loop. */
  predicate Serving(s: State) { s.pc.Selecting? || s.pc.Ready? || s.pc.Accepted? }

  ghost predicate SocketInv(s: State) {
    && IsConf(s.conf)
    && (match s.pc {
          case Dead => |s.listening| <= 1
          case Selecting => s.listening == [s.conf.port]
          case Ready => s.listening == [s.conf.port]
          case Accepted(c) => s.listening == [s.conf.port] && c == s.conf
          case Ending => s.listening == [s.conf.port]
          case _ => s.listening == []
        })
    && (s.pc.Applying? ==> s.pc.progress.Running? && s.pc.progress.conf == s.conf)
  }

  /** Every request got the configuration that was in force when it was accepted, on the port the
      server was listening on. */
  predicate Faithful(r: Request) {
    && r.listening == r.port == r.inForce.port
    && r.mode == r.inForce.mode && r.rootDir == r.inForce.rootDir
  }

  ghost predicate RequestsInv(s: State) {
    forall i :: 0 <= i < |s.requests| ==> Faithful(s.requests[i])
  }

  ghost predicate TimeInv(s: State) {
    && s.hupAt < s.clock && s.parsedAt <= s.clock
    && (s.pc.Reading? || s.pc.Applying? ==> s.parsedAt <= s.pc.openedAt <= s.clock)
  }

  /** What was read since the last SIGHUP is what the file says, if the file has not changed since. */
  ghost predicate FileInv(s: State) {
    && (s.pc.Applying? ==>
         && IsConf(s.pc.before) && s.pc.done <= |s.pc.lines|
         && s.pc.progress == Run(Effects(s.pc.lines)[..s.pc.done], s.pc.before))
    && (!s.edited ==>
         match s.pc {
           case Dead => true
           case Applying(lines, at, _, _, _) => s.hupAt < at ==> lines == FileLines(s.file)
           case Reading(text, at) =>
             (s.hupAt < at ==> text <= s.file) && (s.hupAt < s.parsedAt ==> Says(s.file, s.conf))
           case _ => s.hupAt < s.parsedAt ==> Says(s.file, s.conf)
         })
  }

  ghost predicate Inv(s: State) {
    SocketInv(s) && RequestsInv(s) && TimeInv(s) && FileInv(s)
  }

  lemma StartInv(s: State)
    requires Start(s)
    ensures Inv(s)
  {
  }

  lemma SocketsKept(s: State, step: Step)
    requires SocketInv(s) && Enabled(s, step)
    ensures SocketInv(Next(s, step))
  {
    match step {
      case ApplyLine => LineKeepsSockets(s);
      case _ =>
    }
  }

  lemma LineKeepsSockets(s: State)
    requires SocketInv(s) && s.pc.Applying?
    ensures SocketInv(Applied(s))
  {
    var pc := s.pc;
    if pc.done < |pc.lines| {
      var e := LineEffect(pc.lines[pc.done]);
      AppliedIsConf(pc.progress, e);
    }
  }

  lemma AppliedIsConf(p: Progress, e: Effect)
    requires p.Running? && IsConf(p.conf)
    ensures Apply(p, e).Running? ==> IsConf(Apply(p, e).conf)
  {
  }

  lemma RequestsKept(s: State, step: Step)
    requires SocketInv(s) && RequestsInv(s) && Enabled(s, step)
    ensures RequestsInv(Next(s, step))
  {
  }

  lemma TimeKept(s: State, step: Step)
    requires TimeInv(s) && Enabled(s, step)
    ensures TimeInv(Next(s, step))
  {
  }

  /** A parse that succeeds says the same whatever was in force before it. */
  lemma ParsedSays(file: string, before: Conf)
    requires IsConf(before) && Parse(FileLines(file), before).Ok?
    ensures Says(file, Parse(FileLines(file), before).value)
  {
    var lines := FileLines(file);
    forall c | IsConf(c) ensures Parse(lines, c) == Parse(lines, before) {
      OrderDoesNotMatter(lines, lines, before, c);
    }
  }

  /** A printed configuration is what its file says, so a server can start from it. */
  lemma PrintedSays(port: nat, mode: int, dir: string, host: string)
    requires port <= 65535 && (mode == 1 || mode == 0) && IsValue(dir) && IsValue(host)
    ensures Says(Printed(port, mode, dir, host), Configured(port, mode, dir, host))
  {
    forall c | IsConf(c)
      ensures Parse(FileLines(Printed(port, mode, dir, host)), c) == Ok(Configured(port, mode, dir, host))
    {
      PrintThenParse(port, mode, dir, host, c);
    }
  }

  /** The line that is due makes this of the counts and the configuration. */
  predicate LineGives(s: State, next: Progress) {
    && s.pc.Applying? && s.pc.done < |s.pc.lines|
    && s.pc.progress.Running? && IsConf(s.pc.progress.conf) && IsConf(s.conf)
    && next == Apply(s.pc.progress, LineEffect(s.pc.lines[s.pc.done]))
  }

  lemma LineTaken(s: State, next: Progress)
    requires LineGives(s, next)
    ensures Enabled(s, ApplyLine)
    ensures var t := Next(s, ApplyLine);
      t.reset == s.reset && t.listening == s.listening && t.requests == s.requests && t.file == s.file
    ensures next.Stopped? ==> Next(s, ApplyLine).pc == Dead
    ensures next.Running? ==> Next(s, ApplyLine).conf == next.conf
    ensures next.Running? ==>
      Next(s, ApplyLine).pc == Applying(s.pc.lines, s.pc.openedAt, s.pc.before, s.pc.done + 1, next)
  {
  }

  lemma LineApplied(s: State)
    requires SocketInv(s) && FileInv(s) && s.pc.Applying? && s.pc.done < |s.pc.lines|
    ensures FileInv(Applied(s))
  {
    RunStep(Effects(s.pc.lines), s.pc.done, s.pc.before);
  }

  lemma AllApplied(s: State)
    requires SocketInv(s) && FileInv(s) && s.pc.Applying? && s.pc.done >= |s.pc.lines|
    ensures FileInv(Applied(s))
  {
    var es := Effects(s.pc.lines);
    assert es[..s.pc.done] == es;
    if Finish(s.pc.progress).Ok? && s.hupAt < s.pc.openedAt && !s.edited {
      ParsedSays(s.file, s.pc.before);
    }
  }

  lemma PrefixGrows(text: string, file: string, n: nat)
    requires |text| + n <= |file|
    ensures text <= file ==> text + file[|text|..|text| + n] <= file
  {
  }

  lemma FileKept(s: State, step: Step)
    requires SocketInv(s) && TimeInv(s) && FileInv(s) && Enabled(s, step)
    ensures FileInv(Next(s, step))
  {
    match step {
      case ApplyLine => if s.pc.done < |s.pc.lines| { LineApplied(s); } else { AllApplied(s); }
      case EndOfFile =>
        assert Effects(FileLines(s.pc.text))[..0] == [];
        assert s.pc.text <= s.file ==> s.pc.text == s.file;
      case ReadSome(n) => PrefixGrows(s.pc.text, s.file, n);
      case _ =>
    }
  }

  lemma StepKeepsInv(s: State, step: Step)
    requires Inv(s) && Enabled(s, step)
    ensures Inv(Next(s, step))
  {
    SocketsKept(s, step);
    RequestsKept(s, step);
    TimeKept(s, step);
    FileKept(s, step);
  }

  lemma {:induction false} RunKeepsInv(s: State, steps: seq<Step>, t: State)
    requires Inv(s) && Leads(s, steps, t)
    ensures Inv(t)
  {
    if steps != [] {
      var u, step := LastStep(s, steps, t);
      RunKeepsInv(s, steps[..|steps| - 1], u);
      StepKeepsInv(u, step);
    }
  }

  lemma LastStep(s: State, steps: seq<Step>, t: State) returns (u: State, step: Step)
    requires steps != [] && Leads(s, steps, t)
    ensures step == steps[|steps| - 1] && Leads(s, steps[..|steps| - 1], u)
    ensures Enabled(u, step) && t == Next(u, step)
  {
    u, step := Reached(s, steps[..|steps| - 1]).value, steps[|steps| - 1];
  }

  // ---------- what that means for a run ----------

  /** The configuration was parsed after the last SIGHUP, and it is what the file says if the file is
      still the one of that SIGHUP. */
  ghost predicate UpToDate(s: State) {
    s.hupAt < s.parsedAt && (!s.edited ==> Says(s.file, s.conf))
  }

  /** At most one socket listens; while the server accepts it is the one of the configured port;
      every request works with the configuration it was accepted under. */
  ghost predicate OneSocket(s: State) {
    && |s.listening| <= 1
    && (Serving(s) ==> s.listening == [s.conf.port])
    && forall i :: 0 <= i < |s.requests| ==> Faithful(s.requests[i])
  }

  lemma InvIsSafe(s: State)
    requires Inv(s)
    ensures OneSocket(s)
    ensures Serving(s) ==> (UpToDate(s) <==> s.hupAt < s.parsedAt)
  {
  }

  // ---------- exactly when the configuration is up to date ----------

  /** No SIGHUP from step `i` on. */
  predicate NoHupFrom(steps: seq<Step>, i: nat) { forall k :: i <= k < |steps| ==> steps[k] != Hup }

  /** The file was opened at step `i`, and since then the parser has not run out of memory before
      step `j`. */
  predicate ParsedFrom(steps: seq<Step>, i: nat, j: nat) {
    i < j <= |steps| && steps[i] == Open(true) && forall k :: i < k < j ==> steps[k] != OutOfMemory
  }

  /** After the last SIGHUP the file was opened, and the server was started before the parser ran out
      of memory. */
  ghost predicate Reloaded(steps: seq<Step>) {
    exists i: nat, j: nat :: ParsedFrom(steps, i, j) && NoHupFrom(steps, i) && j < |steps| && steps[j].StartServer?
  }

  /** There was no SIGHUP, or the last one was followed by a reload. */
  ghost predicate Current(steps: seq<Step>) { Hup !in steps || Reloaded(steps) }

  /** A parse that was opened after the last SIGHUP is under way or done, but not yet started from. */
  ghost predicate Pending(steps: seq<Step>) {
    exists i: nat :: ParsedFrom(steps, i, |steps|) && NoHupFrom(steps, i)
                && forall k :: i < k < |steps| ==> !steps[k].StartServer?
  }

  lemma PendingSnoc(steps: seq<Step>, step: Step)
    ensures Pending(steps + [step]) <==>
      step == Open(true) || (Pending(steps) && step != Hup && step != OutOfMemory && !step.StartServer?)
  {
    var all, n := steps + [step], |steps|;
    if step == Open(true) {
      assert ParsedFrom(all, n, n + 1) && NoHupFrom(all, n);
    } else if Pending(all) {
      var i: nat :| ParsedFrom(all, i, |all|) && NoHupFrom(all, i)
                && forall k :: i < k < |all| ==> !all[k].StartServer?;
      assert all[n] == step && forall k :: 0 <= k < n ==> steps[k] == all[k];
      assert ParsedFrom(steps, i, n) && NoHupFrom(steps, i);
    } else if Pending(steps) && step != Hup && step != OutOfMemory && !step.StartServer? {
      var i: nat :| ParsedFrom(steps, i, n) && NoHupFrom(steps, i)
                && forall k :: i < k < n ==> !steps[k].StartServer?;
      assert ParsedFrom(all, i, n + 1) && NoHupFrom(all, i);
    }
  }

  lemma CurrentSnoc(steps: seq<Step>, step: Step)
    ensures Current(steps + [step]) <==>
      step != Hup && (Current(steps) || (step.StartServer? && Pending(steps)))
  {
    var all, n := steps + [step], |steps|;
    assert all[n] == step && forall k :: 0 <= k < n ==> steps[k] == all[k];
    assert Hup in all <==> Hup in steps || step == Hup;
    if Reloaded(all) {
      var i: nat, j: nat :| ParsedFrom(all, i, j) && NoHupFrom(all, i) && j < |all| && all[j].StartServer?;
      assert ParsedFrom(steps, i, j) && NoHupFrom(steps, i);
      if j == n && !Reloaded(steps) {
        forall k | i < k < n ensures !steps[k].StartServer? {
          assert ParsedFrom(steps, i, k);
        }
      }
    }
    if step != Hup && Reloaded(steps) {
      var i: nat, j: nat :| ParsedFrom(steps, i, j) && NoHupFrom(steps, i) && j < |steps| && steps[j].StartServer?;
      assert ParsedFrom(all, i, j) && NoHupFrom(all, i);
    }
    if step.StartServer? && Pending(steps) {
      var i: nat :| ParsedFrom(steps, i, n) && NoHupFrom(steps, i);
      assert ParsedFrom(all, i, n) && NoHupFrom(all, i);
    }
  }

  /** The steps tell whether the configuration is newer than the last SIGHUP. */
  ghost predicate HistoryInv(s: State, steps: seq<Step>) { Tells(s, Pending(steps), Current(steps)) }

  predicate Tells(s: State, pending: bool, current: bool) {
    && (s.pc.Reading? || s.pc.Applying? ==> (s.hupAt < s.pc.openedAt <==> pending))
    && (s.hupAt < s.parsedAt <==> current || (s.pc.Starting? && pending))
  }

  lemma TellsNext(s: State, step: Step, pending: bool, current: bool)
    requires TimeInv(s) && Tells(s, pending, current) && Enabled(s, step)
    ensures Tells(Next(s, step),
              step == Open(true) || (pending && step != Hup && step != OutOfMemory && !step.StartServer?),
              step != Hup && (current || (step.StartServer? && pending)))
  {
  }

  lemma HistoryKept(s: State, steps: seq<Step>, step: Step)
    requires TimeInv(s) && HistoryInv(s, steps) && Enabled(s, step)
    ensures HistoryInv(Next(s, step), steps + [step])
  {
    PendingSnoc(steps, step);
    CurrentSnoc(steps, step);
    TellsNext(s, step, Pending(steps), Current(steps));
  }

  lemma StartHistory(s: State)
    requires Start(s)
    ensures HistoryInv(s, [])
  {
  }

  lemma {:induction false} RunKeepsHistory(s: State, steps: seq<Step>, t: State)
    requires TimeInv(s) && HistoryInv(s, []) && Leads(s, steps, t)
    ensures TimeInv(t) && HistoryInv(t, steps)
  {
    if steps != [] {
      var init := steps[..|steps| - 1];
      var u, step := LastStep(s, steps, t);
      RunKeepsHistory(s, init, u);
      TimeKept(u, step);
      HistoryKept(u, init, step);
      assert steps == init + [step];
    }
  }

  /** Reload safety.  Wherever signals, changes of the file and failures of the parser fall, sockets and
      requests are in order, and a server that accepts has an up-to-date configuration exactly when
      there was no SIGHUP, or the last one was followed by opening the file and starting the server
      without the parser running out of memory in between. */
  lemma ReloadIsSafeIff(s: State, steps: seq<Step>, t: State)
    requires Start(s) && Leads(s, steps, t)
    ensures OneSocket(t)
    ensures Serving(t) ==> (UpToDate(t) <==> Current(steps))
  {
    StartInv(s);
    StartHistory(s);
    RunKeepsInv(s, steps, t);
    RunKeepsHistory(s, steps, t);
    InvIsSafe(t);
  }

  /** Without a SIGHUP waiting, what is served or read is newer than the last one; only running out of
      memory breaks this. */
  ghost predicate ResetInv(s: State) {
    !s.reset ==>
      match s.pc {
        case Dead => true
        case Ending => true
        case Clearing => true
        case Opening => true
        case Reading(_, at) => s.hupAt < at
        case Applying(_, at, _, _, _) => s.hupAt < at
        case _ => s.hupAt < s.parsedAt
      }
  }

  lemma ResetKept(s: State, step: Step)
    requires TimeInv(s) && ResetInv(s) && Enabled(s, step) && step != OutOfMemory
    ensures ResetInv(Next(s, step))
  {
  }

  lemma {:induction false} RunKeepsReset(s: State, steps: seq<Step>, t: State)
    requires TimeInv(s) && ResetInv(s) && Leads(s, steps, t) && OutOfMemory !in steps
    ensures TimeInv(t) && ResetInv(t)
  {
    if steps != [] {
      var init := steps[..|steps| - 1];
      var u, step := LastStep(s, steps, t);
      assert step in steps && forall x :: x in init ==> x in steps;
      RunKeepsReset(s, init, u);
      TimeKept(u, step);
      ResetKept(u, step);
    }
  }

  /** In particular, while memory lasts an accepting server with no SIGHUP waiting is up to date. */
  lemma UpToDateWhileMemoryLasts(s: State, steps: seq<Step>, t: State)
    requires Start(s) && Leads(s, steps, t) && OutOfMemory !in steps && Serving(t) && !t.reset
    ensures UpToDate(t)
  {
    StartInv(s);
    RunKeepsInv(s, steps, t);
    RunKeepsReset(s, steps, t);
    InvIsSafe(t);
  }

  /** When the parser does run out of memory, its caller does not notice: the server clears the flag
      and goes on with the configuration from before the SIGHUP, whatever the file says now. */
  lemma OutOfMemoryServesOld(s: State, file: string) returns (steps: seq<Step>, t: State)
    requires Start(s) && |FileLines(file)| >= FIRST_LINES
    ensures Leads(s, steps, t)
    ensures Serving(t) && !t.reset && !t.edited && t.file == file
    ensures t.parsedAt < t.hupAt && t.conf == s.conf && !UpToDate(t)
  {
    steps, t := [], s;
    steps, t := Then(s, steps, t, StartServer(true));
    steps, t := Then(s, steps, t, Edit(file));
    steps, t := Then(s, steps, t, Hup);
    steps, t := Then(s, steps, t, SelectFails(true));
    steps, t := ParseInVain(s, steps, t, file);
  }

  lemma ParseInVain(s: State, before: seq<Step>, u: State, file: string) returns (steps: seq<Step>, t: State)
    requires Leads(s, before, u)
    requires u.pc == Ending && |u.listening| == 1 && u.file == file && |FileLines(file)| >= FIRST_LINES
    ensures Leads(s, steps, t)
    ensures t.pc == Selecting && !t.reset && t.edited == u.edited && t.file == file
    ensures t.parsedAt == u.parsedAt && t.hupAt == u.hupAt && t.conf == u.conf
  {
    steps, t := Then(s, before, u, EndServer);
    steps, t := Then(s, steps, t, Clear);
    steps, t := ReadInVain(s, steps, t, file);
  }

  lemma ReadInVain(s: State, before: seq<Step>, u: State, file: string) returns (steps: seq<Step>, t: State)
    requires Leads(s, before, u)
    requires u.pc == Opening && u.listening == [] && u.file == file && |FileLines(file)| >= FIRST_LINES
    ensures Leads(s, steps, t)
    ensures t.pc == Selecting && t.reset == u.reset && t.edited == u.edited && t.file == file
    ensures t.parsedAt == u.parsedAt && t.hupAt == u.hupAt && t.conf == u.conf
  {
    assert file != "";
    steps, t := Then(s, before, u, Open(true));
    steps, t := Then(s, steps, t, ReadSome(|file|));
    assert t.pc.text == file;
    steps, t := Then(s, steps, t, OutOfMemory);
    steps, t := Then(s, steps, t, StartServer(true));
  }

  lemma Then(s: State, steps: seq<Step>, t: State, step: Step) returns (steps': seq<Step>, t': State)
    requires Leads(s, steps, t) && Enabled(t, step)
    ensures steps' == steps + [step] && t' == Next(t, step) && Leads(s, steps', t')
  {
    steps', t' := steps + [step], Next(t, step);
    Continued(s, steps, t, step);
  }
}
