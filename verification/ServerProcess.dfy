/** The server process as code: `main`, `linux_socket`, the parser and the SIGHUP handler work on the
    process's own variables and on the configuration's buffers in place.  What they do under a schedule
    is exactly the run that the schedule plays on the reload machine. */
module ServerProcess {
  import opened CStrings
  import opened Utils
  import opened ConfigFile
  import opened Reload
  import opened Schedule

  class Server {
    const config: Configs
    var resetConfig: bool
    var listening: seq<int>
    var requests: seq<Request>
    var file: string
    var moments: seq<Moment>  // what is still going to happen

    ghost const first: State
    ghost var run: Run

    ghost function Pc(): Pc
      reads this
    {
      run.state.pc
    }

    /** The variables are those of the state that the run has come to. */
    ghost predicate Valid()
      reads this, config, config.rootDir, config.ipBuffer
    {
      && Start(first) && Leads(first, run.steps, run.state)
      && run.state.reset == resetConfig && run.state.listening == listening && run.state.requests == requests
      && run.state.file == file
      && (!Pc().Dead? ==> config.Valid() && run.state.conf == config.Value())
    }

    /** The process has ended, or nothing more happens. */
    ghost predicate Over()
      reads this
    {
      Pc().Dead? || moments == []
    }

    /** Where the rest of the schedule leads. */
    ghost function Outcome(): Run
      reads this
    {
      Play(run, moments)
    }

    /** The process after its first parse and the call of `signal`. */
    constructor (config: Configs, file: string, moments: seq<Moment>)
      requires config.Valid() && Says(file, config.Value())
      ensures Valid() && Pc() == Starting && listening == []
      ensures this.config == config && this.moments == moments && run == Run([], first)
    {
      this.config, this.file, this.moments := config, file, moments;
      resetConfig, listening, requests := false, [], [];
      var s := State(Starting, false, config.Value(), [], [], file, 1, 0, 1, false);
      first, run := s, Run([], s);
    }

    ghost method Take(step: Step)
      requires Start(first) && Leads(first, run.steps, run.state) && Enabled(run.state, step)
      modifies this`run
      ensures Leads(first, run.steps, run.state) && run == After(old(run), step)
      ensures run.state == Next(old(run.state), step)
    {
      Continued(first, run.steps, run.state, step);
      run := After(run, step);
    }

    /** signal_sighup_handler */
    method SignalSighupHandler()
      requires Valid() && !Pc().Dead?
      modifies this`resetConfig, this`run
      ensures Valid() && run == After(old(run), Hup) && Pc() == old(Pc())
    {
      resetConfig := true;
      Take(Hup);
    }

    /** Somebody replaces the configuration file. */
    method ReplaceFile(file: string)
      requires Valid()
      modifies this`file, this`run
      ensures Valid() && run == After(old(run), Edit(file)) && Pc() == old(Pc())
    {
      this.file := file;
      Take(Edit(file));
    }

    /** What arrives is served at once. */
    method Deliver(arrivals: seq<Arrival>)
      requires Valid() && !Pc().Dead?
      modifies this`resetConfig, this`file, this`run
      ensures Valid() && Pc() == old(Pc()) && run == Arrived(old(run), arrivals)
    {
      var rest := arrivals;
      while rest != []
        invariant Valid() && Pc() == old(Pc()) && Arrived(run, rest) == Arrived(old(run), arrivals)
        decreases |rest|
      {
        match rest[0] {
          case Sighup => SignalSighupHandler();
          case Replaced(file) => ReplaceFile(file);
        }
        rest := rest[1..];
      }
    }

    /** The program comes to its next call: what arrives first, arrives; the call is still to be made. */
    method Tick() returns (m: Option<Moment>)
      requires Valid() && !Pc().Dead?
      modifies this`moments, this`resetConfig, this`file, this`run
      ensures Valid() && Pc() == old(Pc())
      ensures m.None? ==> moments == [] && Outcome() == old(Outcome())
      ensures m.Some? ==> old(moments) == [m.value] + moments && Play(Called(run, m.value), moments) == old(Outcome())
    {
      if moments == [] { return None; }
      var moment := moments[0];
      moments := moments[1..];
      Deliver(moment.arrivals);
      m := Some(moment);
    }

    /** The configuration as it is at this moment. */
    method InForce() returns (c: Conf)
      requires config.Valid()
      ensures c == config.Value()
    {
      c := Conf(config.port, config.mode, config.rootDir[..], config.ipBuffer[..]);
    }

    /** The socket is ready: accept the connection and copy the configuration for its request.  Signals
        may arrive before and after `accept`; false means that nothing more happens. */
    method AcceptRequest() returns (running: bool)
      requires Valid() && Pc() == Ready && listening != []
      modifies this
      ensures Valid() && listening == old(listening) && Outcome() == old(Outcome())
      ensures running ==> Pc() == Selecting && |moments| < old(|moments|)
      ensures !running ==> Over()
    {
      var m := Tick();
      if m.None? { return false; }
      Take(Accept(m.value.ok));
      if !m.value.ok { return true; }
      var inForce := InForce();
      running := CopyConfiguration(inForce);
    }

    /** The copy into the arguments of the request; `inForce` was in force when it was accepted. */
    method CopyConfiguration(inForce: Conf) returns (running: bool)
      requires Valid() && Pc() == Accepted(inForce) && listening != []
      modifies this
      ensures Valid() && listening == old(listening) && Outcome() == old(Outcome())
      ensures running ==> Pc() == Selecting && |moments| < old(|moments|)
      ensures running ==>
        requests == old(requests) + [Request(listening[0], inForce, config.port, config.mode, config.rootDir[..])]
      ensures !running ==> Over()
    {
      var m := Tick();
      if m.None? { return false; }
      requests := requests + [Request(listening[0], inForce, config.port, config.mode, config.rootDir[..])];
      Take(Copy);
      running := true;
    }

    /** linux_socket up to its loop: false when nothing more happens or the process ends. */
    method StartServing() returns (running: bool)
      requires Valid() && Pc() == Starting && listening == []
      modifies this
      ensures Valid() && Outcome() == old(Outcome())
      ensures running ==> Pc() == Selecting && |listening| == 1 && |moments| < old(|moments|)
      ensures !running ==> Over()
    {
      var m := Tick();
      if m.None? { return false; }
      running := m.value.ok;
      if running { listening := listening + [config.port]; }
      Take(StartServer(running));
    }

    /** `select`: whether the socket is ready, or whether a signal interrupted it. */
    method Select() returns (ready: Option<bool>, interrupted: bool)
      requires Valid() && Pc() == Selecting
      modifies this
      ensures Valid() && listening == old(listening) && Outcome() == old(Outcome())
      ensures ready.None? ==> Over()
      ensures ready.Some? ==> |moments| < old(|moments|)
      ensures ready == Some(true) ==> Pc() == Ready
      ensures ready == Some(false) ==> Pc() == if interrupted && resetConfig then Ending else Selecting
    {
      var m := Tick();
      if m.None? { return None, false; }
      Take(if m.value.ok then SelectReady else SelectFails(m.value.interrupted));
      ready, interrupted := Some(m.value.ok), m.value.interrupted;
    }

    /** linux_socket: true when it returns to main, false when nothing more happens or the process ends. */
    method LinuxSocket() returns (returned: bool)
      requires Valid() && Pc() == Starting && listening == []
      modifies this
      ensures Valid() && Outcome() == old(Outcome())
      ensures returned ==> Pc() == Clearing && listening == [] && |moments| < old(|moments|)
      ensures !returned ==> Over()
    {
      var running := StartServing();
      if !running { return false; }
      while true
        invariant Valid() && Pc() == Selecting && |listening| == 1
        invariant Outcome() == old(Outcome()) && |moments| < old(|moments|)
        decreases |moments|
      {
        var ready, interrupted := Select();
        if ready.None? { return false; }
        if ready.value {
          running := AcceptRequest();
          if !running { return false; }
        } else if interrupted && resetConfig {
          returned := EndServing();
          return;
        }
      }
    }

    /** end_server, and the return to main */
    method EndServing() returns (returned: bool)
      requires Valid() && Pc() == Ending && |listening| == 1
      modifies this
      ensures Valid() && Outcome() == old(Outcome()) && |moments| <= old(|moments|)
      ensures returned ==> Pc() == Clearing && listening == []
      ensures !returned ==> Over()
    {
      var m := Tick();
      if m.None? { return false; }
      listening := listening[1..];
      Take(EndServer);
      returned := true;
    }

    /** Reading the file to its end, however it is cut into pieces and changed meanwhile.  The moment of
        the last read, which finds nothing more, is handed on. */
    method ReadFile() returns (m: Option<Moment>, text: string)
      requires Valid() && Pc().Reading? && Pc().text == ""
      modifies this
      ensures Valid() && listening == old(listening)
      ensures m.None? ==> Over() && Outcome() == old(Outcome())
      ensures m.Some? ==> Pc().Reading? && Pc().text == text && |text| >= |file| && |moments| < old(|moments|)
      ensures m.Some? ==> Play(Called(run, m.value), moments) == old(Outcome())
    {
      text := "";
      while true
        invariant Valid() && Pc().Reading? && Pc().text == text && listening == old(listening)
        invariant Outcome() == old(Outcome()) && |moments| <= old(|moments|)
        decreases |moments|
      {
        m := Tick();
        if m.None? || |text| >= |file| { return; }
        text := ReadPiece(m.value, text);
      }
    }

    method ReadPiece(m: Moment, text: string) returns (text': string)
      requires Valid() && Pc().Reading? && Pc().text == text && |text| < |file|
      modifies this`run
      ensures Valid() && Pc().Reading? && Pc().text == text' && run == Called(old(run), m)
    {
      var n := Chunk(m.bytes, |file| - |text|);
      text' := text + file[|text|..|text| + n];
      run := CalledReads(first, run, m, n);
    }

    ghost method TakeLine(next: Progress)
      requires Start(first) && Leads(first, run.steps, run.state) && LineGives(run.state, next)
      modifies this`run
      ensures Leads(first, run.steps, run.state) && run == After(old(run), ApplyLine)
      ensures run.state.reset == old(run.state.reset) && run.state.listening == old(run.state.listening)
      ensures run.state.requests == old(run.state.requests) && run.state.file == old(run.state.file)
      ensures next.Stopped? ==> Pc() == Dead
      ensures next.Running? ==> run.state.conf == next.conf && Pc().Applying? && Pc().progress == next
      ensures next.Running? ==> Pc().lines == old(Pc().lines) && Pc().done == old(Pc().done) + 1
    {
      LineTaken(run.state, next);
      Take(ApplyLine);
    }

    /** One line is applied to the buffers in place; false if that ends the process. */
    method ApplyInPlace(line: string, n: Counts) returns (running: bool, n': Counts, ghost next: Progress)
      requires config.Valid() && NUL !in line
      modifies config, config.rootDir, config.ipBuffer
      ensures next == Apply(Tally(n, old(config.Value())), LineEffect(line)) && (running <==> next.Running?)
      ensures running ==> config.Valid() && next == Tally(n', config.Value())
    {
      next := Apply(Tally(n, config.Value()), LineEffect(line));
      if !HasValue(line) {  // a null pointer
        NoValueStops(line);
        return false, n, next;
      }
      var exit;
      exit, n' := ParseLine(line, config, n);
      running := exit.None?;
    }

    method ApplyNext(line: string, n: Counts) returns (running: bool, n': Counts)
      requires Valid() && Pc().Applying? && Pc().progress == Tally(n, config.Value())
      requires Pc().done < |Pc().lines| && line == Pc().lines[Pc().done] && NUL !in line
      modifies this`run, config, config.rootDir, config.ipBuffer
      ensures Valid() && run == After(old(run), ApplyLine)
      ensures !running ==> Pc() == Dead
      ensures running ==> Pc().Applying? && Pc().progress == Tally(n', config.Value())
      ensures running ==> Pc().lines == old(Pc().lines) && Pc().done == old(Pc().done) + 1
    {
      ghost var next;
      running, n', next := ApplyInPlace(line, n);
      TakeLine(next);
    }

    /** conf_parseConfigFile on the file as it is now: true when it returns to main, with or without
        success. */
    method Reparse() returns (returned: bool)
      requires Valid() && Pc() == Opening && listening == []
      modifies this, config, config.rootDir, config.ipBuffer
      ensures Valid() && Outcome() == old(Outcome())
      ensures returned ==> Pc() == Starting && listening == [] && |moments| < old(|moments|)
      ensures !returned ==> Over()
    {
      var m := Tick();
      if m.None? { return false; }
      Take(Open(m.value.ok));
      if !m.value.ok { return false; }
      returned := ParseFile();
    }

    method ParseFile() returns (returned: bool)
      requires Valid() && Pc().Reading? && Pc().text == "" && listening == []
      modifies this, config, config.rootDir, config.ipBuffer
      ensures Valid() && Outcome() == old(Outcome())
      ensures returned ==> Pc() == Starting && listening == [] && |moments| < old(|moments|)
      ensures !returned ==> Over()
    {
      var m, text := ReadFile();
      if m.None? { return false; }
      CalledEnds(run, m.value);
      var ok, stored, idx := ReadLines(text, m.value.grow);
      if !ok {
        Take(OutOfMemory);
        return true;
      }
      Take(EndOfFile);
      returned := ApplyLines(stored, idx);
    }

    /** One turn of the loop over the lines. */
    method ApplyOne(line: string, n: Counts) returns (running: bool, n': Counts)
      requires Valid() && Pc().Applying? && Pc().progress == Tally(n, config.Value())
      requires Pc().done < |Pc().lines| && line == Pc().lines[Pc().done] && NUL !in line
      modifies this, config, config.rootDir, config.ipBuffer
      ensures Valid() && Outcome() == old(Outcome()) && listening == old(listening) && |moments| <= old(|moments|)
      ensures !running ==> Over()
      ensures running ==> Pc().Applying? && Pc().progress == Tally(n', config.Value())
      ensures running ==> Pc().lines == old(Pc().lines) && Pc().done == old(Pc().done) + 1
    {
      var m := Tick();
      if m.None? { return false, n; }
      CalledApplies(run, m.value);
      running, n' := ApplyNext(line, n);
    }

    /** The loop over the lines, and the check after it. */
    method ApplyLines(stored: array<string>, idx: nat) returns (returned: bool)
      requires Valid() && Pc().Applying? && Pc().done == 0 && listening == []
      requires Pc().progress == Tally(Counts(0, 0, 0, 0, false), config.Value())
      requires idx <= stored.Length && stored[..idx] == Pc().lines
      requires forall line :: line in Pc().lines ==> NUL !in line
      modifies this, config, config.rootDir, config.ipBuffer
      ensures Valid() && Outcome() == old(Outcome())
      ensures returned ==> Pc() == Starting && listening == [] && |moments| <= old(|moments|)
      ensures !returned ==> Over()
    {
      var n := Counts(0, 0, 0, 0, false);
      for it := 0 to idx
        invariant Valid() && Pc().Applying? && listening == [] && |moments| <= old(|moments|)
        invariant Outcome() == old(Outcome())
        invariant Pc().lines == old(Pc().lines) && Pc().done == it && Pc().progress == Tally(n, config.Value())
      {
        assert stored[it] == stored[..idx][it];
        var running;
        running, n := ApplyOne(stored[it], n);
        if !running { return false; }
      }
      returned := CheckCounts(n);
    }

    /** The exactly-once check, and the return to main. */
    method CheckCounts(n: Counts) returns (returned: bool)
      requires Valid() && Pc().Applying? && Pc().done == |Pc().lines| && listening == []
      requires Pc().progress == Tally(n, config.Value())
      modifies this
      ensures Valid() && Outcome() == old(Outcome())
      ensures returned ==> Pc() == Starting && listening == [] && |moments| <= old(|moments|)
      ensures !returned ==> Over()
    {
      var m := Tick();
      if m.None? { return false; }
      CalledApplies(run, m.value);
      returned := n.ips == 1 && n.modes == 1 && n.ports == 1 && n.roots == 1 && !n.wrong;
      Take(ApplyLine);
    }

    /** The statement of main after linux_socket has returned. */
    method ClearReset() returns (running: bool)
      requires Valid() && Pc() == Clearing
      modifies this
      ensures Valid() && Outcome() == old(Outcome()) && listening == old(listening)
      ensures running ==> Pc() == Opening && |moments| < old(|moments|)
      ensures !running ==> Over()
    {
      var m := Tick();
      if m.None? { return false; }
      resetConfig := false;
      Take(Clear);
      running := true;
    }

    /** The loop of main. */
    method Loop()
      requires Valid() && Pc() == Starting && listening == []
      modifies this, config, config.rootDir, config.ipBuffer
      ensures Valid() && Over() && Outcome() == old(Outcome())
    {
      var running := true;
      while running
        invariant Valid() && (if running then Pc() == Starting && listening == [] else Over())
        invariant Outcome() == old(Outcome())
        decreases running, |moments|
      {
        running := LinuxSocket();
        if running { running := ClearReset(); }
        if running { running := Reparse(); }
      }
    }

    /** The server from its start is the run that its schedule plays, to the end of the schedule or of the
        process.  So at most one socket listens, on the configured port while the server accepts; requests
        carry the configuration they were accepted under; and the configuration in the buffers is up to
        date exactly if the steps of that run say so. */
    method Serve()
      requires Valid() && Pc() == Starting && listening == []
      modifies this, config, config.rootDir, config.ipBuffer
      ensures Valid() && run == Play(old(run), old(moments)) && |listening| <= 1
      ensures Serving(run.state) ==> listening == [config.port]
      ensures forall i :: 0 <= i < |requests| ==> Faithful(requests[i])
      ensures Serving(run.state) ==> (
        && run.state.hupAt < run.state.parsedAt
        && (!run.state.edited ==> Says(file, config.Value()))
        <==> Current(run.steps))
    {
      Loop();
      ReloadIsSafeIff(first, run.steps, run.state);
    }
  }

  /** main up to its loop, without command-line options: the first parse, the test of the address in
      conf_read_opt, and the call of `signal`.  A first parse that returns -1 has set no address, so that
      the test ends the process. */
  method Boot(file: string, grow: nat -> bool, moments: seq<Moment>) returns (status: Status, server: Server?)
    requires forall line :: line in FileLines(file) ==> HasValue(line)
    ensures Refused(|FileLines(file)|, grow) ==> status == Exited(-1)
    ensures server != null <==> status == Returned(0)
    ensures server != null <==> !Refused(|FileLines(file)|, grow) && exists conf :: Says(file, conf)
    ensures server != null ==> fresh(server) && server.Valid() && server.Pc() == Starting && server.listening == []
    ensures server != null ==> server.moments == moments && server.run == Run([], server.first)
  {
    var config := new Configs();
    ghost var before := config.Value();
    status := ParseConfigFile(file, config, grow);
    server := null;
    if status.Exited? {
      NothingSaid(file, before);
      return;
    }
    ghost var lines := FileLines(file);
    if status == Returned(0) {
      ParsedSays(file, before);
      ParsedHost(lines, before);
    }
    if config.ipBuffer[0] == NUL { return Exited(-1), null; }
    assert Says(file, config.Value());
    server := new Server(config, file, moments);
  }

  lemma NothingSaid(file: string, before: Conf)
    requires IsConf(before) && !Parse(FileLines(file), before).Ok?
    ensures !exists conf :: Says(file, conf)
  {
  }
}
