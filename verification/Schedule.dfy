/** A schedule for the server: what arrives and how calls turn out, moment by moment.  It determines
    the run of the reload machine. */
module Schedule {
  import CStrings
  import opened Utils
  import opened ConfigFile
  import opened Reload

  datatype Arrival = Sighup | Replaced(file: string)

  /** What happens at one point of the program: signals and changes of the file that arrive just before
      it, and how the call that is made there turns out. */
  datatype Moment = Moment(arrivals: seq<Arrival>, ok: bool, interrupted: bool, bytes: nat, grow: nat -> bool)

  /** The steps taken so far, and where they lead. */
  datatype Run = Run(steps: seq<Step>, state: State)

  function After(r: Run, step: Step): Run {
    if Enabled(r.state, step) then Run(r.steps + [step], Next(r.state, step)) else r
  }

  function StepFor(a: Arrival): Step {
    match a
    case Sighup => Hup
    case Replaced(file) => Edit(file)
  }

  function Arrived(r: Run, arrivals: seq<Arrival>): Run
    decreases |arrivals|
  {
    if arrivals == [] then r else Arrived(After(r, StepFor(arrivals[0])), arrivals[1..])
  }

  /** How much a read takes of `left` bytes. */
  function Chunk(bytes: nat, left: nat): nat {
    if 0 < bytes <= left then bytes else left
  }

  /** The one step that the program takes from where it is, if its call turns out so. */
  ghost function StepOf(s: State, m: Moment): Step {
    match s.pc
    case Starting => StartServer(m.ok)
    case Selecting => if m.ok then SelectReady else SelectFails(m.interrupted)
    case Ready => Accept(m.ok)
    case Accepted(_) => Copy
    case Ending => EndServer
    case Clearing => Clear
    case Opening => Open(m.ok)
    case Reading(text, _) =>
      if |text| < |s.file| then ReadSome(Chunk(m.bytes, |s.file| - |text|))
      else if Refused(|FileLines(text)|, m.grow) then OutOfMemory else EndOfFile
    case Applying(_, _, _, _, _) => ApplyLine
    case Dead => ApplyLine  // not enabled
  }

  ghost function Called(r: Run, m: Moment): Run {
    After(r, StepOf(r.state, m))
  }

  lemma CalledApplies(r: Run, m: Moment)
    requires r.state.pc.Applying?
    ensures Called(r, m) == After(r, ApplyLine)
  {
  }

  /** A read inside the file. */
  lemma CalledReads(first: State, r: Run, m: Moment, n: nat) returns (r': Run)
    requires Leads(first, r.steps, r.state) && r.state.pc.Reading? && |r.state.pc.text| < |r.state.file|
    requires n == Chunk(m.bytes, |r.state.file| - |r.state.pc.text|)
    ensures r' == Called(r, m) && Leads(first, r'.steps, r'.state) && r'.state.pc.Reading?
    ensures r'.state.pc.text == r.state.pc.text + r.state.file[|r.state.pc.text|..|r.state.pc.text| + n]
    ensures r'.state.reset == r.state.reset && r'.state.listening == r.state.listening
    ensures r'.state.requests == r.state.requests && r'.state.file == r.state.file && r'.state.conf == r.state.conf
  {
    r' := Called(r, m);
    Continued(first, r.steps, r.state, StepOf(r.state, m));
  }

  /** The read that finds nothing more, after which the lines are stored. */
  lemma CalledEnds(r: Run, m: Moment)
    requires r.state.pc.Reading? && |r.state.pc.text| >= |r.state.file|
    ensures var lines := |FileLines(r.state.pc.text)|;
      && Called(r, m) == After(r, if Refused(lines, m.grow) then OutOfMemory else EndOfFile)
      && (Refused(lines, m.grow) ==> lines >= FIRST_LINES)
  {
  }

  /** The run under a schedule: each moment brings its arrivals and one step of the program, until the
      process ends. */
  ghost function Play(r: Run, moments: seq<Moment>): Run
    decreases |moments|
  {
    if moments == [] || r.state.pc.Dead? then r
    else Play(Called(Arrived(r, moments[0].arrivals), moments[0]), moments[1..])
  }

  /** As long as the process lives, its next step is possible, whatever comes of it. */
  lemma AlwaysEnabled(s: State, m: Moment)
    requires SocketInv(s) && !s.pc.Dead?
    ensures Enabled(s, StepOf(s, m))
  {
  }

  lemma AfterLeads(s: State, r: Run, step: Step)
    requires Leads(s, r.steps, r.state)
    ensures Leads(s, After(r, step).steps, After(r, step).state)
  {
    if Enabled(r.state, step) { Continued(s, r.steps, r.state, step); }
  }

  lemma {:induction false} ArrivedLeads(s: State, r: Run, arrivals: seq<Arrival>)
    requires Leads(s, r.steps, r.state)
    ensures Leads(s, Arrived(r, arrivals).steps, Arrived(r, arrivals).state)
    decreases |arrivals|
  {
    if arrivals != [] {
      AfterLeads(s, r, StepFor(arrivals[0]));
      ArrivedLeads(s, After(r, StepFor(arrivals[0])), arrivals[1..]);
    }
  }

  /** What a schedule plays is a run of the reload machine. */
  lemma {:induction false} PlayLeads(s: State, r: Run, moments: seq<Moment>)
    requires Leads(s, r.steps, r.state)
    ensures Leads(s, Play(r, moments).steps, Play(r, moments).state)
    decreases |moments|
  {
    if moments != [] && !r.state.pc.Dead? {
      var u := Arrived(r, moments[0].arrivals);
      ArrivedLeads(s, r, moments[0].arrivals);
      AfterLeads(s, u, StepOf(u.state, moments[0]));
      PlayLeads(s, Called(u, moments[0]), moments[1..]);
    }
  }

  lemma {:induction false} ArrivedCounts(r: Run, arrivals: seq<Arrival>)
    requires !r.state.pc.Dead?
    ensures Arrived(r, arrivals).state.pc == r.state.pc
    ensures |Arrived(r, arrivals).steps| == |r.steps| + |arrivals|
    decreases |arrivals|
  {
    if arrivals != [] { ArrivedCounts(After(r, StepFor(arrivals[0])), arrivals[1..]); }
  }

  /** How many steps a schedule has: every arrival, and one step of the program for every moment. */
  function Length(moments: seq<Moment>): nat {
    if moments == [] then 0 else |moments[0].arrivals| + 1 + Length(moments[1..])
  }

  /** Nothing in a schedule is lost: unless the process ends, every arrival and every moment is a step. */
  lemma {:induction false} NothingIsLost(s: State, r: Run, moments: seq<Moment>)
    requires Start(s) && Leads(s, r.steps, r.state)
    ensures Play(r, moments).state.pc.Dead? || |Play(r, moments).steps| == |r.steps| + Length(moments)
    decreases |moments|
  {
    if moments != [] && !r.state.pc.Dead? {
      var u := Arrived(r, moments[0].arrivals);
      ArrivedLeads(s, r, moments[0].arrivals);
      ArrivedCounts(r, moments[0].arrivals);
      StartInv(s);
      RunKeepsInv(s, u.steps, u.state);
      AlwaysEnabled(u.state, moments[0]);
      AfterLeads(s, u, StepOf(u.state, moments[0]));
      NothingIsLost(s, Called(u, moments[0]), moments[1..]);
    }
  }

  /** Reload safety of every schedule. */
  lemma ScheduleIsSafeIff(s: State, moments: seq<Moment>)
    requires Start(s)
    ensures var r := Play(Run([], s), moments);
      OneSocket(r.state) && (Serving(r.state) ==> (UpToDate(r.state) <==> Current(r.steps)))
  {
    PlayLeads(s, Run([], s), moments);
    var r := Play(Run([], s), moments);
    ReloadIsSafeIff(s, r.steps, r.state);
  }

  // ---------- what a schedule does, in its own terms ----------

  /** Where a signal has arrived the flag is set and the last SIGHUP is of now; where none has, neither
      changes. */
  lemma {:induction false} SighupIsNoted(r: Run, arrivals: seq<Arrival>)
    requires !r.state.pc.Dead?
    ensures var t := Arrived(r, arrivals).state;
      if Sighup in arrivals then t.reset && r.state.clock <= t.hupAt
      else t.reset == r.state.reset && t.hupAt == r.state.hupAt
    ensures r.state.clock <= Arrived(r, arrivals).state.clock
    ensures r.state.reset ==> Arrived(r, arrivals).state.reset
    ensures r.state.hupAt >= r.state.clock ==> Arrived(r, arrivals).state.hupAt >= r.state.clock
    decreases |arrivals|
  {
    if arrivals != [] {
      var u := After(r, StepFor(arrivals[0]));
      SighupIsNoted(u, arrivals[1..]);
      assert Sighup in arrivals <==> arrivals[0] == Sighup || Sighup in arrivals[1..];
    }
  }

  predicate LastReplaced(arrivals: seq<Arrival>, i: nat)
    requires i < |arrivals|
  {
    arrivals[i].Replaced? && forall j :: i < j < |arrivals| ==> arrivals[j] == Sighup
  }

  /** The file is the last one put there, or unchanged, and nothing else of the process changes. */
  lemma {:induction false} FileIsLast(r: Run, arrivals: seq<Arrival>)
    requires !r.state.pc.Dead?
    ensures var t := Arrived(r, arrivals).state;
      && (forall i :: 0 <= i < |arrivals| && LastReplaced(arrivals, i) ==> t.file == arrivals[i].file)
      && ((forall j :: 0 <= j < |arrivals| ==> arrivals[j] == Sighup) ==> t.file == r.state.file)
      && t.pc == r.state.pc && t.conf == r.state.conf
      && t.listening == r.state.listening && t.requests == r.state.requests
    decreases |arrivals|
  {
    if arrivals != [] {
      var u, rest := After(r, StepFor(arrivals[0])), arrivals[1..];
      FileIsLast(u, rest);
      assert forall j :: 0 <= j < |rest| ==> rest[j] == arrivals[j + 1];
      assert forall i :: 1 <= i < |arrivals| && LastReplaced(arrivals, i) ==> LastReplaced(rest, i - 1);
    }
  }

  /** The signals and changes of the file among the steps. */
  function FromOutside(steps: seq<Step>): seq<Arrival> {
    if steps == [] then [] else
      var last := steps[|steps| - 1];
      FromOutside(steps[..|steps| - 1]) +
      (if last == Hup then [Sighup] else if last.Edit? then [Replaced(last.file)] else [])
  }

  lemma OutsideSnoc(steps: seq<Step>, step: Step)
    ensures FromOutside(steps + [step]) ==
      FromOutside(steps) + (if step == Hup then [Sighup] else if step.Edit? then [Replaced(step.file)] else [])
  {
    assert (steps + [step])[..|steps|] == steps;
  }

  function AllArrivals(moments: seq<Moment>): seq<Arrival> {
    if moments == [] then [] else moments[0].arrivals + AllArrivals(moments[1..])
  }

  lemma {:induction false} ArrivedOutside(r: Run, arrivals: seq<Arrival>)
    requires !r.state.pc.Dead?
    ensures FromOutside(Arrived(r, arrivals).steps) == FromOutside(r.steps) + arrivals
    ensures !Arrived(r, arrivals).state.pc.Dead?
    decreases |arrivals|
  {
    if arrivals == [] {
      assert FromOutside(r.steps) + [] == FromOutside(r.steps);
    } else {
      var u := After(r, StepFor(arrivals[0]));
      OneArrival(r, arrivals[0]);
      ArrivedOutside(u, arrivals[1..]);
      FirstOf(arrivals);
      CStrings.Associate(FromOutside(r.steps), [arrivals[0]], arrivals[1..]);
    }
  }

  lemma OneArrival(r: Run, a: Arrival)
    requires !r.state.pc.Dead?
    ensures FromOutside(After(r, StepFor(a)).steps) == FromOutside(r.steps) + [a]
    ensures !After(r, StepFor(a)).state.pc.Dead?
  {
    OutsideSnoc(r.steps, StepFor(a));
  }

  lemma FirstOf<T>(s: seq<T>)
    requires s != []
    ensures s == [s[0]] + s[1..]
  {
  }

  lemma CalledOutside(r: Run, m: Moment)
    ensures FromOutside(Called(r, m).steps) == FromOutside(r.steps)
  {
    CallsAreInside(r.state, m);
    InsideStep(r, StepOf(r.state, m));
  }

  lemma CallsAreInside(s: State, m: Moment)
    ensures StepOf(s, m) != Hup && !StepOf(s, m).Edit?
  {
  }

  lemma InsideStep(r: Run, step: Step)
    requires step != Hup && !step.Edit?
    ensures FromOutside(After(r, step).steps) == FromOutside(r.steps)
  {
    OutsideSnoc(r.steps, step);
  }

  /** The signals and changes of the file in the run are, in order, exactly those of the moments that are
      played: of all of them, unless the process ends before. */
  lemma {:induction false} OutsideIsSchedule(r: Run, moments: seq<Moment>) returns (played: nat)
    ensures played <= |moments| && (!Play(r, moments).state.pc.Dead? ==> played == |moments|)
    ensures FromOutside(Play(r, moments).steps) == FromOutside(r.steps) + AllArrivals(moments[..played])
    decreases |moments|
  {
    if moments == [] || r.state.pc.Dead? {
      played := 0;
      assert FromOutside(r.steps) + [] == FromOutside(r.steps);
    } else {
      var m, rest := moments[0], moments[1..];
      var u := Called(Arrived(r, m.arrivals), m);
      ArrivedOutside(r, m.arrivals);
      CalledOutside(Arrived(r, m.arrivals), m);
      var n := OutsideIsSchedule(u, rest);
      played := n + 1;
      assert moments[..played][0] == m && moments[..played][1..] == rest[..n];
      CStrings.Associate(FromOutside(r.steps), m.arrivals, AllArrivals(rest[..n]));
    }
  }

  // ---------- what becomes of a SIGHUP, and of a connection ----------

  /** A moment in which nothing arrives. */
  function Quietly(ok: bool, interrupted: bool, bytes: nat, grow: nat -> bool): Moment {
    Moment([], ok, interrupted, bytes, grow)
  }

  ghost function Play1(r: Run, m: Moment): Run { Called(Arrived(r, m.arrivals), m) }

  /** A SIGHUP at `select` closes the listening socket, clears the flag and begins to read the file anew. */
  lemma SighupReloads(r: Run, any: nat -> bool)
    requires SocketInv(r.state) && r.state.pc == Selecting
    ensures var interrupted := Play1(r, Moment([Sighup], false, true, 0, any));
      var closed := Play1(interrupted, Quietly(true, false, 0, any));
      var cleared := Play1(closed, Quietly(true, false, 0, any));
      var reading := Play1(cleared, Quietly(true, false, 0, any));
      && interrupted.state.reset && interrupted.state.listening == r.state.listening
      && closed.state.listening == [] && closed.state.reset
      && !cleared.state.reset && cleared.state.listening == []
      && reading.state.pc.Reading? && reading.state.pc.text == "" && reading.state.conf == r.state.conf
  {
    assert [Sighup][1..] == [];
  }

  /** Without the flag an interruption, and with it another failure of `select`, change nothing. */
  lemma OtherFailuresStay(r: Run, interrupted: bool, any: nat -> bool)
    requires r.state.pc == Selecting && !(r.state.reset && interrupted)
    ensures var t := Play1(r, Quietly(false, interrupted, 0, any)).state; t == r.state.(clock := r.state.clock + 1)
  {
  }

  /** A ready socket is accepted, and its request is recorded with the configuration and the port of that
      moment; a failing `accept` goes back to `select`. */
  lemma ConnectionIsServed(r: Run, any: nat -> bool)
    requires SocketInv(r.state) && r.state.pc == Selecting
    ensures var ready := Play1(r, Quietly(true, false, 0, any));
      var refused := Play1(ready, Quietly(false, false, 0, any)).state;
      var accepted := Play1(ready, Quietly(true, false, 0, any));
      var done := Play1(accepted, Quietly(true, false, 0, any)).state;
      var c := r.state.conf;
      && refused.pc == Selecting && refused.requests == r.state.requests
      && done.pc == Selecting
      && done.requests == r.state.requests + [Request(r.state.listening[0], c, c.port, c.mode, c.rootDir)]
  {
  }

  /** start_server listens on the configured port, or ends the process, which stays ended. */
  lemma StartListens(r: Run, ok: bool, any: nat -> bool)
    requires SocketInv(r.state) && r.state.pc == Starting
    ensures var t := Play1(r, Quietly(ok, false, 0, any)).state;
      if ok then t.pc == Selecting && t.listening == [r.state.conf.port] else t.pc == Dead && t.listening == []
  {
  }

  /** A read takes the bytes that the moment gives it, and all that is left if it gives none or more. */
  lemma ReadTakes(r: Run, text: string, at: nat, bytes: nat, any: nat -> bool)
    requires r.state.pc == Reading(text, at) && |text| < |r.state.file|
    ensures var left := |r.state.file| - |text|;
      Play1(r, Quietly(true, false, bytes, any)).state.pc ==
      Reading(text + r.state.file[|text|..|text| + if bytes == 0 || bytes > left then left else bytes], at)
  {
  }

  /** A file of fewer than 1024 lines that has been read is applied line by line, whatever memory there is. */
  lemma SmallFileIsApplied(r: Run, text: string, at: nat, bytes: nat, grow: nat -> bool)
    requires SocketInv(r.state) && r.state.pc == Reading(text, at)
    requires |text| >= |r.state.file| && |FileLines(text)| < 1024
    ensures var t := Play1(r, Quietly(true, false, bytes, grow)).state;
      t.pc.Applying? && t.pc.lines == FileLines(text) && t.pc.done == 0 && t.conf == r.state.conf
  {
  }

  /** A configuration file that does not open ends the process. */
  lemma MissingFileEnds(r: Run, any: nat -> bool)
    requires r.state.pc == Opening
    ensures Play1(r, Quietly(false, false, 0, any)).state.pc == Dead
  {
  }
}
