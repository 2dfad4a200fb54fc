/** The life of one request, `handle_request` of linux/lib/socket/linux_socket.c: what it acquires,
    uses and gives back on every path, through a `clean_request` that never returns. */
module RequestLife {
  import opened Utils
  import opened Socket
  import TransferLock

  datatype Resource =
    | Buf | Path | IpClient | Args | Message    // heap blocks
    | Client                                    // the client's socket
    | Listing                                   // an open directory
    | File | Mapping | Mutex | FileLock         // the file being sent, p_mutex and the lock on the file

  /** What a client can be sent. */
  datatype Reply = TooLongLine | ErrorLine | MenuLines | FileBytes

  datatype Act =
    | Acquire(r: Resource) | Use(r: Resource) | Release(r: Resource)
    | Send(reply: Reply)  // over the client's socket
    | WriteLog
    | Finish

  // ---------- what any run must respect ----------

  datatype Account = Account(ever: set<Resource>, held: set<Resource>, exited: bool)

  predicate Allowed(a: Account, act: Act) {
    && !a.exited
    && match act {
      case Acquire(r) => r !in a.ever
      case Use(r) => r in a.held
      case Release(r) => r in a.held
      case Send(reply) => Client in a.held && SourceOf(reply) <= a.held
      case WriteLog => {Path, IpClient, Args} <= a.held
      case Finish => true
    }
  }

  /** What a reply is taken from. */
  function SourceOf(reply: Reply): set<Resource> {
    match reply
    case TooLongLine => {Args}
    case ErrorLine => {Message}
    case MenuLines => {Listing, Path}
    case FileBytes => {Mapping}
  }

  function Booked(a: Account, act: Act): Account {
    match act
    case Acquire(r) => a.(ever := a.ever + {r}, held := a.held + {r})
    case Use(r) => a
    case Release(r) => a.(held := a.held - {r})
    case Send(_) => a
    case WriteLog => a
    case Finish => a.(exited := true)
  }

  function After(a: Account, acts: seq<Act>): Account {
    if acts == [] then a else Booked(After(a, acts[..|acts| - 1]), acts[|acts| - 1])
  }

  predicate Disciplined(a: Account, acts: seq<Act>) {
    acts == [] ||
    (Disciplined(a, acts[..|acts| - 1]) && Allowed(After(a, acts[..|acts| - 1]), acts[|acts| - 1]))
  }

  function Count(acts: seq<Act>, act: Act): nat {
    if acts == [] then 0
    else Count(acts[..|acts| - 1], act) + (if acts[|acts| - 1] == act then 1 else 0)
  }

  /** How often the client's socket, the mapping and the error line were used otherwise than for sending,
      each reply was sent, and the log was written. */
  datatype Tally = Tally(client: nat, mapping: nat, message: nat,
                         tooLong: nat, error: nat, menu: nat, file: nat, logged: nat)

  function Counted(t: Tally, act: Act): Tally {
    match act
    case Use(r) =>
      if r == Client then t.(client := t.client + 1)
      else if r == Mapping then t.(mapping := t.mapping + 1)
      else if r == Message then t.(message := t.message + 1) else t
    case Send(TooLongLine) => t.(tooLong := t.tooLong + 1)
    case Send(ErrorLine) => t.(error := t.error + 1)
    case Send(MenuLines) => t.(menu := t.menu + 1)
    case Send(FileBytes) => t.(file := t.file + 1)
    case WriteLog => t.(logged := t.logged + 1)
    case _ => t
  }

  const NONE: Tally := Tally(0, 0, 0, 0, 0, 0, 0, 0)

  function TallyOf(acts: seq<Act>): Tally {
    if acts == [] then NONE else Counted(TallyOf(acts[..|acts| - 1]), acts[|acts| - 1])
  }

  lemma {:induction false} TallyCounts(acts: seq<Act>)
    ensures TallyOf(acts) == Tally(
      Count(acts, Use(Client)), Count(acts, Use(Mapping)), Count(acts, Use(Message)),
      Count(acts, Send(TooLongLine)), Count(acts, Send(ErrorLine)), Count(acts, Send(MenuLines)),
      Count(acts, Send(FileBytes)), Count(acts, WriteLog))
  {
    if acts != [] { TallyCounts(acts[..|acts| - 1]); }
  }

  lemma {:induction false} DisciplinedPrefix(a: Account, acts: seq<Act>, n: nat)
    requires n <= |acts| && Disciplined(a, acts)
    ensures Disciplined(a, acts[..n])
  {
    if n == |acts| {
      assert acts[..n] == acts;
    } else {
      var init := acts[..|acts| - 1];
      DisciplinedPrefix(a, init, n);
      assert init[..n] == acts[..n];
    }
  }

  /** In a disciplined run nothing is given back twice: once if it is no longer held at the end, and
      otherwise never. */
  lemma {:induction false} ReleasedOnceIff(a: Account, acts: seq<Act>, r: Resource)
    requires a.held == a.ever && Disciplined(a, acts)
    ensures var b := After(a, acts);
      Count(acts, Release(r)) == if r in b.ever && r !in b.held then 1 else 0
    ensures var b := After(a, acts); r in b.held ==> r in b.ever
  {
    if acts != [] { ReleasedOnceIff(a, acts[..|acts| - 1], r); }
  }

  predicate Touches(act: Act, r: Resource) {
    match act
    case Acquire(q) => q == r
    case Use(q) => q == r
    case Release(q) => q == r
    case Send(reply) => r == Client || r in SourceOf(reply)
    case WriteLog => r in {Path, IpClient, Args}
    case Finish => false
  }

  /** In a disciplined run nothing is touched after it was given back, and nothing follows the exit. */
  lemma {:induction false} NothingAfterwards(a: Account, acts: seq<Act>, i: nat, j: nat)
    requires a.held == a.ever && Disciplined(a, acts) && i < j < |acts|
    ensures acts[i] != Finish
    ensures acts[i].Release? ==> !Touches(acts[j], acts[i].r)
  {
    DisciplinedPrefix(a, acts, j + 1);
    var before := acts[..j];
    assert acts[..j + 1][..j] == before;
    DisciplinedPrefix(a, acts, i + 1);
    Gone(a, before, i);
  }

  lemma {:induction false} Gone(a: Account, acts: seq<Act>, i: nat)
    requires a.held == a.ever && Disciplined(a, acts) && i < |acts|
    ensures acts[i].Finish? ==> After(a, acts).exited
    ensures acts[i].Release? ==> acts[i].r in After(a, acts).ever && acts[i].r !in After(a, acts).held
  {
    var init := acts[..|acts| - 1];
    if i < |init| {
      Gone(a, init, i);
    } else if acts[i].Release? {
      ReleasedOnceIff(a, init, acts[i].r);
    }
  }

  // ---------- how things turn out for a request ----------

  datatype Mode = Thread | Process

  datatype Resolving = NoFree | NeedToFree | Resolved

  datatype Kind = Missing | Forbidden | Directory | Regular | Unmanaged

  datatype Responding = NoRoom | BadPrint | Printed

  datatype Opening = NotOpened | Stopped | Completed

  /** The results of the calls a request makes. */
  datatype World = World(
    mode: Mode,
    allocates: bool,                 // calloc of the request buffer
    events: seq<Event>,              // the client's stream
    resolving: Resolving,            // resolve_selector
    kind: Kind,                      // file_type
    code: int,                       // getGopherCode
    responding: Responding,          // protocol_response for the error line
    listing: Opening,                // print_directory
    file: TransferLock.File)         // open, fstat, the size and mmap

  ghost predicate IsWorld(w: World) {
    && IsStream(w.events)
    && (CStrings.Find(Payload(w.events), LF) > 0 || Payload(w.events) == "")
  }

  predicate Asks(w: World) {
    w.allocates && (Reading(w.events, "").Line? || Reading(w.events, "").Ended?)
  }

  predicate Overflows(w: World) { w.allocates && Reading(w.events, "").TooLong? }

  predicate Finds(w: World) { Asks(w) && w.resolving.Resolved? }

  predicate Refuses(w: World) { Finds(w) && (w.kind.Missing? || w.kind.Forbidden?) }

  predicate Lists(w: World) { Finds(w) && w.kind.Directory? && w.code >= 0 }

  predicate Maps(w: World) { Finds(w) && w.kind.Regular? && w.code >= 0 }

  /** The connection is closed for a request that is too long, for a missing or forbidden file, for a
      directory and for a file that was sent. */
  predicate Closes(w: World) {
    Overflows(w) || Refuses(w) || Lists(w) || (Maps(w) && w.file.Served?)
  }

  /** What a finished request has taken ... */
  predicate Takes(w: World, r: Resource) {
    match r
    case Buf => w.allocates
    case Path => (Asks(w) || Overflows(w)) && !w.resolving.NoFree?
    case IpClient => true
    case Args => true
    case Client => true
    case Message => Refuses(w) && !w.responding.NoRoom?
    case Listing => Lists(w) && !w.listing.NotOpened?
    case File => Maps(w) && !w.file.OpenFails?
    case Mapping => Maps(w) && w.file.Served?
    case Mutex => Maps(w) && !w.file.OpenFails? && w.mode.Thread?
    case FileLock => Maps(w) && !w.file.OpenFails? && w.mode.Process?
  }

  /** ... and what it has not given back. */
  predicate Leaves(w: World, r: Resource) {
    match r
    case Client => !Closes(w)
    case Message => Refuses(w) && w.responding.BadPrint?
    case Listing => Lists(w) && w.listing.Stopped?
    case Mutex => Maps(w) && w.mode.Thread? && TransferLock.Leaks(w.file)
    case File => Maps(w) && w.file.Empty?
    case FileLock => Maps(w) && w.file.Empty? && w.mode.Process?
    case _ => false
  }

  function LockOf(w: World): Resource { if w.mode.Thread? then Mutex else FileLock }

  function Opened(file: TransferLock.File, lock: Resource): set<Resource> {
    match file
    case OpenFails => {}
    case Served => {File, lock, Mapping}
    case _ => {File, lock}
  }

  function LeftOpen(file: TransferLock.File, mode: Mode): set<Resource> {
    match file
    case Empty => {File, if mode.Thread? then Mutex else FileLock}
    case StatFails => if mode.Thread? then {Mutex} else {}
    case MapFails => if mode.Thread? then {Mutex} else {}
    case Served => {}
    case OpenFails => {}
  }

  // ---------- the code ----------

  const GIVEN: Account := Account({IpClient, Args, Client}, {IpClient, Args, Client}, false)

  class Request {
    var typeRequest: int
    var account: Account
    ghost var acts: seq<Act>
    ghost var tally: Tally

    constructor ()
      ensures Valid() && typeRequest == 0 && account == GIVEN && acts == [] && tally == NONE
    {
      typeRequest, account, acts, tally := 0, GIVEN, [], NONE;
    }

    ghost predicate Valid()
      reads this
    {
      Disciplined(GIVEN, acts) && account == After(GIVEN, acts) && tally == TallyOf(acts)
    }

    method Do(act: Act)
      requires Valid() && Allowed(account, act)
      modifies this`account, this`acts, this`tally
      ensures Valid() && account == Booked(old(account), act) && tally == Counted(old(tally), act)
    {
      acts := acts + [act];
      assert acts[..|acts| - 1] == old(acts);
      account, tally := Booked(account, act), Counted(tally, act);
    }

    /** `shutdown` and `close` of the client's socket */
    method CloseClient()
      requires Valid() && !account.exited && Client in account.held
      modifies this`account, this`acts, this`tally
      ensures Valid() && account == old(account).(held := old(account).held - {Client})
      ensures tally == old(tally).(client := old(tally).client + 1)
    {
      Do(Use(Client));
      Do(Release(Client));
    }

    /** clean_request: never returns. */
    method CleanRequest(path: bool, buf: bool)
      requires Valid() && !account.exited && {IpClient, Args} <= account.held
      requires (path ==> Path in account.held) && (buf ==> Buf in account.held)
      requires typeRequest != 0 ==> Client in account.held
      modifies this`account, this`acts, this`tally
      ensures Valid() && account.exited && account.ever == old(account.ever)
      ensures account.held == old(account.held) - {IpClient, Args}
        - (if path then {Path} else {}) - (if buf then {Buf} else {})
        - (if typeRequest != 0 then {Client} else {})
      ensures tally == old(tally).(client := old(tally).client + if typeRequest != 0 then 1 else 0)
    {
      if path { Do(Release(Path)); }
      if buf { Do(Release(Buf)); }
      Do(Use(Args));
      if typeRequest != 0 { CloseClient(); }
      FreeArgs();
    }

    method FreeArgs()
      requires Valid() && !account.exited && {IpClient, Args} <= account.held
      modifies this`account, this`acts, this`tally
      ensures Valid() && account.exited && account.ever == old(account.ever) && tally == old(tally)
      ensures account.held == old(account.held) - {IpClient, Args}
    {
      Do(Release(IpClient));
      Do(Use(Args));
      Do(Release(Args));
      Do(Finish);
    }

    /** The loop of socket_read_request. */
    method ReceiveSelector(w: World) returns (ret: int)
      requires Valid() && account == Account(GIVEN.ever + {Buf}, GIVEN.ever + {Buf}, false)
      requires w.allocates && typeRequest == 0 && IsWorld(w)
      modifies this
      ensures Valid() && account.ever == old(account.ever)
      ensures var reading := Reading(w.events, "");
        && (account.exited <==> reading.Dropped?)
        && account.held == (if account.exited then {Client} else account.ever)
        && (!account.exited ==> ret == (if reading.TooLong? then -2 else if reading.Waiting? then 1 else 0))
        && typeRequest == if reading.TooLong? then 1 else 0
      ensures tally == old(tally).(client := old(tally).client + 1)
    {
      Do(Use(Client));
      var status, _, type_ := ReadRequest(w.events);
      typeRequest := type_;
      match status {
        case CleanedUp =>
          CleanRequest(false, true);
          ret := 0;
        case Returned(code) =>
          Do(Use(Buf));
          ret := code;
        case Receiving =>
          ret := 1;
      }
    }

    /** socket_read_request */
    method ReadSelector(w: World) returns (ret: int)
      requires Valid() && account == GIVEN && typeRequest == 0 && IsWorld(w)
      modifies this
      ensures Valid()
      ensures var reading := Reading(w.events, "");
        && account.ever == GIVEN.ever + (if w.allocates then {Buf} else {})
        && (account.exited <==> !w.allocates || reading.Dropped?)
        && account.held == (if account.exited then {Client} else account.ever)
        && (!account.exited ==> ret == (if reading.TooLong? then -2 else if reading.Waiting? then 1 else 0))
        && typeRequest == if Overflows(w) then 1 else 0
      ensures tally == old(tally).(client := old(tally).client + if w.allocates then 1 else 0)
    {
      if !w.allocates {
        CleanRequest(false, false);
        return 0;
      }
      Do(Acquire(Buf));
      ret := ReceiveSelector(w);
    }

    /** socket_resolve_selector */
    method ResolveSelector(w: World)
      requires Valid() && account == Account(GIVEN.ever + {Buf}, GIVEN.ever + {Buf}, false)
      modifies this`account, this`acts, this`tally
      ensures Valid()
      ensures account.ever == old(account.ever) + (if w.resolving.NoFree? then {} else {Path})
      ensures account.exited <==> !w.resolving.Resolved?
      ensures account.held == if account.exited then (if typeRequest != 0 then {} else {Client}) else account.ever
      ensures tally == old(tally).(client := old(tally).client + if account.exited && typeRequest != 0 then 1 else 0)
    {
      Do(Use(Buf));
      if w.resolving.NoFree? {
        CleanRequest(false, true);
        return;
      }
      Do(Acquire(Path));
      if w.resolving.NeedToFree? {
        CleanRequest(true, true);
      }
    }

    /** What a request holds once its path is known. */
    ghost predicate Ready()
      reads this
    {
      Valid() && account == Account(GIVEN.ever + {Buf, Path}, GIVEN.ever + {Buf, Path}, false)
    }

    /** socket_send_too_long_error_to_client */
    method SendTooLongError()
      requires Ready() && typeRequest != 0
      modifies this`account, this`acts, this`tally
      ensures Valid() && account == Account(old(account.ever), {}, true)
      ensures tally == old(tally).(client := old(tally).client + 1, tooLong := old(tally).tooLong + 1)
    {
      Do(Send(TooLongLine));
      CleanRequest(true, true);
    }

    /** socket_send_error_to_client */
    method SendErrorToClient(w: World)
      requires Ready() && typeRequest != 0
      modifies this`account, this`acts, this`tally
      ensures Valid() && account.exited
      ensures account.ever == old(account.ever) + (if w.responding.NoRoom? then {} else {Message})
      ensures account.held == if w.responding.BadPrint? then {Message} else {}
      ensures var sent := if w.responding.Printed? then 1 else 0;
        tally == old(tally).(client := old(tally).client + 1, message := old(tally).message + sent,
                             error := old(tally).error + sent)
    {
      Do(Use(Buf));
      if w.responding.NoRoom? {
        CleanRequest(true, true);
        return;
      }
      Do(Acquire(Message));
      if w.responding.BadPrint? {
        CleanRequest(true, true);
        return;
      }
      Do(Use(Message));
      Do(Send(ErrorLine));
      Do(Release(Message));
      CleanRequest(true, true);
    }

    /** print_directory */
    method PrintDirectory(w: World)
      requires Ready()
      modifies this`account, this`acts, this`tally
      ensures Valid() && !account.exited
      ensures account.ever == old(account.ever) + (if w.listing.NotOpened? then {} else {Listing})
      ensures account.held == old(account.held) + (if w.listing.Stopped? then {Listing} else {})
      ensures tally == old(tally).(menu := old(tally).menu + if w.listing.NotOpened? then 0 else 1)
    {
      Do(Use(Path));
      if w.listing.NotOpened? { return; }
      Do(Acquire(Listing));
      Do(Send(MenuLines));
      if w.listing.Stopped? { return; }
      Do(Release(Listing));
    }

    /** The part of linux_memory_mapping that maps the file, sends it, unlocks and closes. */
    method SendMapping(w: World)
      requires Valid() && !account.exited && Mapping !in account.ever
      requires {Client, File, LockOf(w)} <= account.held
      modifies this`account, this`acts, this`tally
      ensures Valid() && !account.exited && account.ever == old(account.ever) + {Mapping}
      ensures account.held == old(account.held) - {Mapping, LockOf(w), File, Client}
      ensures tally == old(tally).(client := old(tally).client + 1, mapping := old(tally).mapping + 1,
                                   file := old(tally).file + 1)
    {
      SendBytes();
      Do(Release(LockOf(w)));
      Do(Release(File));
      CloseClient();
    }

    method SendBytes()
      requires Valid() && !account.exited && Mapping !in account.ever && Client in account.held
      modifies this`account, this`acts, this`tally
      ensures Valid() && !account.exited && account.ever == old(account.ever) + {Mapping}
      ensures account.held == old(account.held) - {Mapping}
      ensures tally == old(tally).(mapping := old(tally).mapping + 1, file := old(tally).file + 1)
    {
      Do(Acquire(Mapping));
      Do(Use(Mapping));
      Do(Send(FileBytes));
      Do(Release(Mapping));
    }

    /** `open` and the lock of the mode */
    method LockFile(w: World)
      requires Valid() && !account.exited && {File, LockOf(w)} !! account.ever
      modifies this`account, this`acts, this`tally
      ensures Valid() && !account.exited
      ensures account.ever == old(account.ever) + {File, LockOf(w)}
      ensures account.held == old(account.held) + {File, LockOf(w)}
      ensures tally == old(tally)
    {
      Do(Acquire(File));
      Do(Acquire(LockOf(w)));
      Do(Use(File));
    }

    /** The error returns of linux_memory_mapping: they undo the lock of Process mode only. */
    method GiveUp(w: World)
      requires Valid() && !account.exited && {File, LockOf(w)} <= account.held
      modifies this`account, this`acts, this`tally
      ensures Valid() && !account.exited && account.ever == old(account.ever)
      ensures account.held == old(account.held) - {File} - (if w.mode.Process? then {FileLock} else {})
      ensures tally == old(tally)
    {
      if w.mode.Process? { Do(Release(FileLock)); }
      Do(Release(File));
    }

    /** linux_memory_mapping: positive if a file was sent, 0 for an empty file, -1 for a failure. */
    method LinuxMemoryMapping(w: World) returns (size: int)
      requires Ready()
      modifies this`account, this`acts, this`tally
      ensures Valid() && !account.exited
      ensures size == (match w.file case Served => 1 case Empty => 0 case _ => -1)
      ensures account.ever == old(account.ever) + Opened(w.file, LockOf(w))
      ensures account.held == (if w.file.Served? then old(account.held) - {Client} else old(account.held)) +
        LeftOpen(w.file, w.mode)
      ensures var sent := if w.file.Served? then 1 else 0;
        tally == old(tally).(client := old(tally).client + sent, mapping := old(tally).mapping + sent,
                             file := old(tally).file + sent)
    {
      Do(Use(Path));
      if w.file.OpenFails? { return -1; }
      LockFile(w);
      match w.file {
        case StatFails => GiveUp(w); size := -1;
        case Empty => size := 0;
        case MapFails => GiveUp(w); size := -1;
        case Served => SendMapping(w); size := 1;
        case OpenFails => size := -1;
      }
    }

    /** socket_pipe_log_server_single_process, as far as the request's own resources go */
    method LogServer()
      requires Valid() && !account.exited && {Path, IpClient, Args} <= account.held
      modifies this`account, this`acts, this`tally
      ensures Valid() && account == old(account)
      ensures tally == old(tally).(logged := old(tally).logged + 1)
    {
      Do(WriteLog);
    }

    /** The regular file branch of socket_manage_files. */
    method SendFile(w: World)
      requires Ready()
      modifies this`account, this`acts, this`tally
      ensures Valid() && !account.exited
      ensures account.ever == old(account.ever) + Opened(w.file, LockOf(w))
      ensures account.held == (if w.file.Served? then old(account.held) - {Client} else old(account.held)) +
        LeftOpen(w.file, w.mode)
      ensures var sent := if w.file.Served? then 1 else 0;
        tally == old(tally).(client := old(tally).client + sent, mapping := old(tally).mapping + sent,
                             file := old(tally).file + sent,
                             logged := old(tally).logged + if w.file.Served? || w.file.Empty? then 1 else 0)
    {
      var mapSize := LinuxMemoryMapping(w);
      if mapSize < 0 { return; }
      LogServer();
    }

    /** socket_manage_files */
    method ManageFiles(w: World)
      requires Ready() && typeRequest == 0
      modifies this
      ensures Valid()
      ensures account.exited <==> w.kind.Missing? || w.kind.Forbidden? || w.code < 0
      ensures typeRequest ==
        if w.kind.Missing? || w.kind.Forbidden? || (w.kind.Directory? && w.code >= 0) then 1 else 0
      ensures account.ever == old(account.ever) + Touched(w)
      ensures account.exited ==> account.held == LeftByExit(w)
      ensures !account.exited ==> account.held == LeftByFile(w) + (old(account.held) - Sent(w))
      ensures tally == Managed(w, old(tally))
    {
      Do(Use(Path));
      if w.kind.Missing? || w.kind.Forbidden? {
        typeRequest := 1;
        SendErrorToClient(w);
        return;
      }
      Do(Use(Path));
      if w.code < 0 {
        CleanRequest(true, true);
        return;
      }
      if w.kind.Directory? {
        typeRequest := 1;
        PrintDirectory(w);
      } else if w.kind.Regular? {
        typeRequest := 0;
        SendFile(w);
      }
    }

    /** The rest of handle_request once the selector has been read and resolved. */
    method Serve(w: World)
      requires Ready() && typeRequest == 0
      modifies this
      ensures Valid() && account.exited
      ensures account.ever == old(account.ever) + Touched(w)
      ensures account.held == LeftByServing(w)
      ensures var t := Managed(w, old(tally));
        tally == t.(client := t.client + LastShutdown(w))
    {
      ManageFiles(w);
      if account.exited { return; }
      CleanRequest(true, true);
    }

    /** handle_request, up to the point the client's stream has come to: it is still receiving, or it
        has ended, has taken and left exactly what Takes and Leaves say, and has given the rest back
        exactly once. */
    method HandleRequest(w: World) returns (receiving: bool)
      requires Valid() && account == GIVEN && typeRequest == 0 && tally == NONE && IsWorld(w)
      modifies this
      ensures Valid()
      ensures receiving <==> w.allocates && Reading(w.events, "").Waiting?
      ensures receiving ==> account == Account(GIVEN.ever + {Buf}, GIVEN.ever + {Buf}, false)
      ensures !receiving ==> Settled(w, account) && Balanced(w, acts) && Replied(w, acts)
    {
      receiving := Conduct(w);
      if !receiving {
        BooksBalance(w, acts);
        TallyCounts(acts);
      }
    }

    method Conduct(w: World) returns (receiving: bool)
      requires Valid() && account == GIVEN && typeRequest == 0 && tally == NONE && IsWorld(w)
      modifies this
      ensures Valid()
      ensures receiving <==> w.allocates && Reading(w.events, "").Waiting?
      ensures receiving ==> account == Account(GIVEN.ever + {Buf}, GIVEN.ever + {Buf}, false)
      ensures !receiving ==> Settled(w, account) && tally == Expected(w)
    {
      receiving := false;
      var ret := ReadSelector(w);
      if account.exited {
        NothingRead(w, account);
        return;
      }
      if ret == 1 { return true; }
      ResolveSelector(w);
      if account.exited {
        NothingResolved(w, account);
        return;
      }
      if ret == -2 {
        SendTooLongError();
        TooLongSettles(w, account);
        return;
      }
      Serve(w);
      ServingSettles(w, account);
    }
  }

  /** How socket_manage_files adds to the tally ... */
  function Managed(w: World, t: Tally): Tally {
    if w.kind.Missing? || w.kind.Forbidden? then
      var sent := if w.responding.Printed? then 1 else 0;
      t.(client := t.client + 1, message := t.message + sent, error := t.error + sent)
    else if w.code < 0 then t
    else if w.kind.Directory? then t.(menu := t.menu + if w.listing.NotOpened? then 0 else 1)
    else if w.kind.Regular? then
      var sent := if w.file.Served? then 1 else 0;
      t.(client := t.client + sent, mapping := t.mapping + sent, file := t.file + sent,
         logged := t.logged + if w.file.Served? || w.file.Empty? then 1 else 0)
    else t
  }

  /** ... and the clean_request after it. */
  function LastShutdown(w: World): nat { if w.kind.Directory? && w.code >= 0 then 1 else 0 }

  /** The tally of a whole request: it receives once, shuts the connection down where it closes it, and
      sends at most one reply. */
  function Expected(w: World): Tally {
    Tally(
      (if w.allocates then 1 else 0) + (if Closes(w) then 1 else 0),
      if Maps(w) && w.file.Served? then 1 else 0,
      if Refuses(w) && w.responding.Printed? then 1 else 0,
      if Overflows(w) && w.resolving.Resolved? then 1 else 0,
      if Refuses(w) && w.responding.Printed? then 1 else 0,
      if Lists(w) && !w.listing.NotOpened? then 1 else 0,
      if Maps(w) && w.file.Served? then 1 else 0,
      if Maps(w) && (w.file.Served? || w.file.Empty?) then 1 else 0)
  }

  /** Each request is answered as it should be, once: a too-long one with its line, a missing or forbidden
      file with the error line if that could be printed, a directory that opens with its menu, a file that
      maps with its bytes; everything else gets no reply.  Files that were sent or empty are logged. */
  ghost predicate Replied(w: World, acts: seq<Act>) {
    && Count(acts, Use(Client)) == (if w.allocates then 1 else 0) + (if Closes(w) then 1 else 0)
    && Count(acts, Use(Mapping)) == (if Maps(w) && w.file.Served? then 1 else 0)
    && Count(acts, Use(Message)) == (if Refuses(w) && w.responding.Printed? then 1 else 0)
    && Count(acts, Send(TooLongLine)) == (if Overflows(w) && w.resolving.Resolved? then 1 else 0)
    && Count(acts, Send(ErrorLine)) == (if Refuses(w) && w.responding.Printed? then 1 else 0)
    && Count(acts, Send(MenuLines)) == (if Lists(w) && !w.listing.NotOpened? then 1 else 0)
    && Count(acts, Send(FileBytes)) == (if Maps(w) && w.file.Served? then 1 else 0)
    && Count(acts, WriteLog) == (if Maps(w) && (w.file.Served? || w.file.Empty?) then 1 else 0)
  }

  /** The cases of a request, in terms of what happened to it. */
  lemma CasesAre(w: World)
    ensures var read := w.allocates && (Reading(w.events, "").Line? || Reading(w.events, "").Ended?);
      && (Overflows(w) <==> w.allocates && Reading(w.events, "").TooLong?)
      && (Refuses(w) <==> read && w.resolving == Resolved && w.kind in {Missing, Forbidden})
      && (Lists(w) <==> read && w.resolving == Resolved && w.kind == Directory && w.code >= 0)
      && (Maps(w) <==> read && w.resolving == Resolved && w.kind == Regular && w.code >= 0)
      && (Closes(w) <==> Overflows(w) || Refuses(w) || Lists(w) || (Maps(w) && w.file == TransferLock.Served))
  {
  }

  /** What a request can leave behind. */
  lemma LeavesAre(w: World)
    ensures Leaves(w, Client) <==> !Closes(w)
    ensures Leaves(w, Message) <==> Refuses(w) && w.responding == BadPrint
    ensures Leaves(w, Listing) <==> Lists(w) && w.listing == Stopped
    ensures Leaves(w, File) <==> Maps(w) && w.file == TransferLock.Empty
    ensures Leaves(w, FileLock) <==> Maps(w) && w.file == TransferLock.Empty && w.mode == Process
    ensures Leaves(w, Mutex) <==> (
      Maps(w) && w.mode == Thread && w.file in {TransferLock.Empty, TransferLock.StatFails, TransferLock.MapFails})
    ensures !Leaves(w, Buf) && !Leaves(w, Path) && !Leaves(w, IpClient) && !Leaves(w, Args) && !Leaves(w, Mapping)
  {
  }

  /** The request is over and has taken and left what it should. */
  ghost predicate Settled(w: World, a: Account) {
    && a.exited
    && (forall r :: r in a.ever <==> Takes(w, r))
    && (forall r :: r in a.held <==> Leaves(w, r))
  }

  /** What the request took and did not leave it gave back exactly once, and it gave back nothing else. */
  ghost predicate Balanced(w: World, acts: seq<Act>) {
    forall r :: Count(acts, Release(r)) == if Takes(w, r) && !Leaves(w, r) then 1 else 0
  }

  lemma BooksBalance(w: World, acts: seq<Act>)
    requires Disciplined(GIVEN, acts) && Settled(w, After(GIVEN, acts))
    ensures Balanced(w, acts)
  {
    forall r ensures Count(acts, Release(r)) == if Takes(w, r) && !Leaves(w, r) then 1 else 0 {
      ReleasedOnceIff(GIVEN, acts, r);
    }
  }

  /** The four blocks of a request are freed exactly once each if they were ever allocated, and the
      client's socket is closed at most once: exactly once in the cases of Closes. */
  lemma FreedOnceClosedIff(w: World, acts: seq<Act>)
    requires Disciplined(GIVEN, acts) && Settled(w, After(GIVEN, acts))
    ensures Count(acts, Release(Buf)) == if w.allocates then 1 else 0
    ensures Count(acts, Release(Path)) == if (Asks(w) || Overflows(w)) && !w.resolving.NoFree? then 1 else 0
    ensures Count(acts, Release(IpClient)) == 1 && Count(acts, Release(Args)) == 1
    ensures Count(acts, Release(Client)) == if Closes(w) then 1 else 0
  {
    BooksBalance(w, acts);
  }

  /** A request leaves nothing behind exactly when it closes its connection, could print its error
      line and listed its directory to the end. */
  lemma LeavesNothingIff(w: World)
    ensures (forall r :: !Leaves(w, r)) <==>
      Closes(w) && !(Refuses(w) && w.responding.BadPrint?) && !(Lists(w) && w.listing.Stopped?)
  {
    if forall r :: !Leaves(w, r) {
      assert !Leaves(w, Client) && !Leaves(w, Message) && !Leaves(w, Listing);
    }
  }

  function LeftByServing(w: World): set<Resource> {
    if w.kind.Missing? || w.kind.Forbidden? || w.code < 0 then LeftByExit(w)
    else LeftByFile(w) + (if w.kind.Directory? || (w.kind.Regular? && w.file.Served?) then {} else {Client})
  }

  lemma NothingRead(w: World, a: Account)
    requires a == Account(GIVEN.ever + (if w.allocates then {Buf} else {}), {Client}, true)
    requires !w.allocates || Reading(w.events, "").Dropped?
    ensures Settled(w, a)
  {
  }

  lemma NothingResolved(w: World, a: Account)
    requires Asks(w) || Overflows(w)
    requires !w.resolving.Resolved?
    requires a.exited && a.ever == GIVEN.ever + {Buf} + (if w.resolving.NoFree? then {} else {Path})
    requires a.held == if Overflows(w) then {} else {Client}
    ensures Settled(w, a)
  {
  }

  lemma TooLongSettles(w: World, a: Account)
    requires Overflows(w) && w.resolving.Resolved?
    requires a == Account(GIVEN.ever + {Buf, Path}, {}, true)
    ensures Settled(w, a)
  {
  }

  lemma ServingTakes(w: World, r: Resource)
    requires Finds(w)
    ensures r in GIVEN.ever + {Buf, Path} + Touched(w) <==> Takes(w, r)
  {
  }

  lemma ServingLeaves(w: World, r: Resource)
    requires Finds(w)
    ensures r in LeftByServing(w) <==> Leaves(w, r)
  {
  }

  lemma ServingSettles(w: World, a: Account)
    requires Finds(w)
    requires a == Account(GIVEN.ever + {Buf, Path} + Touched(w), LeftByServing(w), true)
    ensures Settled(w, a)
  {
    forall r
      ensures r in a.ever <==> Takes(w, r)
      ensures r in a.held <==> Leaves(w, r)
    {
      ServingTakes(w, r);
      ServingLeaves(w, r);
    }
  }

  function Touched(w: World): set<Resource> {
    if w.kind.Missing? || w.kind.Forbidden? then (if w.responding.NoRoom? then {} else {Message})
    else if w.code < 0 then {}
    else if w.kind.Directory? then (if w.listing.NotOpened? then {} else {Listing})
    else if w.kind.Regular? then Opened(w.file, LockOf(w))
    else {}
  }

  function Sent(w: World): set<Resource> { if w.kind.Regular? && w.file.Served? then {Client} else {} }

  function LeftByExit(w: World): set<Resource> {
    if w.kind.Missing? || w.kind.Forbidden? then (if w.responding.BadPrint? then {Message} else {})
    else {Client}
  }

  function LeftByFile(w: World): set<Resource> {
    if w.kind.Directory? then (if w.listing.Stopped? then {Listing} else {})
    else if w.kind.Regular? then LeftOpen(w.file, w.mode)
    else {}
  }
}
