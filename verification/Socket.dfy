/** Reading a request from a TCP stream: `socket_read_request` of general/lib/socket/socket.c. */
module Socket {
  import opened CStrings
  import opened Utils

  /** What the stream does next: bytes arrive, a signal interrupts the receive, the peer closes,
      or the receive fails.  A receive takes what has arrived, as far as there is room. */
  datatype Event = Data(bytes: string) | Interrupted | Closed | Failed

  ghost predicate IsStream(events: seq<Event>) {
    forall i :: 0 <= i < |events| && events[i].Data? ==> events[i].bytes != ""
  }

  /** How a call of the reader ends, with the bytes it has received. */
  datatype Outcome =
    | Line(data: string)     // returns 0 on a line feed
    | Ended(data: string)    // returns 0 at the end of the stream
    | TooLong                // returns -2
    | Dropped                // ends the request in clean_request
    | Waiting(data: string)  // is still receiving

  function Taken(bytes: string, room: nat): string {
    if |bytes| <= room then bytes else bytes[..room]
  }

  /** What one event makes of the reader that has received `acc`. */
  function OneTurn(event: Event, acc: string): (o: Outcome)
    requires |acc| < BUFFER_SIZE
    ensures o.Waiting? ==> |o.data| < BUFFER_SIZE
  {
    match event
    case Interrupted => Waiting(acc)
    case Failed => Dropped
    case Closed => if acc == "" then Dropped else Ended(acc)
    case Data(bytes) =>
      var acc' := acc + Taken(bytes, BUFFER_SIZE - |acc|);
      if |acc'| >= BUFFER_SIZE then TooLong
      else if LF in acc' then Line(acc')
      else Waiting(acc')
  }

  /** The outcome when `acc` has been received already. */
  function Reading(events: seq<Event>, acc: string): Outcome
    requires |acc| < BUFFER_SIZE
  {
    if events == [] then Waiting(acc) else
      var o := OneTurn(events[0], acc);
      if o.Waiting? then Reading(events[1..], o.data) else o
  }

  /** What the reader leaves in the request buffer, as a C string. */
  function Selector(data: string): string {
    var k := Find(data, LF);
    if k == |data| || k == 0 then CStr(data) else CStr(data[..k - 1])
  }

  // ---------- the code ----------

  datatype Status = Returned(code: int) | CleanedUp | Receiving

  /** `recv(fd, buf + ptr, room, 0)` when `bytes` have arrived */
  method Receive(buf: array<char>, ptr: nat, room: nat, bytes: string) returns (got: nat)
    requires ptr + room <= buf.Length
    modifies buf
    ensures got == |Taken(bytes, room)|
    ensures buf[..] == old(buf[..ptr]) + Taken(bytes, room) + old(buf[ptr + got..])
  {
    got := if |bytes| <= room then |bytes| else room;
    ghost var was := buf[..];
    for i := 0 to got
      invariant forall k :: 0 <= k < i ==> buf[ptr + k] == bytes[k]
      invariant forall k :: 0 <= k < buf.Length && (k < ptr || ptr + i <= k) ==> buf[k] == was[k]
    {
      buf[ptr + i] := bytes[i];
    }
    assert buf[..ptr] == was[..ptr] && buf[ptr + got..] == was[ptr + got..];
    assert buf[ptr..ptr + got] == bytes[..got];
    assert buf[..] == buf[..ptr] + buf[ptr..ptr + got] + buf[ptr + got..];
  }

  /** The buffer holds `acc` and is zero from there on, with room for more. */
  ghost predicate Holds(buf: array<char>, acc: string)
    reads buf
  {
    && buf.Length == BUFFER_SIZE + 1 && |acc| < BUFFER_SIZE
    && buf[..|acc|] == acc && LF !in acc
    && forall k :: |acc| <= k < buf.Length ==> buf[k] == NUL
  }

  /** What one successful receive does: the new length and, if the loop ends, the result. */
  method Accept(buf: array<char>, ptr: nat, bytes: string, ghost acc: string) returns (ptr': nat, ret: Option<int>)
    requires Holds(buf, acc) && ptr == |acc| && bytes != ""
    requires Find(acc + Taken(bytes, BUFFER_SIZE - ptr), LF) > 0
    modifies buf
    ensures var acc' := acc + Taken(bytes, BUFFER_SIZE - ptr);
      && ptr' == |acc'|
      && (|acc'| >= BUFFER_SIZE ==> ret == Some(-2))
      && (|acc'| < BUFFER_SIZE && LF in acc' ==> ret == Some(0) && CStr(buf[..]) == Selector(acc'))
      && (|acc'| < BUFFER_SIZE && LF !in acc' ==> ret == None && Holds(buf, acc'))
  {
    var got := Receive(buf, ptr, BUFFER_SIZE - ptr, bytes);
    ptr' := ptr + got;
    ghost var acc' := acc + Taken(bytes, BUFFER_SIZE - ptr);
    assert buf[..ptr'] == acc';
    if ptr' >= BUFFER_SIZE {
      return ptr', Some(-2);
    }
    ghost var was := buf[..];
    var found := GetLine(buf, ptr');
    if found {
      CutLine(was, acc', Find(acc', LF));
      return ptr', Some(0);
    }
    ret := None;
  }

  /** A NUL over the character before the first line feed leaves the selector as a C string. */
  lemma CutLine(was: string, acc: string, k: nat)
    requires acc <= was && k == Find(acc, LF) && 0 < k < |acc|
    ensures CStr(was[k - 1 := NUL]) == Selector(acc)
  {
    var b := was[k - 1 := NUL];
    CStrOfPrefix(b, k - 1);
    assert b[..k - 1] == acc[..k - 1];
  }

  /** How the reader reports an outcome: its result, and the request buffer. */
  ghost predicate Delivers(o: Outcome, status: Status, b: string) {
    match o
    case Line(data) => status == Returned(0) && CStr(b) == Selector(data)
    case Ended(data) => status == Returned(0) && CStr(b) == CStr(data)
    case TooLong => status == Returned(-2)
    case Dropped => status == CleanedUp
    case Waiting(data) => status == Receiving && data <= b && |data| < BUFFER_SIZE
  }

  /** One turn of the loop, with `acc` received so far. */
  method Turn(buf: array<char>, ptr: nat, event: Event, ghost acc: string) returns (ptr': nat, status: Option<Status>)
    requires Holds(buf, acc) && ptr == |acc|
    requires event.Data? ==> event.bytes != "" && Find(acc + Taken(event.bytes, BUFFER_SIZE - ptr), LF) > 0
    modifies buf
    ensures var o := OneTurn(event, acc);
      if o.Waiting? then status == None && ptr' == |o.data| && Holds(buf, o.data)
      else status.Some? && Delivers(o, status.value, buf[..])
  {
    ptr', status := ptr, None;
    match event {
      case Interrupted =>
      case Failed =>
        status := Some(CleanedUp);
      case Closed =>
        if ptr == 0 { return ptr, Some(CleanedUp); }
        buf[ptr] := NUL;
        CStrOfPrefix(buf[..], ptr);
        assert buf[..][..ptr] == acc;
        status := Some(Returned(0));
      case Data(bytes) =>
        var ret;
        ptr', ret := Accept(buf, ptr, bytes, acc);
        if ret.Some? { status := Some(Returned(ret.value)); }
    }
  }

  /** Nothing that has arrived or will arrive begins with a line feed. */
  ghost predicate Fine(acc: string, events: seq<Event>) {
    Find(acc + Payload(events), LF) > 0 || acc + Payload(events) == ""
  }

  lemma TurnKeepsFine(events: seq<Event>, acc: string)
    requires IsStream(events) && events != [] && |acc| < BUFFER_SIZE && Fine(acc, events)
    ensures events[0].Data? ==>
      events[0].bytes != "" && Find(acc + Taken(events[0].bytes, BUFFER_SIZE - |acc|), LF) > 0
    ensures var o := OneTurn(events[0], acc); o.Waiting? ==> Fine(o.data, events[1..])
  {
    if events[0].Data? {
      PayloadStep(events, acc);
      FindInPrefix(acc + Taken(events[0].bytes, BUFFER_SIZE - |acc|), acc + Payload(events), LF);
    }
  }

  /** socket_read_request; the events that the loop did not look at are left for later. */
  method ReadRequest(events: seq<Event>) returns (status: Status, buf: array<char>, typeRequest: int)
    requires IsStream(events)
    requires Find(Payload(events), LF) > 0 || Payload(events) == ""
    ensures fresh(buf) && buf.Length == BUFFER_SIZE + 1
    ensures Delivers(Reading(events, ""), status, buf[..])
    ensures typeRequest == if status == Returned(-2) then 1 else 0
  {
    buf := new char[BUFFER_SIZE + 1](_ => NUL);
    var ptr: nat, i: nat := 0, 0;
    ghost var acc := "";
    assert "" + Payload(events) == Payload(events) && events[0..] == events;
    while i < |events|
      invariant 0 <= i <= |events| && ptr == |acc|
      invariant fresh(buf) && Holds(buf, acc)
      invariant Reading(events, "") == Reading(events[i..], acc)
      invariant Fine(acc, events[i..])
      decreases |events| - i
    {
      ghost var later := events[i..];
      assert later[1..] == events[i + 1..];
      TurnKeepsFine(later, acc);
      var ended;
      ptr, ended := Turn(buf, ptr, events[i], acc);
      if ended.Some? {
        return ended.value, buf, if ended.value == Returned(-2) then 1 else 0;
      }
      acc := OneTurn(events[i], acc).data;
      i := i + 1;
    }
    status, typeRequest := Receiving, 0;
  }

  lemma PayloadStep(events: seq<Event>, acc: string)
    requires events != [] && events[0].Data? && |acc| < BUFFER_SIZE
    ensures acc + Taken(events[0].bytes, BUFFER_SIZE - |acc|) <= acc + Payload(events)
    ensures |acc + events[0].bytes| <= BUFFER_SIZE ==>
      acc + Payload(events) == acc + Taken(events[0].bytes, BUFFER_SIZE - |acc|) + Payload(events[1..])
  {
    assert acc + (events[0].bytes + Payload(events[1..])) == acc + events[0].bytes + Payload(events[1..]);
  }

  /** The bytes that arrive before the stream ends. */
  function Payload(events: seq<Event>): string {
    if events == [] then "" else
    match events[0]
    case Interrupted => Payload(events[1..])
    case Data(bytes) => bytes + Payload(events[1..])
    case Closed => ""
    case Failed => ""
  }

  lemma CStrOfPrefix(b: string, n: nat)
    requires n < |b| && b[n] == NUL
    ensures CStr(b) == CStr(b[..n])
  {
    var r := CStr(b[..n]);
    if |r| < n { assert b[..n][|r|] == b[|r|]; }
    CStrIs(b, r);
  }

  /** The first `c` of a prefix that has one is the first of the whole. */
  lemma FindInPrefix(a: string, s: string, c: char)
    requires a <= s
    ensures c in a ==> Find(s, c) == Find(a, c) < |a|
    ensures c !in a ==> Find(a, c) == |a| <= Find(s, c)
  {
    var k := Find(s, c);
    if c in a {
      var j :| 0 <= j < |a| && a[j] == c;
      assert s[j] == c;
      assert a[..k] == s[..k];
      FindIs(a, c, k);
    } else {
      assert a[..|a|] == a;
      FindIs(a, c, |a|);
      assert forall j :: 0 <= j < |a| ==> s[j] == a[j];
    }
  }

  // ---------- every way the stream may be cut ----------

  datatype Ending = EndsClosed | EndsFailed | EndsOpen

  function EndOf(events: seq<Event>): Ending {
    if events == [] then EndsOpen else
    match events[0]
    case Interrupted => EndOf(events[1..])
    case Data(bytes) => EndOf(events[1..])
    case Closed => EndsClosed
    case Failed => EndsFailed
  }

  /** How often the loop receives bytes. */
  function Receives(events: seq<Event>, acc: string): nat
    requires |acc| < BUFFER_SIZE
  {
    if events == [] || events[0].Closed? || events[0].Failed? then 0
    else if events[0].Interrupted? then Receives(events[1..], acc)
    else
      var acc' := acc + Taken(events[0].bytes, BUFFER_SIZE - |acc|);
      if |acc'| >= BUFFER_SIZE || LF in acc' then 1 else 1 + Receives(events[1..], acc')
  }

  lemma {:induction false} ReceivesAreBounded(events: seq<Event>, acc: string)
    requires IsStream(events) && |acc| < BUFFER_SIZE
    ensures Receives(events, acc) <= 2048 - |acc|
  {
    if events != [] {
      assert forall i :: 0 <= i < |events| - 1 ==> events[1..][i] == events[i + 1];
      if events[0].Interrupted? {
        ReceivesAreBounded(events[1..], acc);
      } else if events[0].Data? {
        var acc' := acc + Taken(events[0].bytes, BUFFER_SIZE - |acc|);
        if |acc'| < BUFFER_SIZE {
          ReceivesAreBounded(events[1..], acc');
        }
      }
    }
  }

  /** A stream shorter than the buffer ends at its first line feed, wherever it is cut. */
  lemma {:induction false} ShortStream(events: seq<Event>, acc: string)
    requires |acc + Payload(events)| < BUFFER_SIZE && LF !in acc
    ensures var s := acc + Payload(events);
      match Reading(events, acc)
      case Line(data) => LF in data && data <= s
      case Ended(data) => LF !in s && s != "" && data == s && EndOf(events) == EndsClosed
      case TooLong => false
      case Dropped => LF !in s && (EndOf(events) == EndsFailed || (EndOf(events) == EndsClosed && s == ""))
      case Waiting(data) => LF !in s && data == s && EndOf(events) == EndsOpen
  {
    if events != [] {
      match events[0] {
        case Interrupted => ShortStream(events[1..], acc);
        case Data(bytes) =>
          var acc' := acc + bytes;
          assert acc + Payload(events) == acc' + Payload(events[1..]);
          if LF !in acc' {
            ShortStream(events[1..], acc');
          }
        case Closed => assert acc + "" == acc;
        case Failed => assert acc + "" == acc;
      }
    }
  }

  /** What the client gets its answer for. */
  datatype Request = Request(selector: string) | Rejected | NoRequest

  function Answer(events: seq<Event>): Request {
    match Reading(events, "")
    case Line(data) => Request(Selector(data))
    case Ended(data) => Request(CStr(data))
    case TooLong => Rejected
    case Dropped => NoRequest
    case Waiting(_) => NoRequest
  }

  /** The line that is read is a beginning of the stream, however the stream is cut. */
  lemma {:induction false} LineIsPrefix(events: seq<Event>, acc: string)
    requires |acc| < BUFFER_SIZE && Reading(events, acc).Line?
    ensures LF in Reading(events, acc).data && Reading(events, acc).data <= acc + Payload(events)
  {
    if events[0].Data? { PayloadStep(events, acc); }
    var o := OneTurn(events[0], acc);
    if o.Waiting? { LineIsPrefix(events[1..], o.data); }
  }

  /** Whatever the length of the stream and however it is cut: when a line is read, the request is the
      C string before the first line feed, less one character. */
  lemma {:induction false} LineAnswer(events: seq<Event>)
    requires Reading(events, "").Line? && Find(Payload(events), LF) > 0
    ensures LF in Payload(events)
    ensures Answer(events) == Request(CStr(Payload(events)[..Find(Payload(events), LF) - 1]))
  {
    var s, data := Payload(events), Reading(events, "").data;
    LineIsPrefix(events, "");
    assert "" + s == s;
    SameSelector(data, s);
  }

  lemma SameSelector(data: string, s: string)
    requires data <= s && LF in data && Find(s, LF) > 0
    ensures LF in s && Selector(data) == CStr(s[..Find(s, LF) - 1])
  {
    FindInPrefix(data, s, LF);
    assert data[..Find(s, LF) - 1] == s[..Find(s, LF) - 1];
  }

  /** Fragmentation does not matter below 2048 bytes: with a line feed the request is the C string
      before it, less one character; without, it is everything up to the end of the stream. */
  lemma ShortAnswer(events: seq<Event>, s: string)
    requires Payload(events) == s && |s| < 2048 && Find(s, '\n') > 0
    ensures '\n' in s ==> Answer(events) == Request(CStr(s[..Find(s, '\n') - 1]))
    ensures '\n' !in s && EndOf(events) == EndsClosed ==> Answer(events) == Request(CStr(s))
  {
    assert "" + s == s;
    ShortStream(events, "");
    if LF in s { LineAnswer(events); }
  }

  lemma FirstLineFeed(before: string, after: string)
    requires LF !in before
    ensures var s := before + "\n" + after; Find(s, LF) == |before| && s[..|before|] == before
  {
    var s := before + "\n" + after;
    assert s[..|before|] == before && s[|before|] == LF;
    FindIs(s, LF, |before|);
  }

  lemma BeginningIsCStr(s: string, k: nat)
    requires k <= |s| && NUL !in s
    ensures CStr(s[..k]) == s[..k]
  {
    assert forall c :: c in s[..k] ==> c in s;
    CStrIs(s[..k], s[..k]);
  }

  lemma SliceOfSlice(s: string, k: nat, n: nat)
    requires k <= n <= |s|
    ensures s[..n][..k] == s[..k]
  {
  }

  lemma {:induction false} AnswerIs(events: seq<Event>, k: nat)
    requires 0 < k < |Payload(events)| && Find(Payload(events), LF) == k
    requires |Payload(events)| < BUFFER_SIZE || Reading(events, "").Line?
    ensures Answer(events) == Request(CStr(Payload(events)[..k - 1]))
  {
    if Reading(events, "").Line? { LineAnswer(events); } else { ShortAnswer(events, Payload(events)); }
  }

  lemma CrLf(selector: string, rest: string)
    ensures selector + "\r\n" + rest == (selector + "\r") + "\n" + rest
    ensures (selector + "\r")[..|selector|] == selector
  {
  }

  /** RFC 1436, section 2: a selector followed by CR LF arrives exactly, however it is cut, if the
      stream is shorter than the buffer or its line is read at all. */
  lemma {:induction false} SelectorArrives(events: seq<Event>, selector: string, rest: string)
    requires NUL !in selector && LF !in selector
    requires Payload(events) == selector + "\r\n" + rest
    requires |Payload(events)| < BUFFER_SIZE || Reading(events, "").Line?
    ensures Answer(events) == Request(selector)
  {
    var s, k := Payload(events), |selector| + 1;
    CrLf(selector, rest);
    FirstLineFeed(selector + "\r", rest);
    SliceOfSlice(s, k - 1, k);
    CStrIs(selector, selector);
    AnswerIs(events, k);
  }

  /** A selector that ends in a bare line feed loses its last character. */
  lemma {:induction false} BareLineFeed(events: seq<Event>, selector: string, rest: string)
    requires NUL !in selector && LF !in selector && selector != ""
    requires Payload(events) == selector + "\n" + rest
    requires |Payload(events)| < BUFFER_SIZE || Reading(events, "").Line?
    ensures Answer(events) == Request(selector[..|selector| - 1])
  {
    var s, k := Payload(events), |selector|;
    FirstLineFeed(selector, rest);
    SliceOfSlice(s, k - 1, k);
    BeginningIsCStr(selector, k - 1);
    AnswerIs(events, k);
  }

  // ---------- the overflow boundary ----------

  /** After the first `m` events the stream has not ended, fewer than 2048 bytes have arrived, and
      there is a line feed among them. */
  ghost predicate Exposed(events: seq<Event>, acc: string, m: nat) {
    && m <= |events|
    && EndOf(events[..m]) == EndsOpen
    && LF in acc + Payload(events[..m])
    && |acc + Payload(events[..m])| < BUFFER_SIZE
  }

  lemma ExposedLater(events: seq<Event>, acc: string, acc': string)
    requires events != [] && (events[0].Interrupted? || events[0].Data?)
    requires acc' == if events[0].Data? then acc + events[0].bytes else acc
    requires LF !in acc
    ensures (exists m :: Exposed(events, acc, m)) <==> (exists m :: Exposed(events[1..], acc', m))
  {
    forall m | 1 <= m <= |events|
      ensures Exposed(events, acc, m) <==> Exposed(events[1..], acc', m - 1)
    {
      assert events[..m][1..] == events[1..][..m - 1];
      assert acc + Payload(events[..m]) == acc' + Payload(events[1..][..m - 1]);
    }
    if m: nat :| Exposed(events, acc, m) {
      assert m == 0 ==> acc + Payload(events[..m]) == acc;
      assert Exposed(events[1..], acc', m - 1);
    }
    if m: nat :| Exposed(events[1..], acc', m) {
      assert Exposed(events, acc, m + 1);
    }
  }

  /** The request is rejected exactly when 2048 bytes arrive and no earlier receive had brought a
      line feed with fewer than 2048 bytes in all. */
  lemma {:induction false} TooLongIff(events: seq<Event>, acc: string)
    requires |acc| < BUFFER_SIZE && LF !in acc
    ensures Reading(events, acc) == TooLong <==>
      |acc + Payload(events)| >= BUFFER_SIZE && !exists m :: Exposed(events, acc, m)
  {
    if events == [] || events[0].Closed? || events[0].Failed? {
      assert acc + "" == acc;
    } else if events[0].Interrupted? {
      ExposedLater(events, acc, acc);
      TooLongIff(events[1..], acc);
    } else {
      var acc' := acc + events[0].bytes;
      assert acc + Payload(events) == acc' + Payload(events[1..]);
      if |acc'| >= BUFFER_SIZE {
        NothingExposed(events, acc);
      } else if LF in acc' {
        assert events[..1][1..] == [];
        assert acc + Payload(events[..1]) == acc';
        assert Exposed(events, acc, 1);
      } else {
        ExposedLater(events, acc, acc');
        TooLongIff(events[1..], acc');
      }
    }
  }

  lemma NothingExposed(events: seq<Event>, acc: string)
    requires events != [] && events[0].Data? && LF !in acc && |acc + events[0].bytes| >= BUFFER_SIZE
    ensures !exists m :: Exposed(events, acc, m)
  {
    forall m: nat | m <= |events| ensures !Exposed(events, acc, m) {
      if m > 0 {
        assert events[..m][0] == events[0];
        assert Payload(events[..m]) == events[0].bytes + Payload(events[..m][1..]);
      } else {
        assert acc + Payload(events[..m]) == acc;
      }
    }
  }

  /** `events` is one way for the stream `s` to arrive before the client closes. */
  ghost predicate Carries(events: seq<Event>, s: string) {
    IsStream(events) && Payload(events) == s && EndOf(events) == EndsClosed
  }

  ghost predicate FragmentationIndependent(s: string) {
    forall e1, e2 :: Carries(e1, s) && Carries(e2, s) ==> Answer(e1) == Answer(e2)
  }

  lemma LateLineFeed(events: seq<Event>, s: string)
    requires Carries(events, s) && |s| >= 2048 && Find(s, '\n') >= 2047
    ensures Answer(events) == Rejected
  {
    assert "" + s == s;
    TooLongIff(events, "");
    forall m: nat | m <= |events| ensures !Exposed(events, "", m) {
      PayloadPrefix(events, m);
      var a := Payload(events[..m]);
      assert "" + a == a;
      FindInPrefix(a, s, LF);
    }
  }

  lemma {:induction false} PayloadPrefix(events: seq<Event>, m: nat)
    requires m <= |events|
    ensures Payload(events[..m]) <= Payload(events)
  {
    if m > 0 {
      assert events[..m][1..] == events[1..][..m - 1];
      PayloadPrefix(events[1..], m - 1);
    }
  }

  lemma WholeIsRejected(s: string)
    requires |s| >= BUFFER_SIZE
    ensures Carries([Data(s), Closed], s) && Answer([Data(s), Closed]) == Rejected
  {
    assert [Data(s), Closed][1..] == [Closed];
    assert s + "" == s;
  }

  /** A stream in two pieces, the first of which is exposed. */
  lemma TwoPieces(a: string, b: string) returns (events: seq<Event>)
    requires a != "" && b != "" && LF in a && |a| < BUFFER_SIZE
    ensures Carries(events, a + b) && Answer(events) == Request(Selector(a))
  {
    events := [Data(a), Data(b), Closed];
    var later := [Data(b), Closed];
    assert events[1..] == later && later[1..] == [Closed];
    assert Payload(later) == b + "" == b;
    assert EndOf(later) == EndsClosed;
    assert "" + a == a;
  }

  lemma CutIsAccepted(s: string, k: nat)
    requires k == Find(s, '\n') && 0 < k < 2047 && k + 1 < |s|
    ensures exists events :: Carries(events, s) && Answer(events) != Rejected
  {
    Halves(s, k);
    var events := TwoPieces(s[..k + 1], s[k + 1..]);
  }

  lemma Halves(s: string, k: nat)
    requires k < |s|
    ensures s[k] in s[..k + 1] && s[..k + 1] + s[k + 1..] == s
  {
    assert s[..k + 1][k] == s[k];
  }

  /** The exact boundary: for a non-empty stream that does not begin with a line feed, the answer
      is the same under every fragmentation if and only if the stream is shorter than 2048 bytes
      or has no line feed before index 2047. */
  lemma FragmentationIndependentIff(s: string)
    requires s != "" && Find(s, LF) > 0
    ensures FragmentationIndependent(s) <==> |s| < 2048 || Find(s, '\n') >= 2047
  {
    var k := Find(s, LF);
    if |s| < BUFFER_SIZE || k >= BUFFER_SIZE - 1 {
      forall e1, e2 | Carries(e1, s) && Carries(e2, s) ensures Answer(e1) == Answer(e2) {
        SameAnswer(e1, e2, s);
      }
    } else {
      WholeIsRejected(s);
      CutIsAccepted(s, k);
    }
  }

  lemma SameAnswer(e1: seq<Event>, e2: seq<Event>, s: string)
    requires Carries(e1, s) && Carries(e2, s) && Find(s, LF) > 0
    requires |s| < BUFFER_SIZE || Find(s, LF) >= BUFFER_SIZE - 1
    ensures Answer(e1) == Answer(e2)
  {
    if |s| < BUFFER_SIZE {
      ShortAnswer(e1, s);
      ShortAnswer(e2, s);
    } else {
      LateLineFeed(e1, s);
      LateLineFeed(e2, s);
    }
  }
}
