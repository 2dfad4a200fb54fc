/** Menus of general/lib/gopher/protocol.c: the line printer, the directory listing, and what a
    client reads back. */
module Menu {
  import opened CStrings
  import opened Utils
  import opened Protocol
  import ConfigFile

  /** A directory entry, with how its lookup, its allocations and its transmission turn out. */
  datatype Entry = Entry(name: string, code: int, memory: bool, format: bool, sent: Option<nat>)

  /** What getGopherCode returns, a signed char, as the byte that is printed. */
  function TypeChar(code: int): char
    requires -128 <= code < 128
  {
    (if code < 0 then code + 256 else code) as char
  }

  function MenuLine(kind: char, name: string, path: string, host: string, port: int): string {
    [kind] + name + "\t" + path + "\t" + host + "\t" + Decimal(port) + "\n"
  }

  const NOT_FOUND := " doesn't exist! error.host"

  function ErrorLine(name: string, port: int): string {
    "3" + name + "\t" + NOT_FOUND + "\t" + Decimal(port) + "\n"
  }

  function ResponseLine(code: int, name: string, path: string, host: string, port: int): string
    requires -128 <= code < 128
  {
    if code == '3' as int then ErrorLine(name, port) else MenuLine(TypeChar(code), name, path, host, port)
  }

  /** The allocation for the line. */
  function LineSize(code: int, name: string, path: string, host: string): nat {
    if code == '3' as int then 1 + |name| + |NOT_FOUND| + 6 + 4 + 4
    else 1 + |path| + |name| + |host| + 6 + 4 + 4
  }

  predicate Fits(code: int, name: string, path: string, host: string, port: int)
    requires -128 <= code < 128
  {
    |ResponseLine(code, name, path, host, port)| + 1 <= LineSize(code, name, path, host)
  }

  /** A line with its NUL fits its allocation exactly when the port prints in at most nine characters,
      or ten for the error line. */
  lemma LineFitsIff(code: int, name: string, path: string, host: string, port: int)
    requires -128 <= code < 128
    ensures Fits(code, name, path, host, port) <==>
      if code == '3' as int then -1_000_000_000 < port < 10_000_000_000 else -100_000_000 < port < 1_000_000_000
  {
    Powers();
    var k := if code == '3' as int then 10 else 9;
    if port < 0 {
      DecimalLength(-port, k - 1);
    } else {
      DecimalLength(port, k);
    }
  }

  lemma Powers()
    ensures Pow10(8) == 100_000_000 && Pow10(9) == 1_000_000_000 && Pow10(10) == 10_000_000_000
  {
    assert Pow10(4) == 10_000;
    assert Pow10(6) == 1_000_000;
    assert Pow10(8) == 100_000_000;
    assert Pow10(9) == 1_000_000_000;
  }

  /** The configured port, an unsigned int, as the int that is printed: the 32 bits that were read. */
  lemma PrintedPort(n: int)
    requires ConfigFile.PortOf(Decimal(n)).Ok?
    ensures ToInt32(ConfigFile.PortOf(Decimal(n)).value) == ToInt32(Clamp(n)) <= 65535
  {
    StrToIntReadsDecimal(n);
  }

  /** For every number that the configuration parser accepts as a port, a line with its NUL fits exactly
      when the 32 bits of the number are above -100 million, or -1000 million for the error line. */
  lemma ConfiguredPortFitsIff(n: int, code: int, name: string, path: string, host: string)
    requires ConfigFile.PortOf(Decimal(n)).Ok? && -128 <= code < 128
    ensures Fits(code, name, path, host, ToInt32(ConfigFile.PortOf(Decimal(n)).value)) <==>
      ToInt32(Clamp(n)) > (if code == '3' as int then -1_000_000_000 else -100_000_000)
  {
    PrintedPort(n);
    LineFitsIff(code, name, path, host, ToInt32(Clamp(n)));
  }

  /** Such a port can be configured. */
  lemma OverrunIsConfigurable(name: string, path: string, host: string)
    ensures ConfigFile.PortOf(Decimal(-100_000_000)) == Ok(4_194_967_296)
    ensures !Fits('0' as int, name, path, host, ToInt32(4_194_967_296))
  {
    StrToIntReadsDecimal(-100_000_000);
    ConfiguredPortFitsIff(-100_000_000, '0' as int, name, path, host);
  }

  /** Not a result of the program: here it has written past an allocation, and what it does from then
      on is undefined. */
  const OVERRUN: int := -100

  /** protocol_response; the flags say whether `calloc` and `sprintf` succeed. */
  method ProtocolResponse(code: int, name: string, path: string, host: string, port: int, memory: bool, format: bool)
    returns (ret: int, result: array?<char>)
    requires -128 <= code < 128
    requires code != 0 && NUL !in name && NUL !in path && NUL !in host
    ensures ret == if code == -1 || !memory then 1 else if !format then -2
                   else if !Fits(code, name, path, host, port) then OVERRUN else 0
    ensures result != null <==> code != -1 && memory
    ensures ret == 0 ==> CStr(result[..]) == ResponseLine(code, name, path, host, port)
  {
    if code == -1 || !memory { return 1, null; }
    var buf := new char[LineSize(code, name, path, host)](_ => NUL);
    if !format { return NEED_TO_FREE, buf; }
    var line := ResponseLine(code, name, path, host, port);
    if |line| >= buf.Length { return OVERRUN, buf; }
    NoNul(code, name, path, host, port);
    Sprintf(buf, line);
    ret, result := 0, buf;
  }

  lemma NoNul(code: int, name: string, path: string, host: string, port: int)
    requires -128 <= code < 128 && code != 0 && NUL !in name && NUL !in path && NUL !in host
    ensures NUL !in ResponseLine(code, name, path, host, port)
  {
    NoNulInMenuLine(TypeChar(code), name, path, host, port);
    NoNulInErrorLine(name, port);
  }

  lemma NoNulInMenuLine(kind: char, name: string, path: string, host: string, port: int)
    requires kind != NUL && NUL !in name && NUL !in path && NUL !in host
    ensures NUL !in MenuLine(kind, name, path, host, port)
  {
    assert NUL !in [kind] + name;
    assert NUL !in [kind] + name + "\t" + path;
    assert NUL !in [kind] + name + "\t" + path + "\t" + host;
    assert NUL !in [kind] + name + "\t" + path + "\t" + host + "\t" + Decimal(port);
  }

  lemma NoNulInErrorLine(name: string, port: int)
    requires NUL !in name
    ensures NUL !in ErrorLine(name, port)
  {
    assert NUL !in "3" + name + "\t" + NOT_FOUND;
  }

  // ---------- print_directory ----------

  predicate Hidden(name: string) {
    name != "" && name[0] == '.'
  }

  function FullPath(path: string, name: string): string {
    path + "/" + name
  }

  ghost predicate Listable(entries: seq<Entry>) {
    forall i :: 0 <= i < |entries| ==> IsEntry(entries[i])
  }

  predicate IsEntry(e: Entry) {
    -128 <= e.code < 128 && e.code != 0 && NUL !in e.name
  }

  /** What the loop makes of an entry: nothing, an error return, or a line to send. */
  datatype Turn = Hide | Stop(ret: int) | Show(line: string, sent: Option<nat>)

  function TurnOf(e: Entry, path: string, host: string, port: int): Turn
    requires IsEntry(e)
  {
    if Hidden(e.name) then Hide
    else if !e.memory || !e.format || e.code == -1 then Stop(-1)
    else if !Fits(e.code, e.name, FullPath(path, e.name), host, port) then Stop(OVERRUN)
    else Show(ResponseLine(e.code, e.name, FullPath(path, e.name), host, port), e.sent)
  }

  function Turns(entries: seq<Entry>, path: string, host: string, port: int): (turns: seq<Turn>)
    requires Listable(entries)
    ensures |turns| == |entries|
    ensures forall i :: 0 <= i < |entries| ==> turns[i] == TurnOf(entries[i], path, host, port)
  {
    seq(|entries|, i requires 0 <= i < |entries| => TurnOf(entries[i], path, host, port))
  }

  function TurnResult(t: Turn): int {
    match t
    case Hide => 0
    case Stop(ret) => ret
    case Show(_, sent) => if sent == None then -2 else 0
  }

  /** The menu: one line for each entry that is shown, in order. */
  function Lines(turns: seq<Turn>): seq<string> {
    if turns == [] then [] else
    Lines(turns[..|turns| - 1]) + TurnLines(turns[|turns| - 1])
  }

  function TurnLines(t: Turn): seq<string> { if t.Show? then [t.line] else [] }

  function Accepted(message: string, n: nat): (r: string)
    ensures n >= |message| ==> r == message
    ensures n < |message| ==> |r| == n
  {
    if n <= |message| then message[..n] else message
  }

  /** What goes on the wire for one entry. */
  function TurnSends(t: Turn): seq<string> {
    if t.Show? && t.sent.Some? then [Accepted(t.line, t.sent.value)] else []
  }

  function Sends(turns: seq<Turn>): seq<string> {
    if turns == [] then [] else Sends(turns[..|turns| - 1]) + TurnSends(turns[|turns| - 1])
  }

  /** How many entries the loop gets through. */
  function Through(turns: seq<Turn>): (n: nat)
    ensures n <= |turns|
    ensures forall i :: 0 <= i < n ==> TurnResult(turns[i]) == 0
    ensures n < |turns| ==> TurnResult(turns[n]) != 0
  {
    if turns == [] || TurnResult(turns[0]) != 0 then 0 else 1 + Through(turns[1..])
  }

  lemma {:induction false} ThroughIs(turns: seq<Turn>, n: nat)
    requires n <= |turns|
    requires forall k :: 0 <= k < n ==> TurnResult(turns[k]) == 0
    requires n < |turns| ==> TurnResult(turns[n]) != 0
    ensures Through(turns) == n
  {
    if n > 0 { ThroughIs(turns[1..], n - 1); }
  }

  /** The connection: what each send put on the wire. */
  class Wire {
    var sends: seq<string>

    constructor ()
      ensures sends == []
    {
      sends := [];
    }

    /** socket_send_message: a send that takes only part of the message counts as a success. */
    method SendMessage(message: string, sent: Option<nat>) returns (ret: int)
      modifies this
      ensures ret == if sent == None then -1 else 0
      ensures sends == old(sends) + TurnSends(Show(message, sent))
    {
      if sent == None { return -1; }
      sends := sends + [Accepted(message, sent.value)];
      ret := 0;
    }
  }

  /** One turn of the loop. */
  method SendEntry(path: string, e: Entry, host: string, port: int, wire: Wire, ghost turn: Turn) returns (ret: int)
    requires IsEntry(e) && NUL !in path && NUL !in host
    requires turn == TurnOf(e, path, host, port)
    modifies wire
    ensures ret == TurnResult(turn)
    ensures wire.sends == old(wire.sends) + TurnSends(turn)
  {
    if e.name != "" && e.name[0] == '.' { return 0; }
    if !e.memory { return -1; }
    var fullpath := FullPath(path, e.name);
    assert NUL !in fullpath;
    var err, line := ProtocolResponse(e.code, e.name, fullpath, host, port, e.memory, e.format);
    if err == OVERRUN { return OVERRUN; }
    if err != 0 { return -1; }
    var sent := wire.SendMessage(CStr(line[..]), e.sent);
    if sent < 0 { return -2; }
    ret := 0;
  }

  /** print_directory, for a directory that `opendir` opens. */
  method PrintDirectory(path: string, entries: seq<Entry>, host: string, port: int, wire: Wire)
    returns (ret: int)
    requires Listable(entries) && NUL !in path && NUL !in host
    modifies wire
    ensures var turns := Turns(entries, path, host, port);
      var n := Through(turns);
      && ret == (if n == |entries| then 0 else TurnResult(turns[n]))
      && wire.sends == old(wire.sends) + Sends(turns[..n])
    ensures ret == 0 && Readable(entries, path, host, port) ==>
      var read := ParseMenu(Flatten(wire.sends[|old(wire.sends)|..]));
      read.Some? && Mirrors(read.value, Visible(entries), path, host, port)
  {
    ghost var turns := Turns(entries, path, host, port);
    ret := PrintEntries(path, entries, host, port, wire, turns);
    if ret == 0 && Readable(entries, path, host, port) {
      assert turns[..|turns|] == turns;
      assert wire.sends[|old(wire.sends)|..] == Sends(turns);
      SentMenuReadsBack(entries, path, host, port);
    }
  }

  lemma SendsSnoc(turns: seq<Turn>, i: nat)
    requires i < |turns|
    ensures Sends(turns[..i + 1]) == Sends(turns[..i]) + TurnSends(turns[i])
  {
    assert turns[..i + 1][..i] == turns[..i];
  }

  /** Its loop, `turns` being what it makes of the entries. */
  method PrintEntries(path: string, entries: seq<Entry>, host: string, port: int, wire: Wire, ghost turns: seq<Turn>)
    returns (ret: int)
    requires Listable(entries) && NUL !in path && NUL !in host
    requires |turns| == |entries|
    requires forall i {:trigger entries[i]} :: 0 <= i < |entries| ==> turns[i] == TurnOf(entries[i], path, host, port)
    modifies wire
    ensures var n := Through(turns);
      && ret == (if n == |turns| then 0 else TurnResult(turns[n]))
      && wire.sends == old(wire.sends) + Sends(turns[..n])
  {
    var i := 0;
    while i < |entries|
      invariant 0 <= i <= |entries|
      invariant forall k :: 0 <= k < i ==> TurnResult(turns[k]) == 0
      invariant wire.sends == old(wire.sends) + Sends(turns[..i])
    {
      SendsSnoc(turns, i);
      Associate(old(wire.sends), Sends(turns[..i]), TurnSends(turns[i]));
      ret := SendEntry(path, entries[i], host, port, wire, turns[i]);
      if ret != 0 {
        ThroughIs(turns, i);
        return;
      }
      i := i + 1;
    }
    ThroughIs(turns, |turns|);
    ret := 0;
  }

  // ---------- what reaches the client ----------

  function Flatten(pieces: seq<string>): string {
    if pieces == [] then "" else Flatten(pieces[..|pieces| - 1]) + pieces[|pieces| - 1]
  }

  predicate SentWhole(t: Turn) {
    t.Show? ==> t.sent.Some? && t.sent.value >= |t.line|
  }

  /** As long as every send takes its whole line, what has gone out is the menu of the entries
      passed so far: after a failure the client has the beginning of the menu, whole lines only. */
  lemma {:induction false} WholeSends(turns: seq<Turn>, n: nat)
    requires n <= |turns| && forall i :: 0 <= i < n ==> SentWhole(turns[i])
    ensures Sends(turns[..n]) == Lines(turns[..n]) <= Lines(turns)
    decreases |turns| + n
  {
    if n < |turns| {
      var init := turns[..|turns| - 1];
      assert init[..n] == turns[..n];
      WholeSends(init, n);
    } else if n > 0 {
      assert turns[..n] == turns && turns[..n - 1][..n - 1] == turns[..n - 1];
      WholeSends(turns[..n - 1], n - 1);
    }
  }

  /** A listing that reports success has sent the whole menu if and only if no send was partial. */
  lemma SuccessIsCompleteIff(turns: seq<Turn>)
    requires Through(turns) == |turns|
    ensures Flatten(Sends(turns)) == Flatten(Lines(turns)) <==>
      forall i :: 0 <= i < |turns| ==> SentWhole(turns[i])
  {
    if forall i :: 0 <= i < |turns| ==> SentWhole(turns[i]) {
      WholeSends(turns, |turns|);
      assert turns[..|turns|] == turns;
    } else {
      AllDoneFrom(turns);
      AllWholeIff(turns);
      PartialSendsAreShorter(turns);
    }
  }

  /** All sends were whole. */
  predicate AllWhole(turns: seq<Turn>) {
    turns == [] || (AllWhole(turns[..|turns| - 1]) && SentWhole(turns[|turns| - 1]))
  }

  lemma {:induction false} AllWholeIff(turns: seq<Turn>)
    ensures AllWhole(turns) <==> forall i :: 0 <= i < |turns| ==> SentWhole(turns[i])
  {
    if turns != [] {
      var init := turns[..|turns| - 1];
      AllWholeIff(init);
      assert forall i :: 0 <= i < |init| ==> init[i] == turns[i];
    }
  }

  predicate AllDone(turns: seq<Turn>) {
    turns == [] || (AllDone(turns[..|turns| - 1]) && TurnResult(turns[|turns| - 1]) == 0)
  }

  lemma {:induction false} AllDoneFrom(turns: seq<Turn>)
    requires forall i :: 0 <= i < |turns| ==> TurnResult(turns[i]) == 0
    ensures AllDone(turns)
  {
    if turns != [] {
      var init := turns[..|turns| - 1];
      assert forall i :: 0 <= i < |init| ==> init[i] == turns[i];
      AllDoneFrom(init);
    }
  }

  lemma {:induction false} PartialSendsAreShorter(turns: seq<Turn>)
    requires AllDone(turns)
    ensures |Flatten(Sends(turns))| <= |Flatten(Lines(turns))|
    ensures !AllWhole(turns) ==> |Flatten(Sends(turns))| < |Flatten(Lines(turns))|
  {
    if turns != [] {
      var init, t := turns[..|turns| - 1], turns[|turns| - 1];
      PartialSendsAreShorter(init);
      TurnIsNoLonger(Sends(init), Lines(init), t);
    }
  }

  lemma TurnIsNoLonger(sends: seq<string>, lines: seq<string>, t: Turn)
    requires TurnResult(t) == 0
    ensures |Flatten(sends + TurnSends(t))| - |Flatten(sends)| <= |Flatten(lines + TurnLines(t))| - |Flatten(lines)|
    ensures !SentWhole(t) ==>
      |Flatten(sends + TurnSends(t))| - |Flatten(sends)| < |Flatten(lines + TurnLines(t))| - |Flatten(lines)|
  {
    if t.Show? {
      FlattenSnoc(sends, Accepted(t.line, t.sent.value));
      FlattenSnoc(lines, t.line);
    } else {
      assert sends + [] == sends && lines + [] == lines;
    }
  }

  lemma FlattenSnoc(pieces: seq<string>, last: string)
    ensures Flatten(pieces + [last]) == Flatten(pieces) + last
  {
    assert (pieces + [last])[..|pieces|] == pieces;
  }

  // ---------- reading a menu ----------

  datatype Item = Item(kind: char, name: string, selector: string, host: string, port: nat)

  /** A client's reading of one line, RFC 1436 section 3.9: type, then four tab-separated fields. */
  function ParseLine(line: string): Option<Item> {
    if line == "" then None else
    var fields := Split(line[1..], "\t");
    if |fields| != 4 || fields[3] == "" || !AllDigits(fields[3]) then None
    else Some(Item(line[0], fields[0], fields[1], fields[2], DigitsValue(fields[3])))
  }

  /** Lines end in a line feed, so the last piece is empty. */
  function ParseLines(pieces: seq<string>): Option<seq<Item>>
    requires pieces != []
    decreases |pieces|
  {
    if |pieces| == 1 then (if pieces[0] == "" then Some([]) else None) else
    match (ParseLine(pieces[0]), ParseLines(pieces[1..]))
    case (Some(item), Some(items)) => Some([item] + items)
    case _ => None
  }

  function ParseMenu(menu: string): Option<seq<Item>> {
    ParseLines(Split(menu, "\n"))
  }

  /** What the menu should say. */
  function Items(entries: seq<Entry>, path: string, host: string, port: nat): seq<Item>
    requires Listable(entries)
    decreases |entries|
  {
    if entries == [] then [] else
    var e := entries[|entries| - 1];
    Items(entries[..|entries| - 1], path, host, port) + ItemsOf(e, path, host, port)
  }

  function ItemsOf(e: Entry, path: string, host: string, port: nat): seq<Item>
    requires IsEntry(e)
  {
    if Hidden(e.name) then [] else [Item(TypeChar(e.code), e.name, FullPath(path, e.name), host, port)]
  }

  predicate IsField(s: string) {
    '\t' !in s && '\n' !in s
  }

  /** A menu line and what it says. */
  ghost predicate Says(line: string, item: Item) {
    && line != "" && line[|line| - 1] == '\n'
    && '\n' !in line[..|line| - 1]
    && ParseLine(line[..|line| - 1]) == Some(item)
  }

  lemma FourFields(a: string, b: string, c: string, d: string)
    requires '\t' !in a && '\t' !in b && '\t' !in c && '\t' !in d
    ensures Split(a + "\t" + b + "\t" + c + "\t" + d, "\t") == [a, b, c, d]
  {
    SplitWithout(a, "\t");
    SplitWithout(b, "\t");
    SplitWithout(c, "\t");
    SplitWithout(d, "\t");
    SplitAtSeparator(a, '\t', b, "\t");
    SplitAtSeparator(a + "\t" + b, '\t', c, "\t");
    SplitAtSeparator(a + "\t" + b + "\t" + c, '\t', d, "\t");
  }

  function Fields(name: string, path: string, host: string, port: nat): string {
    name + "\t" + path + "\t" + host + "\t" + DecimalNat(port)
  }

  lemma MenuLineIs(kind: char, name: string, path: string, host: string, port: nat)
    ensures MenuLine(kind, name, path, host, port) == ([kind] + Fields(name, path, host, port)) + "\n"
  {
  }

  lemma FieldsParse(kind: char, name: string, path: string, host: string, port: nat)
    requires IsField(name) && IsField(path) && IsField(host)
    ensures ParseLine([kind] + Fields(name, path, host, port)) == Some(Item(kind, name, path, host, port))
  {
    var line := [kind] + Fields(name, path, host, port);
    assert line[1..] == Fields(name, path, host, port);
    FourFields(name, path, host, DecimalNat(port));
    DecimalRoundTrip(port);
  }

  lemma BodySays(body: string, item: Item)
    requires '\n' !in body && ParseLine(body) == Some(item)
    ensures Says(body + "\n", item)
  {
    assert (body + "\n")[..|body|] == body;
  }

  lemma LineSays(kind: char, name: string, path: string, host: string, port: nat)
    requires IsField(name) && IsField(path) && IsField(host) && kind != '\n'
    ensures Says(MenuLine(kind, name, path, host, port), Item(kind, name, path, host, port))
  {
    var body := [kind] + Fields(name, path, host, port);
    assert '\n' !in DecimalNat(port);
    MenuLineIs(kind, name, path, host, port);
    FieldsParse(kind, name, path, host, port);
    BodySays(body, Item(kind, name, path, host, port));
  }

  ghost predicate AllSay(lines: seq<string>, items: seq<Item>) {
    |lines| == |items| && forall k :: 0 <= k < |lines| ==> Says(lines[k], items[k])
  }

  /** Lines that say their items are read back as those items. */
  lemma {:induction false} LinesParse(lines: seq<string>, items: seq<Item>, rest: string)
    requires AllSay(lines, items) && ParseMenu(rest).Some?
    ensures ParseMenu(Flatten(lines) + rest) == Some(items + ParseMenu(rest).value)
    decreases |lines|
  {
    if lines == [] {
      assert "" + rest == rest && items + ParseMenu(rest).value == ParseMenu(rest).value;
    } else {
      var n := |lines| - 1;
      FirstLine(lines[n], rest, items[n]);
      LinesParse(lines[..n], items[..n], lines[n] + rest);
      Associate(Flatten(lines[..n]), lines[n], rest);
      Associate(items[..n], [items[n]], ParseMenu(rest).value);
      assert items == items[..n] + [items[n]];
    }
  }

  lemma FirstLine(line: string, rest: string, item: Item)
    requires Says(line, item) && ParseMenu(rest).Some?
    ensures ParseMenu(line + rest) == Some([item] + ParseMenu(rest).value)
  {
    var body := line[..|line| - 1];
    assert line + rest == body + ['\n'] + rest;
    SplitAtSeparator(body, '\n', rest, "\n");
    SplitWithout(body, "\n");
    assert ([body] + Split(rest, "\n"))[1..] == Split(rest, "\n");
  }

  /** An entry whose line a client can take apart. */
  ghost predicate Plain(e: Entry) {
    Hidden(e.name) || (IsField(e.name) && e.code != '3' as int && e.code != '\n' as int)
  }

  lemma TurnSaysItem(e: Entry, path: string, host: string, port: nat)
    requires IsEntry(e) && Plain(e) && IsField(path) && IsField(host)
    requires TurnResult(TurnOf(e, path, host, port)) == 0
    ensures AllSay(TurnLines(TurnOf(e, path, host, port)), ItemsOf(e, path, host, port))
  {
    if !Hidden(e.name) {
      LineSays(TypeChar(e.code), e.name, FullPath(path, e.name), host, port);
    }
  }

  lemma AllSayBoth(lines: seq<string>, items: seq<Item>, lines': seq<string>, items': seq<Item>)
    requires AllSay(lines, items) && AllSay(lines', items')
    ensures AllSay(lines + lines', items + items')
  {
  }

  lemma LinesSnoc(entries: seq<Entry>, path: string, host: string, port: int)
    requires Listable(entries) && entries != []
    ensures var n := |entries| - 1;
      Lines(Turns(entries, path, host, port)) ==
      Lines(Turns(entries[..n], path, host, port)) + TurnLines(TurnOf(entries[n], path, host, port))
  {
    var n := |entries| - 1;
    assert Turns(entries, path, host, port)[..n] == Turns(entries[..n], path, host, port);
  }

  lemma {:induction false} LinesSayItems(entries: seq<Entry>, path: string, host: string, port: nat)
    requires Listable(entries) && IsField(path) && IsField(host)
    requires forall i :: 0 <= i < |entries| ==> Plain(entries[i])
    requires forall i :: 0 <= i < |entries| ==> TurnResult(TurnOf(entries[i], path, host, port)) == 0
    ensures AllSay(Lines(Turns(entries, path, host, port)), Items(entries, path, host, port))
    decreases |entries|
  {
    if entries != [] {
      var n := |entries| - 1;
      var init := entries[..n];
      assert forall i :: 0 <= i < n ==> init[i] == entries[i];
      LinesSayItems(init, path, host, port);
      TurnSaysItem(entries[n], path, host, port);
      LinesSnoc(entries, path, host, port);
      AllSayBoth(Lines(Turns(init, path, host, port)), Items(init, path, host, port),
                 TurnLines(TurnOf(entries[n], path, host, port)), ItemsOf(entries[n], path, host, port));
    }
  }

  /** Menu round trip: the lines of a listing that runs to its end read back as the entries that are
      not hidden, in order, each with its type, name, selector, host and port. */
  lemma MenuRoundTrip(entries: seq<Entry>, path: string, host: string, port: nat)
    requires Listable(entries) && IsField(path) && IsField(host)
    requires forall i :: 0 <= i < |entries| ==> Plain(entries[i])
    requires Through(Turns(entries, path, host, port)) == |entries|
    ensures ParseMenu(Flatten(Lines(Turns(entries, path, host, port)))) == Some(Items(entries, path, host, port))
    ensures Mirrors(Items(entries, path, host, port), Visible(entries), path, host, port)
  {
    ItemsMirror(entries, path, host, port);
    var turns := Turns(entries, path, host, port);
    var lines := Lines(turns);
    var items := Items(entries, path, host, port);
    forall i | 0 <= i < |entries| ensures TurnResult(TurnOf(entries[i], path, host, port)) == 0 {
      assert TurnResult(turns[i]) == 0;
    }
    LinesSayItems(entries, path, host, port);
    assert ParseMenu("") == Some([]);
    LinesParse(lines, items, "");
    assert Flatten(lines) + "" == Flatten(lines) && items + [] == items;
  }

  /** What a client can read back: fields without tabs and line feeds, no negative port, and no send
      that took only part of its line. */
  ghost predicate Readable(entries: seq<Entry>, path: string, host: string, port: int) {
    && Listable(entries) && IsField(path) && IsField(host) && port >= 0
    && (forall i :: 0 <= i < |entries| ==> Plain(entries[i]))
    && forall t :: t in Turns(entries, path, host, port) ==> SentWhole(t)
  }

  /** What a listing that ran to its end has sent reads back as the directory. */
  lemma SentMenuReadsBack(entries: seq<Entry>, path: string, host: string, port: int)
    requires Readable(entries, path, host, port) && Through(Turns(entries, path, host, port)) == |entries|
    ensures ParseMenu(Flatten(Sends(Turns(entries, path, host, port)))) == Some(Items(entries, path, host, port))
    ensures Mirrors(Items(entries, path, host, port), Visible(entries), path, host, port)
  {
    var turns := Turns(entries, path, host, port);
    assert forall i :: 0 <= i < |turns| ==> turns[i] in turns;
    WholeSends(turns, |turns|);
    assert turns[..|turns|] == turns;
    MenuRoundTrip(entries, path, host, port);
  }

  /** With a root that has no components, every line of a menu leads to its entry. */
  lemma {:induction false} MenuLinksWork(root: string, path: string, entries: seq<Entry>,
                                         host: string, port: nat, k: nat)
    requires root != "" && Comps(root) == [] && Listable(entries)
    requires forall i :: 0 <= i < |entries| ==> entries[i].name != "" && '/' !in entries[i].name
    requires k < |Items(entries, path, host, port)|
    ensures var item := Items(entries, path, host, port)[k];
      Comps(Resolve(root, item.selector)) == Comps(path) + [item.name]
    decreases |entries|
  {
    var n := |entries| - 1;
    var e := entries[n];
    var before := Items(entries[..n], path, host, port);
    if k < |before| {
      MenuLinksWork(root, path, entries[..n], host, port, k);
    } else {
      LinkWorks(root, path, e.name);
    }
  }

  lemma LinkWorks(root: string, path: string, name: string)
    requires root != "" && Comps(root) == [] && IsName(name)
    ensures Comps(Resolve(root, FullPath(path, name))) == Comps(path) + [name]
  {
    HopComps(root, path, name);
    NothingBefore(Comps(path), name);
  }

  lemma NothingBefore(comps: seq<string>, name: string)
    ensures [] + comps + [name] == comps + [name]
  {
  }

  // ---------- the listing in plain terms ----------

  /** The entries that are listed: those whose name does not begin with a dot. */
  function Visible(entries: seq<Entry>): seq<Entry> {
    if entries == [] then [] else
      var e := entries[|entries| - 1];
      Visible(entries[..|entries| - 1]) + Shown(e)
  }

  function Shown(e: Entry): seq<Entry> { if e.name == "" || e.name[0] != '.' then [e] else [] }

  /** The item is the entry's: its type is the character that getGopherCode returned, its selector the
      path of the directory, a slash and the name. */
  ghost predicate IsItemOf(item: Item, e: Entry, path: string, host: string, port: int) {
    && item.kind as int < 256 && (item.kind as int - e.code) % 256 == 0
    && (0 < e.code < 128 ==> item.kind == e.code as char)
    && item.name == e.name && item.selector == path + "/" + e.name && item.host == host && item.port == port
  }

  lemma ItemOfEntry(e: Entry, path: string, host: string, port: nat)
    requires IsEntry(e)
    ensures if e.name == "" || e.name[0] != '.'
      then |ItemsOf(e, path, host, port)| == 1 && IsItemOf(ItemsOf(e, path, host, port)[0], e, path, host, port)
      else ItemsOf(e, path, host, port) == []
  {
  }

  ghost predicate Mirrors(items: seq<Item>, entries: seq<Entry>, path: string, host: string, port: int) {
    |items| == |entries| && forall k :: 0 <= k < |items| ==> IsItemOf(items[k], entries[k], path, host, port)
  }

  lemma {:induction false} ItemsMirror(entries: seq<Entry>, path: string, host: string, port: nat)
    requires Listable(entries)
    ensures Mirrors(Items(entries, path, host, port), Visible(entries), path, host, port)
    decreases |entries|
  {
    if entries != [] {
      ItemsMirror(entries[..|entries| - 1], path, host, port);
      ItemOfEntry(entries[|entries| - 1], path, host, port);
    }
  }

  /** Everything that is visible is listed, and nothing else, ... */
  lemma {:induction false} VisibleIs(entries: seq<Entry>)
    ensures forall e :: e in Visible(entries) <==> e in entries && (e.name == "" || e.name[0] != '.')
  {
    if entries != [] {
      var init, last := entries[..|entries| - 1], entries[|entries| - 1];
      VisibleIs(init);
      assert entries == init + [last];
    }
  }

  /** ... in order. */
  lemma {:induction false} VisibleJoins(a: seq<Entry>, b: seq<Entry>)
    ensures Visible(a + b) == Visible(a) + Visible(b)
    decreases |b|
  {
    if b == [] {
      assert a + b == a;
    } else {
      var init, last := b[..|b| - 1], b[|b| - 1];
      VisibleJoins(a, init);
      assert b == init + [last];
      Associate(a, init, [last]);
      VisibleSnoc(a + init, last);
      VisibleSnoc(init, last);
      Associate(Visible(a), Visible(init), Shown(last));
    }
  }

  lemma VisibleSnoc(init: seq<Entry>, e: Entry)
    ensures Visible(init + [e]) == Visible(init) + Shown(e)
  {
    assert (init + [e])[..|init|] == init;
  }

  /** A menu line between its tabs, RFC 1436 section 3.9: type and name, selector, host, port. */
  lemma MenuLineSplits(kind: char, name: string, path: string, host: string, port: int)
    requires IsField(name) && IsField(path) && IsField(host) && kind != '\t'
    ensures var line := MenuLine(kind, name, path, host, port);
      && line[|line| - 1] == '\n'
      && Split(line[..|line| - 1], "\t") == [[kind] + name, path, host, Decimal(port)]
  {
    var line := MenuLine(kind, name, path, host, port);
    var body := ([kind] + name) + "\t" + path + "\t" + host + "\t" + Decimal(port);
    assert line == body + "\n";
    assert line[..|line| - 1] == body;
    FourFields([kind] + name, path, host, Decimal(port));
  }

  /** The line for a missing file: the selector in the name, the literal text, the port. */
  lemma ErrorLineSplits(name: string, port: int)
    requires IsField(name)
    ensures var line := ErrorLine(name, port);
      && line[|line| - 1] == '\n'
      && Split(line[..|line| - 1], "\t") == ["3" + name, " doesn't exist! error.host", Decimal(port)]
  {
    var text := " doesn't exist! error.host";
    var line, body := ErrorLine(name, port), ("3" + name) + "\t" + text + "\t" + Decimal(port);
    assert line == body + "\n";
    assert line[..|line| - 1] == body;
    NoTabInText();
    ThreeFields("3" + name, text, Decimal(port));
  }

  lemma NoTabInText()
    ensures '\t' !in " doesn't exist! error.host"
  {
  }

  lemma ThreeFields(a: string, b: string, c: string)
    requires '\t' !in a && '\t' !in b && '\t' !in c
    ensures Split(a + "\t" + b + "\t" + c, "\t") == [a, b, c]
  {
    SplitWithout(a, "\t");
    SplitWithout(b, "\t");
    SplitWithout(c, "\t");
    SplitAtSeparator(a, '\t', b, "\t");
    SplitAtSeparator(a + "\t" + b, '\t', c, "\t");
  }

  /** Which line goes out: the error line for type '3', a menu line with its type for every other. */
  lemma ResponseIs(code: int, name: string, path: string, host: string, port: int)
    requires -128 <= code < 128
    ensures code == 51 ==> ResponseLine(code, name, path, host, port) == ErrorLine(name, port)
    ensures code != 51 ==> exists kind: char ::
      && kind as int < 256 && (kind as int - code) % 256 == 0
      && ResponseLine(code, name, path, host, port) == MenuLine(kind, name, path, host, port)
  {
    if code != 51 {
      assert ResponseLine(code, name, path, host, port) == MenuLine(TypeChar(code), name, path, host, port);
    }
  }

  /** One send of the first `n` characters of the line, or of all of it. */
  predicate IsBeginning(sends: seq<string>, line: string, n: nat) {
    |sends| == 1 && sends[0] <= line && |sends[0]| == if n < |line| then n else |line|
  }

  /** How an entry ends: one with a leading dot is passed over; any other stops the listing with -1 without
      memory, a format or a type, with -2 if its line cannot be sent, and goes on with 0 otherwise, with
      its line, or as much of it as the send takes, on the wire. */
  lemma TurnIs(e: Entry, path: string, host: string, port: int)
    requires IsEntry(e)
    ensures var t := TurnOf(e, path, host, port);
      var line := ResponseLine(e.code, e.name, path + "/" + e.name, host, port);
      if e.name != "" && e.name[0] == '.' then TurnResult(t) == 0 && TurnSends(t) == [] && TurnLines(t) == []
      else if !e.memory || !e.format || e.code == -1 then TurnResult(t) == -1 && TurnSends(t) == []
      else Fits(e.code, e.name, path + "/" + e.name, host, port) ==>
        && TurnLines(t) == [line]
        && (e.sent == None ==> TurnResult(t) == -2 && TurnSends(t) == [])
        && (e.sent.Some? ==> TurnResult(t) == 0 && IsBeginning(TurnSends(t), line, e.sent.value))
  {
  }
}
