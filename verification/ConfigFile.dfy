/** general/lib/io/config_file.c: the configuration parser. */
module ConfigFile {
  import opened CStrings
  import opened Utils

  const M_PROCESS: int := 0
  const M_THREAD: int := 1

  // ---------- values ----------

  /** What a parse leaves behind: the numbers and the contents of the two fixed buffers. */
  datatype Conf = Conf(port: int, mode: int, rootDir: string, ipBuffer: string)

  /** Both buffers have their size, and the last byte of the host buffer, which no parse writes,
      is the NUL it was initialised with. */
  predicate IsConf(c: Conf) {
    |c.rootDir| == BUFFER_SIZE && |c.ipBuffer| == BUFFER_SIZE && c.ipBuffer[BUFFER_SIZE - 1] == NUL
  }

  /** `strncpy(buf, word, n)`: at most n characters, padded with NULs up to n. */
  function Copied(buf: string, word: string, n: nat): string
    requires n <= |buf|
  {
    if |word| >= n then word[..n] + buf[n..] else word + Zeros(n - |word|) + buf[n..]
  }

  /** conf_opts_port_number, stored in an unsigned int */
  function PortOf(text: string): Result<int> {
    match StrToInt(text)
    case Exit(code) => Exit(code)
    case Ok(n) => if n > 65535 then Exit(3) else Ok(n % 0x1_0000_0000)
  }

  /** conf_opts_mode_concurrency */
  function ModeOf(text: string): Result<int> {
    if (text != "Thread") == (text != "Process") then Exit(3)
    else if text == "Thread" then Ok(M_THREAD) else Ok(M_PROCESS)
  }

  /** The port check looks at the 32 bits that are left of the number, and from above only: a number
      is accepted exactly when those are at most 65535 as a signed integer, and stored as itself
      exactly when it is a port number or lies between 2^31 and 2^32. */
  lemma PortAcceptedIff(n: int)
    ensures PortOf(Decimal(n)).Ok? <==> ToInt32(Clamp(n)) <= 65535
    ensures PortOf(Decimal(n)) == Ok(n) <==> 0 <= n <= 65535 || 0x8000_0000 <= n < 0x1_0000_0000
    ensures -0x8000_0000 <= n < 0 ==> PortOf(Decimal(n)) == Ok(n + 0x1_0000_0000)
    ensures ToInt32(Clamp(n)) > 65535 ==> PortOf(Decimal(n)) == Exit(3)
  {
    StrToIntReadsDecimal(n);
    StoredAsItself(n);
    if -0x8000_0000 <= n < 0 { assert n % 0x1_0000_0000 == n + 0x1_0000_0000; }
  }

  lemma StoredAsItself(n: int)
    ensures var m := ToInt32(Clamp(n));
      m <= 65535 && m % 0x1_0000_0000 == n <==> 0 <= n <= 65535 || 0x8000_0000 <= n < 0x1_0000_0000
  {
    if 0 <= n < 0x1_0000_0000 {
      assert n % 0x1_0000_0000 == n;
    }
  }

  // ---------- one line ----------

  datatype Effect =
    | Blank
    | Port(number: int)
    | Mode(mode: int)
    | Root(dir: string)
    | Ip(host: string)
    | LongIp            // counted, but marks the file as wrong
    | Stops(code: int)  // ends the process

  datatype Keyword = KeyPort | KeyMode | KeyRoot | KeyIp

  function NameOf(key: Keyword): string {
    match key
    case KeyPort => "port"
    case KeyMode => "mode_concurrency"
    case KeyRoot => "root_dir"
    case KeyIp => "external_ip"
  }

  function KeywordOf(text: string): Option<Keyword> {
    if text == NameOf(KeyPort) then Some(KeyPort)
    else if text == NameOf(KeyMode) then Some(KeyMode)
    else if text == NameOf(KeyRoot) then Some(KeyRoot)
    else if text == NameOf(KeyIp) then Some(KeyIp)
    else None
  }

  /** Words end at a space, quoted values at a quote. */
  function ValueDelims(key: Keyword): string {
    if key.KeyRoot? || key.KeyIp? then "\"" else " "
  }

  /** A recognised key has a value; without one the code would go on with a null pointer. */
  predicate HasValue(line: string) {
    var t := NextToken(line, " ");
    t.Token? && KeywordOf(t.text).Some? ==> NextToken(t.rest, ValueDelims(KeywordOf(t.text).value)).Token?
  }

  function KeyEffect(key: Keyword, value: string): Effect {
    match key
    case KeyPort => (match PortOf(value) case Ok(n) => Port(n) case Exit(code) => Stops(code))
    case KeyMode => (match ModeOf(value) case Ok(m) => Mode(m) case Exit(code) => Stops(code))
    case KeyRoot => Root(value)
    case KeyIp => if |value| > BUFFER_SIZE - 1 then LongIp else Ip(value)
  }

  function LineEffect(line: string): Effect {
    match NextToken(line, " ")
    case NoToken => Blank
    case Token(_, text, rest) =>
      match KeywordOf(text)
      case None => Stops(3)
      case Some(key) =>
        match NextToken(rest, ValueDelims(key))
        case NoToken => Stops(3)  // excluded by HasValue
        case Token(_, value, _) => KeyEffect(key, value)
  }

  lemma NoValueStops(line: string)
    requires !HasValue(line)
    ensures LineEffect(line) == Stops(3)
  {
  }

  // ---------- all lines ----------

  datatype Progress =
    | Running(ports: nat, modes: nat, roots: nat, ips: nat, wrong: bool, conf: Conf)
    | Stopped(code: int)

  function Assigned(c: Conf, e: Effect): (c': Conf)
    requires IsConf(c)
    ensures IsConf(c')
  {
    match e
    case Port(n) => c.(port := n)
    case Mode(m) => c.(mode := m)
    case Root(dir) => c.(rootDir := Copied(c.rootDir, dir, BUFFER_SIZE))
    case Ip(host) => c.(ipBuffer := Copied(c.ipBuffer, host, BUFFER_SIZE - 1))
    case _ => c
  }

  function Apply(p: Progress, e: Effect): Progress
    requires p.Running? ==> IsConf(p.conf)
  {
    if p.Stopped? then p else
    var c := Assigned(p.conf, e);
    match e
    case Blank => p
    case Port(_) => p.(ports := p.ports + 1, conf := c)
    case Mode(_) => p.(modes := p.modes + 1, conf := c)
    case Root(_) => p.(roots := p.roots + 1, conf := c)
    case Ip(_) => p.(ips := p.ips + 1, conf := c)
    case LongIp => p.(ips := p.ips + 1, wrong := true)
    case Stops(code) => Stopped(code)
  }

  function Run(effects: seq<Effect>, c: Conf): (p: Progress)
    requires IsConf(c)
    ensures p.Running? ==> IsConf(p.conf)
  {
    if effects == [] then Running(0, 0, 0, 0, false, c)
    else Apply(Run(effects[..|effects| - 1], c), effects[|effects| - 1])
  }

  /** The exactly-once check at the end. */
  function Finish(p: Progress): Result<Conf> {
    if p.Stopped? then Exit(p.code)
    else if p.ports == 1 && p.modes == 1 && p.roots == 1 && p.ips == 1 && !p.wrong then Ok(p.conf)
    else Exit(1)
  }

  function Effects(lines: seq<string>): (es: seq<Effect>)
    ensures |es| == |lines|
  {
    seq(|lines|, i requires 0 <= i < |lines| => LineEffect(lines[i]))
  }

  function Parse(lines: seq<string>, c: Conf): Result<Conf>
    requires IsConf(c)
  {
    Finish(Run(Effects(lines), c))
  }

  // ---------- exactly once, in any order ----------

  function Key(e: Effect): int {
    match e
    case Port(_) => 0
    case Mode(_) => 1
    case Root(_) => 2
    case Ip(_) => 3
    case LongIp => 3
    case Stops(_) => 4
    case Blank => 5
  }

  function Count(es: seq<Effect>, key: int): nat {
    if es == [] then 0
    else Count(es[..|es| - 1], key) + (if Key(es[|es| - 1]) == key then 1 else 0)
  }

  function NonBlank(es: seq<Effect>): (r: seq<Effect>)
    ensures forall e :: e in r <==> e in es && e != Blank
  {
    if es == [] then [] else
      var init, last := es[..|es| - 1], es[|es| - 1];
      assert es == init + [last];
      NonBlank(init) + (if last == Blank then [] else [last])
  }

  lemma {:induction false} CountTotal(es: seq<Effect>)
    ensures Count(es, 0) + Count(es, 1) + Count(es, 2) + Count(es, 3) + Count(es, 4) == |NonBlank(es)|
  {
    if es != [] { CountTotal(es[..|es| - 1]); }
  }

  lemma {:induction false} CountPositive(es: seq<Effect>, e: Effect)
    requires e in es
    ensures Count(es, Key(e)) >= 1
  {
    var n := |es| - 1;
    assert es == es[..n] + [es[n]];
    if es[n] != e { CountPositive(es[..n], e); }
  }

  lemma {:induction false} CountTwo(es: seq<Effect>, e: Effect, e': Effect)
    requires e in es && e' in es && e != e' && Key(e) == Key(e')
    ensures Count(es, Key(e)) >= 2
  {
    var n := |es| - 1;
    assert es == es[..n] + [es[n]];
    if es[n] == e {
      CountPositive(es[..n], e');
    } else if es[n] == e' {
      CountPositive(es[..n], e);
    } else {
      CountTwo(es[..n], e, e');
    }
  }

  lemma {:induction false} CountWitness(es: seq<Effect>, key: int) returns (e: Effect)
    requires Count(es, key) >= 1
    ensures e in es && Key(e) == key
  {
    var n := |es| - 1;
    e := es[n];
    if Key(e) != key { e := CountWitness(es[..n], key); }
  }

  /** A run stops exactly at a line that stops it; otherwise it has counted every key. */
  lemma {:induction false} RunCounts(es: seq<Effect>, c: Conf)
    requires IsConf(c)
    ensures Run(es, c).Stopped? <==> Count(es, 4) > 0
    ensures var p := Run(es, c); p.Running? ==>
      && p.ports == Count(es, 0) && p.modes == Count(es, 1) && p.roots == Count(es, 2) && p.ips == Count(es, 3)
      && (p.wrong <==> LongIp in es)
  {
    if es != [] {
      var n := |es| - 1;
      assert es == es[..n] + [es[n]];
      RunCounts(es[..n], c);
    }
  }

  function RootBuffer(dir: string): string {
    Copied(Zeros(BUFFER_SIZE), dir, BUFFER_SIZE)
  }
  function IpBuffer(host: string): string {
    Copied(Zeros(BUFFER_SIZE), host, BUFFER_SIZE - 1)
  }

  /** The configuration shows what the effect set. */
  ghost predicate Shows(c: Conf, e: Effect) {
    match e
    case Port(n) => c.port == n
    case Mode(m) => c.mode == m
    case Root(dir) => c.rootDir == RootBuffer(dir)
    case Ip(host) => c.ipBuffer == IpBuffer(host)
    case _ => true
  }

  /** `strncpy` of a root that fills its buffer leaves no NUL. */
  lemma LongRootFillsBuffer(dir: string)
    requires |dir| >= 2048
    ensures RootBuffer(dir) == dir[..2048]
  {
  }

  /** A copy that fills the buffer forgets what was there. */
  lemma CopyForgets(buf: string, word: string)
    requires |buf| == BUFFER_SIZE
    ensures Copied(buf, word, BUFFER_SIZE) == RootBuffer(word)
    ensures buf[BUFFER_SIZE - 1] == NUL ==> Copied(buf, word, BUFFER_SIZE - 1) == IpBuffer(word)
  {
  }

  lemma ApplyShows(p: Progress, e: Effect)
    requires p.Running? && IsConf(p.conf) && Apply(p, e).Running?
    ensures Shows(Apply(p, e).conf, e)
    ensures forall e' :: Key(e') != Key(e) && Shows(p.conf, e') ==> Shows(Apply(p, e).conf, e')
  {
    match e {
      case Root(dir) => CopyForgets(p.conf.rootDir, dir);
      case Ip(host) => CopyForgets(p.conf.ipBuffer, host);
      case _ =>
    }
  }

  lemma {:induction false} Settled(es: seq<Effect>, c: Conf, e: Effect)
    requires IsConf(c) && Run(es, c).Running? && e in es && Count(es, Key(e)) == 1
    ensures Shows(Run(es, c).conf, e)
  {
    var n := |es| - 1;
    var init, last := es[..n], es[n];
    assert es == init + [last];
    ApplyShows(Run(init, c), last);
    if last != e {
      CountPositive(init, e);
      Settled(init, c, e);
    }
  }

  ghost predicate EachOnce(es: seq<Effect>, n: int, m: int, dir: string, host: string) {
    |NonBlank(es)| == 4 && Port(n) in es && Mode(m) in es && Root(dir) in es && Ip(host) in es
  }

  function Configured(n: int, m: int, dir: string, host: string): Conf {
    Conf(n, m, RootBuffer(dir), IpBuffer(host))
  }

  /** Each of the four keys once and nothing else: the parse succeeds and shows their values. */
  lemma OnceParses(es: seq<Effect>, c: Conf, n: int, m: int, dir: string, host: string)
    requires IsConf(c) && EachOnce(es, n, m, dir, host)
    ensures Finish(Run(es, c)) == Ok(Configured(n, m, dir, host))
  {
    CountTotal(es);
    CountPositive(es, Port(n));
    CountPositive(es, Mode(m));
    CountPositive(es, Root(dir));
    CountPositive(es, Ip(host));
    if LongIp in es { CountTwo(es, Ip(host), LongIp); }
    RunCounts(es, c);
    Settled(es, c, Port(n));
    Settled(es, c, Mode(m));
    Settled(es, c, Root(dir));
    Settled(es, c, Ip(host));
  }

  /** A successful parse has seen each of the four keys once and otherwise only blank lines. */
  lemma ParsedOnce(es: seq<Effect>, c: Conf)
    requires IsConf(c) && Finish(Run(es, c)).Ok?
    ensures exists n, m, dir, host :: EachOnce(es, n, m, dir, host)
  {
    RunCounts(es, c);
    CountTotal(es);
    var e0 := CountWitness(es, 0);
    var e1 := CountWitness(es, 1);
    var e2 := CountWitness(es, 2);
    var e3 := CountWitness(es, 3);
    assert EachOnce(es, e0.number, e1.mode, e2.dir, e3.host);
  }

  lemma TokenIsPart(s: string, delims: string)
    ensures var t := NextToken(s, delims);
      t.Token? ==> t.text != "" && (forall c :: c in t.text ==> c in s) && (forall c :: c in t.rest ==> c in s)
  {
    SkipStops(s, delims);
  }

  lemma IpIsWord(line: string, host: string)
    requires NUL !in line && LineEffect(line) == Ip(host)
    ensures host != "" && NUL !in host
  {
    TokenIsPart(line, " ");
    var t := NextToken(line, " ");
    var key := KeywordOf(t.text).value;
    var v := NextToken(t.rest, ValueDelims(key));
    TokenIsPart(t.rest, ValueDelims(key));
    IpOnly(key, v.text, host);
  }

  lemma IpOnly(key: Keyword, value: string, host: string)
    requires KeyEffect(key, value) == Ip(host)
    ensures value == host
  {
  }

  /** A successful parse leaves a host that is not empty. */
  lemma ParsedHost(lines: seq<string>, c: Conf)
    requires IsConf(c) && Parse(lines, c).Ok? && forall line :: line in lines ==> NUL !in line
    ensures IsConf(Parse(lines, c).value) && Parse(lines, c).value.ipBuffer[0] != NUL
  {
    var n, m, dir, host := ParsedValues(lines, c);
    var line := LineOf(lines, Ip(host));
    IpIsWord(line, host);
    FirstOfHost(host);
  }

  lemma ParsedValues(lines: seq<string>, c: Conf) returns (n: int, m: int, dir: string, host: string)
    requires IsConf(c) && Parse(lines, c).Ok?
    ensures Parse(lines, c) == Ok(Configured(n, m, dir, host)) && Ip(host) in Effects(lines)
  {
    var es := Effects(lines);
    ParsedOnce(es, c);
    n, m, dir, host :| EachOnce(es, n, m, dir, host);
    OnceParses(es, c, n, m, dir, host);
  }

  lemma FirstOfHost(host: string)
    requires host != ""
    ensures IpBuffer(host)[0] == host[0]
  {
  }

  /** Some line ends the process. */
  ghost predicate Fatal(lines: seq<string>) { exists e :: e in Effects(lines) && e.Stops? }

  lemma StopCounts(es: seq<Effect>)
    ensures Count(es, 4) > 0 <==> exists e :: e in es && e.Stops?
  {
    if Count(es, 4) > 0 { var e := CountWitness(es, 4); }
    forall e | e in es && e.Stops? ensures Count(es, 4) > 0 { CountPositive(es, e); }
  }

  lemma {:induction false} StoppedAt(es: seq<Effect>, c: Conf)
    requires IsConf(c) && Run(es, c).Stopped?
    ensures Stops(Run(es, c).code) in es
  {
    var n := |es| - 1;
    assert es == es[..n] + [es[n]];
    if Run(es[..n], c).Stopped? { StoppedAt(es[..n], c); }
  }

  lemma {:induction false} StoppedWith3(lines: seq<string>, c: Conf)
    requires IsConf(c) && Run(Effects(lines), c).Stopped?
    ensures Run(Effects(lines), c) == Stopped(3)
  {
    var p := Run(Effects(lines), c);
    StoppedAt(Effects(lines), c);
    var line := LineOf(lines, Stops(p.code));
    StopsWith3(line, p.code);
  }

  /** A parse ends the process with code 3 exactly if some line does, and otherwise with code 1 exactly if
      the four keys do not occur once each. */
  lemma ParseExitIff(lines: seq<string>, c: Conf)
    requires IsConf(c)
    ensures Parse(lines, c) == Exit(3) <==> Fatal(lines)
    ensures Parse(lines, c) == Exit(1) <==>
      !Fatal(lines) && !exists n, m, dir, host :: EachOnce(Effects(lines), n, m, dir, host)
  {
    StopCounts(Effects(lines));
    RunCounts(Effects(lines), c);
    if Run(Effects(lines), c).Stopped? { StoppedWith3(lines, c); }
    ParseOkIff(lines, c);
  }

  /** The lines that are not blank. */
  function Written(lines: seq<string>): (r: seq<string>)
    ensures forall line :: line in r <==> line in lines && LineEffect(line) != Blank
  {
    if lines == [] then [] else
      var init, last := lines[..|lines| - 1], lines[|lines| - 1];
      assert lines == init + [last];
      Written(init) + (if LineEffect(last) == Blank then [] else [last])
  }

  lemma {:induction false} WrittenEffects(lines: seq<string>)
    ensures |NonBlank(Effects(lines))| == |Written(lines)|
  {
    if lines != [] {
      assert Effects(lines)[..|lines| - 1] == Effects(lines[..|lines| - 1]);
      WrittenEffects(lines[..|lines| - 1]);
    }
  }

  /** Parsing succeeds exactly when each key occurs once and all other lines are blank. */
  lemma ParseOkIff(lines: seq<string>, c: Conf)
    requires IsConf(c)
    ensures Parse(lines, c).Ok? <==> exists n, m, dir, host :: EachOnce(Effects(lines), n, m, dir, host)
    ensures forall n, m, dir, host :: EachOnce(Effects(lines), n, m, dir, host) ==>
      Parse(lines, c) == Ok(Configured(n, m, dir, host))
  {
    var es := Effects(lines);
    if Parse(lines, c).Ok? {
      ParsedOnce(es, c);
    }
    forall n, m, dir, host | EachOnce(es, n, m, dir, host)
      ensures Parse(lines, c) == Ok(Configured(n, m, dir, host))
    {
      OnceParses(es, c, n, m, dir, host);
    }
  }

  /** Order independence: the same lines in any order, with blank lines anywhere, give the same
      configuration, whatever the two configurations held before. */
  lemma OrderDoesNotMatter(a: seq<string>, b: seq<string>, c: Conf, d: Conf)
    requires IsConf(c) && IsConf(d) && multiset(Written(a)) == multiset(Written(b))
    ensures Parse(a, c).Ok? <==> Parse(b, d).Ok?
    ensures Parse(a, c).Ok? ==> Parse(b, d) == Parse(a, c)
  {
    ParseOkIff(a, c);
    ParseOkIff(b, d);
    SameOnce(a, b);
    SameOnce(b, a);
  }

  lemma SameOnce(a: seq<string>, b: seq<string>)
    requires multiset(Written(a)) == multiset(Written(b))
    ensures forall n, m, dir, host :: EachOnce(Effects(a), n, m, dir, host) ==> EachOnce(Effects(b), n, m, dir, host)
  {
    WrittenEffects(a);
    WrittenEffects(b);
    assert |multiset(Written(a))| == |Written(a)| && |multiset(Written(b))| == |Written(b)|;
    forall e | e in Effects(a) && e != Blank ensures e in Effects(b) {
      SameEffect(a, b, e);
    }
  }

  lemma {:induction false} SameEffect(a: seq<string>, b: seq<string>, e: Effect)
    requires multiset(Written(a)) == multiset(Written(b)) && e in Effects(a) && e != Blank
    ensures e in Effects(b)
  {
    var line := LineOf(a, e);
    SameMember(Written(a), Written(b), line);
    EffectOfLine(b, line);
  }

  lemma {:induction false} LineOf(lines: seq<string>, e: Effect) returns (line: string)
    requires e in Effects(lines)
    ensures line in lines && LineEffect(line) == e
  {
    var i :| 0 <= i < |lines| && Effects(lines)[i] == e;
    line := lines[i];
  }

  lemma {:induction false} EffectOfLine(lines: seq<string>, line: string)
    requires line in lines
    ensures LineEffect(line) in Effects(lines)
  {
    var i :| 0 <= i < |lines| && lines[i] == line;
    assert Effects(lines)[i] == LineEffect(line);
  }

  lemma SameMember(a: seq<string>, b: seq<string>, line: string)
    requires multiset(a) == multiset(b) && line in a
    ensures line in b
  {
    assert line in multiset(a);
  }

  // ---------- reading the file ----------

  /** What `getline` returns, without the line feeds. */
  function RawLines(content: string): seq<string> {
    if content == "" then [] else
      var k := Find(content, LF);
      if k == |content| then [content] else [content[..k]] + RawLines(content[k + 1..])
  }

  function Strip(line: string): string {
    if line != "" && (line[|line| - 1] == '\n' || line[|line| - 1] == '\r') then Strip(line[..|line| - 1]) else line
  }

  /** Line ends are cut off the end of a line, and nothing else is. */
  lemma StripIs(line: string)
    ensures Strip(line + "\r") == Strip(line) == Strip(line + "\n")
    ensures line == "" || (line[|line| - 1] != '\r' && line[|line| - 1] != '\n') ==> Strip(line) == line
  {
    assert (line + "\r")[..|line|] == line == (line + "\n")[..|line|];
  }

  /** The lines that are stored: stripped, and cut at the first NUL by `strdup`. */
  function FileLines(content: string): (lines: seq<string>)
    ensures |lines| == |RawLines(content)|
  {
    seq(|RawLines(content)|, i requires 0 <= i < |RawLines(content)| => CStr(Strip(RawLines(content)[i])))
  }

  /** The inner loop: carriage returns and line feeds are cut off the end. */
  method StripLine(line: string) returns (stripped: string)
    ensures stripped == Strip(line)
  {
    var nchr: nat := |line|;
    assert line[..nchr] == line;
    while nchr > 0 && (line[nchr - 1] == '\n' || line[nchr - 1] == '\r')
      invariant nchr <= |line| && Strip(line[..nchr]) == Strip(line)
    {
      assert line[..nchr][..nchr - 1] == line[..nchr - 1];
      nchr := nchr - 1;
    }
    stripped := line[..nchr];
  }

  /** `realloc` to twice the size. */
  method Double(a: array<string>) returns (b: array<string>)
    ensures fresh(b) && b.Length == 2 * a.Length && forall i :: 0 <= i < a.Length ==> b[i] == a[i]
  {
    b := new string[2 * a.Length](_ => "");
    for i := 0 to a.Length
      invariant forall k :: 0 <= k < i ==> b[k] == a[k]
    {
      b[i] := a[i];
    }
  }

  /** The size of the array after so many doublings. */
  function Capacity(doublings: nat): (n: nat)
    ensures n >= 1024
  {
    if doublings == 0 then 1024 else 2 * Capacity(doublings - 1)
  }

  lemma {:induction false} CapacityGrows(i: nat, j: nat)
    requires i <= j
    ensures Capacity(i) <= Capacity(j)
  {
    if i < j { CapacityGrows(i, j - 1); }
  }

  /** `realloc` grants the doubling after so many. */
  predicate Grants(grow: nat -> bool, doublings: nat) { grow(Capacity(doublings + 1)) }

  /** `realloc` refuses a size that a file of so many lines needs. */
  ghost predicate Refused(lines: nat, grow: nat -> bool) {
    exists j: nat :: Capacity(j) <= lines && !Grants(grow, j)
  }

  ghost predicate Granted(doublings: nat, grow: nat -> bool) {
    forall j: nat :: j < doublings ==> Grants(grow, j)
  }

  lemma NotRefused(lines: nat, doublings: nat, grow: nat -> bool)
    requires lines < Capacity(doublings) && Granted(doublings, grow)
    ensures !Refused(lines, grow)
  {
    forall j: nat | !Grants(grow, j) ensures Capacity(j) > lines {
      CapacityGrows(doublings, j);
    }
  }

  /** A line goes into the array, which doubles when it is full; `grow` says whether `realloc`
      succeeds at a given size.  There is always room for one more line. */
  method Store(a: array<string>, idx: nat, line: string, grow: nat -> bool, ghost doublings: nat)
    returns (ok: bool, b: array<string>, ghost doublings': nat)
    requires idx < a.Length == Capacity(doublings)
    modifies a
    ensures b == a || fresh(b)
    ensures ok <==> idx + 1 < a.Length || grow(2 * a.Length)
    ensures ok ==> b.Length == Capacity(doublings') == if idx + 1 < a.Length then a.Length else 2 * a.Length
    ensures ok ==> idx + 1 < b.Length && b[idx] == line && forall i :: 0 <= i < idx ==> b[i] == old(a[i])
    ensures ok && Granted(doublings, grow) ==> Granted(doublings', grow)
    ensures !ok ==> Refused(idx + 1, grow)
  {
    a[idx] := line;
    doublings' := doublings;
    if idx + 1 < a.Length { return true, a, doublings; }
    assert 2 * a.Length == Capacity(doublings + 1);
    if !grow(2 * a.Length) {
      assert !Grants(grow, doublings);
      return false, a, doublings;
    }
    b := Double(a);
    ok, doublings' := true, doublings + 1;
  }

  /** `getline`, the inner loop and `strdup`: the next line of the file. */
  method TakeLine(rest: string, ghost raw: seq<string>, ghost idx: nat) returns (line: string, rest': string)
    requires rest != "" && idx <= |raw| && raw[idx..] == RawLines(rest)
    ensures idx < |raw| && line == CStr(Strip(raw[idx]))
    ensures raw[idx + 1..] == RawLines(rest') && |rest'| < |rest|
  {
    var k := Find(rest, LF);
    NextRaw(raw, idx, rest);
    var stripped := StripLine(rest[..k]);
    line := CStr(stripped);
    rest' := if k == |rest| then "" else rest[k + 1..];
  }

  /** The reading loop: it fails exactly when `realloc` refuses a size that the file needs. */
  method ReadLines(content: string, grow: nat -> bool) returns (ok: bool, stored: array<string>, idx: nat)
    ensures fresh(stored)
    ensures ok ==> idx < stored.Length && stored[..idx] == FileLines(content)
    ensures !ok <==> Refused(|FileLines(content)|, grow)
  {
    ok, stored, idx := StoreLines(content, grow, RawLines(content), FileLines(content));
  }

  method StoreLines(content: string, grow: nat -> bool, ghost raw: seq<string>, ghost all: seq<string>)
    returns (ok: bool, stored: array<string>, idx: nat)
    requires raw == RawLines(content) && |all| == |raw|
    requires forall i :: 0 <= i < |all| ==> all[i] == CStr(Strip(raw[i]))
    ensures fresh(stored)
    ensures ok ==> idx < stored.Length && stored[..idx] == all
    ensures !ok <==> Refused(|all|, grow)
  {
    stored := new string[1024](_ => "");
    idx := 0;
    var rest := content;
    ghost var doublings: nat := 0;
    while rest != ""
      invariant idx < stored.Length == Capacity(doublings) && fresh(stored)
      invariant idx <= |raw| && raw[idx..] == RawLines(rest)
      invariant forall i :: 0 <= i < idx ==> stored[i] == all[i]
      invariant Granted(doublings, grow)
      decreases |rest|
    {
      var line;
      line, rest := TakeLine(rest, raw, idx);
      ok, stored, doublings := Store(stored, idx, line, grow, doublings);
      idx := idx + 1;
      if !ok {
        RefusedLater(idx, |all|, grow);
        return;
      }
    }
    assert idx == |all|;
    NotRefused(idx, doublings, grow);
    ok := true;
  }

  lemma RefusedLater(lines: nat, more: nat, grow: nat -> bool)
    requires lines <= more && Refused(lines, grow)
    ensures Refused(more, grow)
  {
  }

  lemma NextRaw(raw: seq<string>, i: nat, rest: string)
    requires i <= |raw| && raw[i..] == RawLines(rest) && rest != ""
    ensures i < |raw| && raw[i] == rest[..Find(rest, LF)]
    ensures raw[i + 1..] == RawLines(if Find(rest, LF) == |rest| then "" else rest[Find(rest, LF) + 1..])
  {
    assert raw[i] == raw[i..][0] && raw[i + 1..] == raw[i..][1..];
    var k := Find(rest, LF);
    if k == |rest| { assert rest[..k] == rest; }
  }

  // ---------- conf_parseConfigFile ----------

  datatype Status = Returned(code: int) | Exited(code: int)

  class Configs {
    var port: int
    var mode: int
    const rootDir: array<char>
    const ipBuffer: array<char>

    ghost predicate Valid()
      reads this, rootDir, ipBuffer
    {
      rootDir != ipBuffer && IsConf(Value())
    }

    ghost function Value(): Conf
      reads this, rootDir, ipBuffer
    {
      Conf(port, mode, rootDir[..], ipBuffer[..])
    }

    constructor ()
      ensures Valid() && fresh(rootDir) && fresh(ipBuffer) && ipBuffer[0] == NUL
    {
      port, mode := 0, M_PROCESS;
      rootDir := new char[BUFFER_SIZE](_ => NUL);
      ipBuffer := new char[BUFFER_SIZE](_ => NUL);
    }
  }

  method StrNCpy(buf: array<char>, word: string, n: nat)
    requires n <= buf.Length
    modifies buf
    ensures buf[..] == Copied(old(buf[..]), word, n)
  {
    ghost var before := buf[..];
    for i := 0 to n
      invariant buf[i..] == before[i..]
      invariant forall k :: 0 <= k < i ==> buf[k] == if k < |word| then word[k] else NUL
    {
      buf[i] := if i < |word| then word[i] else NUL;
    }
    assert buf[n..] == before[n..];
    assert buf[..] == buf[..n] + buf[n..];
    assert |word| < n ==> buf[..n] == word + Zeros(n - |word|);
  }

  /** A call of the tokenizer, and the token as a string. */
  method ReadToken(buf: array<char>, str: Option<nat>, delims: string, save: nat)
    returns (text: Option<string>, save': nat)
    requires NUL !in delims && Terminated(buf[..], save) && (str.Some? ==> str.value == save)
    modifies buf
    ensures text == TextOf(NextToken(At(old(buf[..]), save), delims))
    ensures Terminated(buf[..], save') && At(buf[..], save') == RestOf(NextToken(At(old(buf[..]), save), delims))
  {
    ghost var before := buf[..];
    var tok;
    tok, save' := StrtokR(buf, str, delims, save);
    StepIsNextToken(before, save, delims, buf[..], tok, save');
    text := Read(buf, tok);
  }

  /** A line as it is read: no option, an unknown option, or an option with its value. */
  datatype Setting = NoOption | Unknown | Setting(key: Keyword, value: string)

  function EffectOf(o: Setting): Effect {
    match o
    case NoOption => Blank
    case Unknown => Stops(3)
    case Setting(key, value) => KeyEffect(key, value)
  }

  /** `strdup` */
  method Duplicate(line: string) returns (buf: array<char>)
    requires NUL !in line
    ensures fresh(buf) && Terminated(buf[..], 0) && At(buf[..], 0) == line
  {
    buf := new char[|line| + 1](i => if 0 <= i < |line| then line[i] else NUL);
    assert buf[..] == line + [NUL];
    EndIs(buf[..], 0, |line|);
  }

  /** The option of a line, cut out of a copy of it in place.  The delimiter changes from a space
      to a quote for the two quoted options. */
  method ReadOption(line: string) returns (o: Setting)
    requires NUL !in line && HasValue(line)
    ensures EffectOf(o) == LineEffect(line)
  {
    var buf := Duplicate(line);
    var text, save := ReadToken(buf, Some(0), " ", 0);
    if text == None { return NoOption; }
    var key := KeywordOf(text.value);
    if key == None { return Unknown; }
    var value;
    value, save := ReadToken(buf, None, ValueDelims(key.value), save);
    o := Setting(key.value, value.value);
  }

  /** The value goes into the configuration. */
  method SetOption(config: Configs, key: Keyword, value: string) returns (exit: Option<int>, long: bool)
    requires config.Valid()
    modifies config, config.rootDir, config.ipBuffer
    ensures match KeyEffect(key, value)
      case Stops(code) => exit == Some(code)
      case e => exit == None && config.Valid() && (long <==> e == LongIp)
                && config.Value() == Assigned(old(config.Value()), e)
  {
    exit, long := None, false;
    match key {
      case KeyPort =>
        match PortOf(value) {
          case Exit(code) => exit := Some(code);
          case Ok(n) => config.port := n;
        }
      case KeyMode =>
        match ModeOf(value) {
          case Exit(code) => exit := Some(code);
          case Ok(m) => config.mode := m;
        }
      case KeyRoot =>
        StrNCpy(config.rootDir, value, BUFFER_SIZE);
      case KeyIp =>
        if |value| > BUFFER_SIZE - 1 {
          long := true;
        } else {
          StrNCpy(config.ipBuffer, value, BUFFER_SIZE - 1);
        }
    }
  }

  datatype Counts = Counts(ports: nat, modes: nat, roots: nat, ips: nat, wrong: bool)

  function Tally(n: Counts, c: Conf): Progress {
    Running(n.ports, n.modes, n.roots, n.ips, n.wrong, c)
  }

  /** What a line does to the counts and the configuration. */
  method ApplyOption(o: Setting, config: Configs, n: Counts) returns (exit: Option<int>, n': Counts)
    requires config.Valid()
    modifies config, config.rootDir, config.ipBuffer
    ensures exit.Some? ==> EffectOf(o) == Stops(exit.value)
    ensures exit.None? ==> config.Valid()
    ensures exit.None? ==> Apply(Tally(n, old(config.Value())), EffectOf(o)) == Tally(n', config.Value())
  {
    exit, n' := None, n;
    match o {
      case NoOption =>
      case Unknown => exit := Some(3);
      case Setting(key, value) =>
        var long;
        ghost var before := config.Value();
        exit, long := SetOption(config, key, value);
        if exit.Some? { return; }
        CountOption(Tally(n, before), key, value);
        match key {
          case KeyPort => n' := n'.(ports := n.ports + 1);
          case KeyMode => n' := n'.(modes := n.modes + 1);
          case KeyRoot => n' := n'.(roots := n.roots + 1);
          case KeyIp => n' := n'.(ips := n.ips + 1);
        }
        n' := n'.(wrong := n.wrong || long);
    }
  }

  /** One turn of the loop over the lines. */
  method ParseLine(line: string, config: Configs, n: Counts) returns (exit: Option<int>, n': Counts)
    requires NUL !in line && HasValue(line) && config.Valid()
    modifies config, config.rootDir, config.ipBuffer
    ensures exit.Some? ==> LineEffect(line) == Stops(exit.value)
    ensures exit.None? ==> config.Valid()
    ensures exit.None? ==> Apply(Tally(n, old(config.Value())), LineEffect(line)) == Tally(n', config.Value())
  {
    var o := ReadOption(line);
    exit, n' := ApplyOption(o, config, n);
  }

  /** conf_parseConfigFile on a file that opens.  When it returns 0 the configuration has been
      replaced; when `realloc` fails it returns -1; otherwise the process ends. */
  method ParseConfigFile(content: string, config: Configs, grow: nat -> bool) returns (status: Status)
    requires config.Valid()
    requires forall line :: line in FileLines(content) ==> HasValue(line)
    modifies config, config.rootDir, config.ipBuffer
    ensures status == Returned(-1) <==> Refused(|FileLines(content)|, grow)
    ensures status == Returned(-1) ==> config.Valid() && config.Value() == old(config.Value())
    ensures status != Returned(-1) ==>
      match Parse(FileLines(content), old(config.Value()))
      case Ok(c) => status == Returned(0) && config.Valid() && config.Value() == c
      case Exit(code) => status == Exited(code)
  {
    var ok, stored, idx := ReadLines(content, grow);
    if !ok { return Returned(-1); }
    ghost var lines := FileLines(content);
    ghost var es, start := Effects(lines), config.Value();
    var n := Counts(0, 0, 0, 0, false);
    for it := 0 to idx
      invariant config.Valid() && stored[..idx] == lines
      invariant Run(es[..it], start) == Tally(n, config.Value())
    {
      RunStep(es, it, start);
      assert stored[it] == stored[..idx][it] && lines[it] in lines;
      var exit;
      exit, n := ParseLine(stored[it], config, n);
      if exit.Some? {
        StopsHere(es, it, start, exit.value);
        return Exited(exit.value);
      }
    }
    assert es[..idx] == es;
    if !(n.ips == 1 && n.modes == 1 && n.ports == 1 && n.roots == 1 && !n.wrong) {
      return Exited(1);
    }
    status := Returned(0);
  }

  lemma CountOption(p: Progress, key: Keyword, value: string)
    requires p.Running? && IsConf(p.conf) && !KeyEffect(key, value).Stops?
    ensures Apply(p, KeyEffect(key, value)) == Running(
      p.ports + (if key.KeyPort? then 1 else 0), p.modes + (if key.KeyMode? then 1 else 0),
      p.roots + (if key.KeyRoot? then 1 else 0), p.ips + (if key.KeyIp? then 1 else 0),
      p.wrong || KeyEffect(key, value) == LongIp, Assigned(p.conf, KeyEffect(key, value)))
  {
  }

  lemma RunStep(es: seq<Effect>, k: nat, c: Conf)
    requires IsConf(c) && k < |es|
    ensures Run(es[..k + 1], c) == Apply(Run(es[..k], c), es[k])
  {
    assert es[..k + 1][..k] == es[..k];
  }

  /** After a line that stops the process no later line changes the result. */
  lemma StopsHere(es: seq<Effect>, k: nat, c: Conf, code: int)
    requires IsConf(c) && k < |es| && Run(es[..k], c).Running? && es[k] == Stops(code)
    ensures Run(es, c) == Stopped(code)
  {
    StopsFrom(es, k, |es|, c, code);
    assert es[..|es|] == es;
  }

  lemma NextStops(es: seq<Effect>, n: nat, c: Conf, code: int)
    requires IsConf(c) && n < |es|
    requires Run(es[..n], c) == Stopped(code) || (Run(es[..n], c).Running? && es[n] == Stops(code))
    ensures Run(es[..n + 1], c) == Stopped(code)
  {
    RunStep(es, n, c);
  }

  lemma {:induction false} StopsFrom(es: seq<Effect>, k: nat, n: nat, c: Conf, code: int)
    requires IsConf(c) && k < n <= |es| && Run(es[..k], c).Running? && es[k] == Stops(code)
    ensures Run(es[..n], c) == Stopped(code)
  {
    if k < n - 1 { StopsFrom(es, k, n - 1, c, code); }
    NextStops(es, n - 1, c, code);
  }

  // ---------- the round trip ----------

  function Join(lines: seq<string>): string {
    if lines == [] then "" else lines[0] + "\n" + Join(lines[1..])
  }

  ghost predicate IsLine(line: string) {
    NUL !in line && LF !in line && '\r' !in line
  }

  lemma StripLineIs(line: string)
    requires IsLine(line)
    ensures CStr(Strip(line)) == line
  {
    assert line != "" ==> line[|line| - 1] in line;
    CStrIs(line, line);
  }

  lemma FirstRaw(line: string, rest: string)
    requires LF !in line
    ensures RawLines(line + "\n" + rest) == [line] + RawLines(rest)
  {
    var file, k := line + "\n" + rest, |line|;
    assert file[..k] == line && file[k] == LF && file[k + 1..] == rest;
    FindIs(file, LF, k);
  }

  /** How line ends are read: a line feed or CR LF ends a line, and the end of the file ends the last. */
  lemma LineEndsAreRead(line: string, rest: string)
    requires IsLine(line)
    ensures FileLines(line + "\n" + rest) == [line] + FileLines(rest)
    ensures FileLines((line + "\r") + "\n" + rest) == [line] + FileLines(rest)
    ensures FileLines(line) == if line == "" then [] else [line]
  {
    StripLineIs(line);
    FirstFileLine(line, line, rest);
    StripIs(line);
    FirstFileLine(line + "\r", line, rest);
    NoLineFeed(line);
  }

  lemma FirstFileLine(raw: string, line: string, rest: string)
    requires LF !in raw && CStr(Strip(raw)) == line
    ensures FileLines(raw + "\n" + rest) == [line] + FileLines(rest)
  {
    FirstRaw(raw, rest);
    LinesOfRaw(raw + "\n" + rest, raw, rest);
  }

  lemma LinesOfRaw(content: string, raw: string, rest: string)
    requires RawLines(content) == [raw] + RawLines(rest)
    ensures FileLines(content) == [CStr(Strip(raw))] + FileLines(rest)
  {
  }

  lemma NoLineFeed(line: string)
    requires LF !in line
    ensures RawLines(line) == if line == "" then [] else [line]
  {
    FindIs(line, LF, |line|);
  }

  /** A file made of lines is read as those lines. */
  lemma {:induction false} FileLinesOfJoin(lines: seq<string>)
    requires forall i :: 0 <= i < |lines| ==> IsLine(lines[i])
    ensures FileLines(Join(lines)) == lines
  {
    RawLinesOfJoin(lines);
    forall i | 0 <= i < |lines| ensures CStr(Strip(lines[i])) == lines[i] {
      StripLineIs(lines[i]);
    }
  }

  lemma {:induction false} RawLinesOfJoin(lines: seq<string>)
    requires forall i :: 0 <= i < |lines| ==> IsLine(lines[i])
    ensures RawLines(Join(lines)) == lines
  {
    if lines != [] {
      RawLinesOfJoin(lines[1..]);
      FirstRaw(lines[0], Join(lines[1..]));
    }
  }

  lemma NameIsKeyword(key: Keyword)
    ensures KeywordOf(NameOf(key)) == Some(key)
  {
    assert "port"[0] != "mode_concurrency"[0] && "root_dir"[0] != "external_ip"[0];
  }

  lemma NameIsWord(key: Keyword)
    ensures NameOf(key) != "" && ' ' !in NameOf(key) && IsLine(NameOf(key))
  {
    match key {
      case KeyPort => PortIsWord();
      case KeyMode => ModeIsWord();
      case KeyRoot => RootIsWord();
      case KeyIp => IpNameIsWord();
    }
  }

  ghost predicate IsWord(s: string) { s != "" && ' ' !in s && IsLine(s) }

  lemma PortIsWord()
    ensures IsWord("port")
  {
  }

  lemma ModeIsWord()
    ensures IsWord("mode_concurrency")
  {
  }

  lemma RootIsWord()
    ensures IsWord("root_dir")
  {
  }

  lemma IpNameIsWord()
    ensures IsWord("external_ip")
  {
  }

  /** The line of an option: its name, a space, and a text in which the value is found. */
  function OptionLine(key: Keyword, text: string): string {
    NameOf(key) + " " + text
  }

  lemma OptionLineEffect(key: Keyword, text: string, value: string)
    requires NextToken(text, ValueDelims(key)).Token? && NextToken(text, ValueDelims(key)).text == value
    requires IsLine(text)
    ensures LineEffect(OptionLine(key, text)) == KeyEffect(key, value)
    ensures HasValue(OptionLine(key, text)) && IsLine(OptionLine(key, text))
  {
    NameIsKeyword(key);
    NameIsWord(key);
    NamedLine(NameOf(key), key, text, value);
  }

  lemma NamedLine(name: string, key: Keyword, text: string, value: string)
    requires name != "" && ' ' !in name && KeywordOf(name) == Some(key)
    requires NextToken(text, ValueDelims(key)).Token? && NextToken(text, ValueDelims(key)).text == value
    ensures LineEffect(name + " " + text) == KeyEffect(key, value) && HasValue(name + " " + text)
  {
    FirstWord(name, text);
  }

  lemma FirstWord(name: string, text: string)
    requires name != "" && ' ' !in name
    ensures NextToken(name + " " + text, " ") == Token(0, name, text)
  {
    var line := name + " " + text;
    assert forall i :: 0 <= i < |name| ==> line[i] == name[i] && line[i] in name;
    NextTokenIs(line, " ", 0, |name|);
    assert line[0..|name|] == name && line[|name| + 1..] == text;
  }

  /** A text that no delimiter interrupts is its own token. */
  lemma WholeToken(text: string, delims: string)
    requires text != "" && forall c :: c in text ==> c !in delims
    ensures NextToken(text, delims) == Token(0, text, "")
  {
    NextTokenIs(text, delims, 0, |text|);
  }

  lemma QuotedToken(dir: string)
    requires dir != "" && '"' !in dir
    ensures NextToken("\"" + dir + "\"", "\"") == Token(1, dir, "")
    ensures IsLine(dir) ==> IsLine("\"" + dir + "\"")
  {
    var text := "\"" + dir + "\"";
    assert forall i :: 1 <= i < |text| - 1 ==> text[i] == dir[i - 1] && text[i] in dir;
    NextTokenIs(text, "\"", 1, |text| - 1);
  }

  /** A value that fits its buffer and needs no escape; spaces are allowed. */
  ghost predicate IsValue(s: string) {
    IsLine(s) && '"' !in s && 1 <= |s| < BUFFER_SIZE
  }

  // The lines as an administrator writes them.

  function PortLine(port: nat): string { "port " + Decimal(port) }
  function ModeLine(mode: int): string { if mode == 1 then "mode_concurrency Thread" else "mode_concurrency Process" }
  function RootLine(dir: string): string { "root_dir \"" + dir + "\"" }
  function IpLine(host: string): string { "external_ip " + host }

  ghost predicate Means(line: string, e: Effect) {
    LineEffect(line) == e && HasValue(line) && IsLine(line)
  }

  lemma Spaced(name: string, rest: string)
    ensures (name + " ") + rest == name + " " + rest
  {
  }

  lemma PortLineMeans(port: nat)
    requires port <= 65535
    ensures Means(PortLine(port), Port(port))
  {
    WholeToken(Decimal(port), " ");
    PortAcceptedIff(port);
    OptionLineEffect(KeyPort, Decimal(port), Decimal(port));
    assert "port " == "port" + " ";
    Spaced("port", Decimal(port));
  }

  lemma ModeLineMeans(mode: int)
    requires mode == 0 || mode == 1
    ensures Means(ModeLine(mode), Mode(mode))
  {
    if mode == 1 {
      ModeWord("Thread");
      WordMeans("Thread", 1);
      ThreadLineIs();
    } else {
      ModeWord("Process");
      WordMeans("Process", 0);
      ProcessLineIs();
    }
  }

  lemma ThreadLineIs()
    ensures "mode_concurrency Thread" == "mode_concurrency" + " " + "Thread"
  {
  }

  lemma ProcessLineIs()
    ensures "mode_concurrency Process" == "mode_concurrency" + " " + "Process"
  {
  }

  lemma WordMeans(word: string, mode: int)
    requires word != "" && ' ' !in word && IsLine(word) && ModeOf(word) == Ok(mode)
    ensures Means("mode_concurrency" + " " + word, Mode(mode))
  {
    WholeToken(word, " ");
    OptionLineEffect(KeyMode, word, word);
  }

  /** The two modes are told by their names; every other word ends the process. */
  lemma ModeWord(word: string)
    ensures word == "Thread" ==> ModeOf(word) == Ok(1) && word != "" && ' ' !in word && IsLine(word)
    ensures word == "Process" ==> ModeOf(word) == Ok(0) && word != "" && ' ' !in word && IsLine(word)
    ensures word != "Thread" && word != "Process" ==> ModeOf(word) == Exit(3)
  {
    assert "Thread"[0] != "Process"[0];
  }

  lemma RootLineMeans(dir: string)
    requires IsValue(dir)
    ensures Means(RootLine(dir), Root(dir))
  {
    var text := "\"" + dir + "\"";
    QuotedToken(dir);
    OptionLineEffect(KeyRoot, text, dir);
    RootLineIs(dir);
  }

  lemma RootLineIs(dir: string)
    ensures RootLine(dir) == "root_dir" + " " + ("\"" + dir + "\"")
  {
    assert "root_dir \"" == "root_dir" + " " + "\"";
  }

  lemma IpLineMeans(host: string)
    requires IsValue(host)
    ensures Means(IpLine(host), Ip(host))
  {
    WholeToken(host, "\"");
    OptionLineEffect(KeyIp, host, host);
    assert "external_ip " == "external_ip" + " ";
    Spaced("external_ip", host);
  }

  /** A host that does not fit its buffer marks the file as wrong. */
  lemma LongHostIsWrong(host: string)
    requires IsLine(host) && '"' !in host && |host| >= 2048
    ensures Means(IpLine(host), LongIp)
  {
    WholeToken(host, "\"");
    OptionLineEffect(KeyIp, host, host);
    assert "external_ip " == "external_ip" + " ";
    Spaced("external_ip", host);
  }

  /** A line without a word is blank, and any first word but the four names ends the process. */
  lemma OtherLines(line: string)
    ensures var t := NextToken(line, " ");
      && (t.NoToken? ==> LineEffect(line) == Blank)
      && (t.Token? && t.text !in {"port", "mode_concurrency", "root_dir", "external_ip"} ==>
            LineEffect(line) == Stops(3))
  {
  }

  /** Spaces before a word do not count. */
  lemma LeadingSpaces(text: string)
    ensures LineEffect(" " + text) == LineEffect(text)
    ensures SameWord(NextToken(" " + text, " "), NextToken(text, " "))
  {
    SpaceBefore(text);
  }

  predicate SameWord(t: Token, u: Token) {
    if u.NoToken? then t.NoToken? else t.Token? && t.text == u.text && t.rest == u.rest
  }

  lemma SpaceBefore(text: string)
    ensures SameWord(NextToken(" " + text, " "), NextToken(text, " "))
  {
    var s, n := " " + text, Skip(text, " ");
    assert s[1..] == text && Skip(s, " ") == 1 + n;
    assert s[1 + n..] == text[n..];
  }

  /** What follows the value of a port or a mode after a space, or the value of a root or a host after a
      quote, does not count. */
  lemma RestIsIgnored(word: string, text: string, rest: string)
    requires word != "" && ' ' !in word && text != "" && '"' !in text
    ensures LineEffect("port " + word + " " + rest) == LineEffect("port " + word)
    ensures LineEffect("mode_concurrency " + word + " " + rest) == LineEffect("mode_concurrency " + word)
    ensures LineEffect("root_dir \"" + text + "\"" + rest) == Root(text)
    ensures LineEffect("external_ip " + text + "\"" + rest) == LineEffect("external_ip " + text)
  {
    NameIsKeyword(KeyPort);
    NameIsKeyword(KeyMode);
    PortIsWord();
    ModeIsWord();
    WordLine("port", KeyPort, word, rest);
    WordLine("mode_concurrency", KeyMode, word, rest);
    assert "port " == "port" + " ";
    ModeText();
    QuotedLine(text, rest);
    HostLine(text, rest);
  }

  lemma WordLine(name: string, key: Keyword, word: string, rest: string)
    requires name != "" && ' ' !in name && KeywordOf(name) == Some(key) && ValueDelims(key) == " "
    requires word != "" && ' ' !in word
    ensures LineEffect((name + " ") + word + " " + rest) == LineEffect((name + " ") + word)
  {
    FirstWord(word, rest);
    WholeToken(word, " ");
    NamedLine(name, key, word + " " + rest, word);
    NamedLine(name, key, word, word);
    ThreeParts(name, word, " ", rest);
  }

  lemma ThreeParts(name: string, text: string, separator: string, rest: string)
    ensures (name + " ") + text == name + " " + text
    ensures (name + " ") + text + separator + rest == name + " " + (text + separator + rest)
  {
    assert name + " " + (text + separator + rest) == (name + " ") + (text + separator) + rest;
  }

  lemma QuotedLine(text: string, rest: string)
    requires text != "" && '"' !in text
    ensures LineEffect("root_dir \"" + text + "\"" + rest) == Root(text)
  {
    QuotedStart(text, rest);
    NameIsKeyword(KeyRoot);
    RootIsWord();
    NamedLine("root_dir", KeyRoot, "\"" + text + "\"" + rest, text);
    RootLineIs(text);
    Associate("root_dir" + " ", "\"" + text + "\"", rest);
  }

  lemma QuotedStart(text: string, rest: string)
    requires text != "" && '"' !in text
    ensures NextToken("\"" + text + "\"" + rest, "\"") == Token(1, text, rest)
  {
    var s := "\"" + text + "\"" + rest;
    assert forall i :: 1 <= i < |text| + 1 ==> s[i] == text[i - 1] && text[i - 1] in text;
    NextTokenIs(s, "\"", 1, |text| + 1);
    assert s[1..|text| + 1] == text && s[|text| + 2..] == rest;
  }

  lemma HostLine(text: string, rest: string)
    requires text != "" && '"' !in text
    ensures LineEffect("external_ip " + text + "\"" + rest) == LineEffect("external_ip " + text)
  {
    HostToken(text, rest);
    NameIsKeyword(KeyIp);
    IpNameIsWord();
    NamedLine("external_ip", KeyIp, text + "\"" + rest, text);
    NamedLine("external_ip", KeyIp, text, text);
    IpText();
    ThreeParts("external_ip", text, "\"", rest);
  }

  lemma HostToken(text: string, rest: string)
    requires text != "" && '"' !in text
    ensures NextToken(text + "\"" + rest, "\"") == Token(0, text, rest) && NextToken(text, "\"") == Token(0, text, "")
  {
    var s := text + "\"" + rest;
    assert forall i :: 0 <= i < |text| ==> s[i] == text[i] && text[i] in text;
    NextTokenIs(s, "\"", 0, |text|);
    assert s[0..|text|] == text && s[|text| + 1..] == rest;
    WholeToken(text, "\"");
  }

  lemma ModeText()
    ensures "mode_concurrency " == "mode_concurrency" + " "
  {
  }

  lemma IpText()
    ensures "external_ip " == "external_ip" + " "
  {
  }

  /** A quoted port ends the process. */
  lemma QuotedPortStops(rest: string)
    ensures LineEffect("port \"" + rest) == Stops(3)
  {
    var s := "\"" + rest;
    QuotedIsNoPort(s);
    NameIsKeyword(KeyPort);
    PortIsWord();
    NamedLine("port", KeyPort, s, NextToken(s, " ").text);
    assert "port \"" == "port" + " " + "\"";
    Associate("port" + " ", "\"", rest);
  }

  lemma QuotedIsNoPort(s: string)
    requires s != "" && s[0] == '"'
    ensures NextToken(s, " ").Token? && PortOf(NextToken(s, " ").text) == Exit(3)
  {
    StartsToken(s);
    var word := NextToken(s, " ").text;
    OtherTextIsRejected('"', word[1..]);
    assert word == ['"'] + word[1..];
  }

  lemma StartsToken(s: string)
    requires s != "" && s[0] != ' '
    ensures var t := NextToken(s, " "); t.Token? && t.text != "" && t.text[0] == s[0]
  {
    assert s[0..] == s;
  }

  /** A process that a line ends, ends with code 3. */
  lemma StopsWith3(line: string, code: int)
    requires LineEffect(line) == Stops(code)
    ensures code == 3
  {
    var t := NextToken(line, " ");
    if t.Token? && KeywordOf(t.text).Some? {
      var key := KeywordOf(t.text).value;
      var v := NextToken(t.rest, ValueDelims(key));
      if v.Token? { KeyStopsWith3(key, v.text); }
    }
  }

  lemma KeyStopsWith3(key: Keyword, value: string)
    ensures KeyEffect(key, value).Stops? ==> KeyEffect(key, value) == Stops(3)
  {
    PortStopsWith3(value);
    ModeWord(value);
  }

  lemma PortStopsWith3(value: string)
    ensures PortOf(value).Exit? ==> PortOf(value) == Exit(3)
  {
    assert StrToInt(value).Exit? ==> StrToInt(value) == Exit(3);
  }

  /** A value is the C string of the buffer it was copied to. */
  lemma BufferShowsValue(value: string)
    requires IsValue(value)
    ensures CStr(RootBuffer(value)) == value && CStr(IpBuffer(value)) == value
  {
    CStrIs(RootBuffer(value), value);
    CStrIs(IpBuffer(value), value);
  }

  /** What the rest of the program reads out of a configuration. */
  predicate ReadsAs(c: Conf, port: int, mode: int, dir: string, host: string) {
    c.port == port && c.mode == mode && CStr(c.rootDir) == dir && CStr(c.ipBuffer) == host
  }

  /** Configuration round trip: a file with the four lines in any order and blank lines anywhere
      parses to the values it was printed from, whatever the configuration held before. */
  lemma ConfigRoundTrip(lines: seq<string>, port: nat, mode: int, dir: string, host: string, c: Conf)
    requires port <= 65535 && (mode == 1 || mode == 0) && IsValue(dir) && IsValue(host) && IsConf(c)
    requires forall i :: 0 <= i < |lines| ==> IsLine(lines[i])
    requires multiset(Written(lines)) ==
             multiset{PortLine(port), ModeLine(mode), RootLine(dir), IpLine(host)}
    ensures Parse(FileLines(Join(lines)), c) == Ok(Configured(port, mode, dir, host))
    ensures ReadsAs(Configured(port, mode, dir, host), port, mode, dir, host)
  {
    FileLinesOfJoin(lines);
    BufferShowsValue(dir);
    BufferShowsValue(host);
    PortLineMeans(port);
    ModeLineMeans(mode);
    RootLineMeans(dir);
    IpLineMeans(host);
    FourLinesParse(lines, port, mode, dir, host, c, PortLine(port), ModeLine(mode), RootLine(dir), IpLine(host));
  }

  /** A configuration file as an administrator would write it. */
  function Printed(port: nat, mode: int, dir: string, host: string): string {
    Join([PortLine(port), ModeLine(mode), RootLine(dir), IpLine(host)])
  }

  lemma WrittenSnoc(init: seq<string>, line: string)
    requires LineEffect(line) != Blank
    ensures Written(init + [line]) == Written(init) + [line]
  {
    assert (init + [line])[..|init|] == init;
  }

  lemma WrittenFour(a: string, b: string, d: string, e: string)
    requires LineEffect(a) != Blank && LineEffect(b) != Blank && LineEffect(d) != Blank && LineEffect(e) != Blank
    ensures Written([a, b, d, e]) == [a, b, d, e]
  {
    FourAreSnocs(a, b, d, e);
    WrittenSnoc([], a);
    WrittenSnoc([a], b);
    WrittenSnoc([a, b], d);
    WrittenSnoc([a, b, d], e);
  }

  lemma FourAreSnocs<T>(a: T, b: T, d: T, e: T)
    ensures [] + [a] == [a] && [a] + [b] == [a, b] && [a, b] + [d] == [a, b, d] && [a, b, d] + [e] == [a, b, d, e]
  {
  }

  lemma FourLinesRead(a: string, b: string, d: string, e: string)
    requires IsLine(a) && IsLine(b) && IsLine(d) && IsLine(e)
    ensures FileLines(Join([a, b, d, e])) == [a, b, d, e]
  {
    FileLinesOfJoin([a, b, d, e]);
  }

  lemma FourLinesInOrder(a: string, b: string, d: string, e: string, n: int, m: int, dir: string, host: string, c: Conf)
    requires IsConf(c) && Means(a, Port(n)) && Means(b, Mode(m)) && Means(d, Root(dir)) && Means(e, Ip(host))
    ensures Parse(FileLines(Join([a, b, d, e])), c) == Ok(Configured(n, m, dir, host))
  {
    var lines := [a, b, d, e];
    FourLinesRead(a, b, d, e);
    WrittenFour(a, b, d, e);
    FourLinesParse(lines, n, m, dir, host, c, a, b, d, e);
  }

  /** In particular, printing a configuration and parsing it gives it back. */
  lemma PrintThenParse(port: nat, mode: int, dir: string, host: string, c: Conf)
    requires port <= 65535 && (mode == 1 || mode == 0) && IsValue(dir) && IsValue(host) && IsConf(c)
    ensures Parse(FileLines(Printed(port, mode, dir, host)), c) == Ok(Configured(port, mode, dir, host))
    ensures ReadsAs(Configured(port, mode, dir, host), port, mode, dir, host)
  {
    BufferShowsValue(dir);
    BufferShowsValue(host);
    PortLineMeans(port);
    ModeLineMeans(mode);
    RootLineMeans(dir);
    IpLineMeans(host);
    FourLinesInOrder(PortLine(port), ModeLine(mode), RootLine(dir), IpLine(host), port, mode, dir, host, c);
  }

  ghost predicate FourLines(lines: seq<string>, n: int, m: int, dir: string, host: string,
                            a: string, b: string, d: string, e: string) {
    && multiset(Written(lines)) == multiset{a, b, d, e}
    && LineEffect(a) == Port(n) && LineEffect(b) == Mode(m) && LineEffect(d) == Root(dir) && LineEffect(e) == Ip(host)
  }

  lemma FourLinesParse(lines: seq<string>, n: int, m: int, dir: string, host: string, c: Conf,
                       a: string, b: string, d: string, e: string)
    requires IsConf(c) && FourLines(lines, n, m, dir, host, a, b, d, e)
    ensures Parse(lines, c) == Ok(Configured(n, m, dir, host))
  {
    EffectPresent(lines, a);
    EffectPresent(lines, b);
    EffectPresent(lines, d);
    EffectPresent(lines, e);
    WrittenEffects(lines);
    assert |Written(lines)| == |multiset(Written(lines))| == 4;
    OnceParses(Effects(lines), c, n, m, dir, host);
  }

  lemma EffectPresent(lines: seq<string>, line: string)
    requires line in multiset(Written(lines))
    ensures LineEffect(line) in Effects(lines)
  {
    assert line in Written(lines);
    var i :| 0 <= i < |lines| && lines[i] == line;
    assert Effects(lines)[i] == LineEffect(line);
  }
}
