/** linux/lib/socket/linux_socket.c: sending a file, and keeping the log file from being served. */
module LinuxSocket {
  import opened CStrings
  import opened Utils

  // ---------- l_sendFile and linux_sendFile ----------

  const CHUNK: nat := 512

  /** How a send turns out: it fails, or it takes up to so many bytes, at least one. */
  type Willing = nat -> Option<nat>

  ghost predicate Positive(willing: Willing) {
    forall i :: willing(i).Some? ==> willing(i).value >= 1
  }

  function Min(a: nat, b: nat): nat { if a < b then a else b }

  /** The client's end of the connection. */
  class Client {
    var received: string

    constructor ()
      ensures received == ""
    {
      received := "";
    }

    /** `send(fd, buffer, size, 0)` */
    method Send(buffer: array<char>, size: nat, accepts: Option<nat>) returns (ret: int)
      requires size <= buffer.Length
      modifies this
      ensures accepts.None? ==> ret == -1 && received == old(received)
      ensures accepts.Some? ==> ret == Min(accepts.value, size) && received == old(received) + buffer[..ret]
    {
      if accepts.None? { return -1; }
      var n := Min(accepts.value, size);
      received := received + buffer[..n];
      ret := n;
    }
  }

  /** How many of `left` bytes l_sendFile gets through from the i-th send on, and how many sends it makes. */
  function Chunked(left: nat, willing: Willing, i: nat): (r: (nat, nat))
    ensures r.0 <= left
  {
    if left == 0 then (0, 0) else
    match willing(i)
    case None => (0, 1)
    case Some(k) =>
      var n := Min(k, Min(CHUNK, left));
      if n == 0 then (0, 1) else
      var (through, sends) := Chunked(left - n, willing, i + 1);
      (n + through, 1 + sends)
  }

  /** The whole message gets through exactly when none of the sends fails, and it takes no more sends
      than there are bytes; a message is short of its end only because the last send failed. */
  lemma {:induction false} ChunkedDeliversIff(left: nat, willing: Willing, i: nat)
    requires Positive(willing)
    ensures var (through, sends) := Chunked(left, willing, i);
      && sends <= left
      && (through == left <==> forall j :: i <= j < i + sends ==> willing(j).Some?)
      && (through < left ==> sends > 0 && willing(i + sends - 1).None?)
  {
    if left > 0 && willing(i).Some? {
      var n := Min(willing(i).value, Min(CHUNK, left));
      ChunkedDeliversIff(left - n, willing, i + 1);
    }
  }

  /** When every send takes all it is offered, the chunks deliver what the single send delivers. */
  lemma {:induction false} ChunksEqualOneSend(left: nat, willing: Willing, i: nat)
    requires forall j :: willing(j).Some? && willing(j).value >= CHUNK
    ensures Chunked(left, willing, i).0 == left
    ensures Chunked(left, willing, i).1 == (left + 511) / 512
  {
    if left > 0 { ChunksEqualOneSend(left - Min(CHUNK, left), willing, i + 1); }
  }

  method MemCpy(buffer: array<char>, message: string, from: nat, n: nat)
    requires from + n <= |message| && n <= buffer.Length
    modifies buffer
    ensures buffer[..n] == message[from..from + n]
  {
    for i := 0 to n
      invariant buffer[..i] == message[from..from + i]
    {
      buffer[i] := message[from + i];
    }
  }

  /** What one send of l_sendFile contributes. */
  lemma ChunkedStep(left: nat, willing: Willing, i: nat, n: nat)
    requires Positive(willing) && left > 0 && willing(i).Some? && n == Min(willing(i).value, Min(CHUNK, left))
    ensures 1 <= n <= left
    ensures Chunked(left, willing, i).0 == n + Chunked(left - n, willing, i + 1).0
    ensures Chunked(left, willing, i).1 == 1 + Chunked(left - n, willing, i + 1).1
  {
  }

  lemma Grow(base: string, message: string, p: nat, n: nat)
    requires p + n <= |message|
    ensures base + message[..p] + message[p..p + n] == base + message[..p + n]
  {
  }

  lemma Beginning(piece: string, message: string, p: nat, chunk: nat, n: nat)
    requires n <= chunk == |piece| && p + chunk <= |message| && piece == message[p..p + chunk]
    ensures piece[..n] == message[p..p + n]
  {
  }

  /** l_sendFile: the client receives a beginning of the message. */
  method LSendFile(client: Client, message: string, willing: Willing) returns (ghost sends: nat)
    requires Positive(willing)
    modifies client
    ensures client.received == old(client.received) + message[..Chunked(|message|, willing, 0).0]
    ensures sends == Chunked(|message|, willing, 0).1
  {
    var buffer := new char[BUFFER_SIZE];
    var position: nat, left: nat, i: nat := 0, |message|, 0;
    ghost var base := client.received;
    assert base + message[..0] == base;
    while left > 0
      invariant position + left == |message|
      invariant client.received == base + message[..position]
      invariant Chunked(|message|, willing, 0).0 == position + Chunked(left, willing, i).0
      invariant Chunked(|message|, willing, 0).1 == i + Chunked(left, willing, i).1
      decreases left
    {
      var size := if left > CHUNK then CHUNK else left;
      MemCpy(buffer, message, position, size);
      ghost var piece := buffer[..size];
      var n := client.Send(buffer, size, willing(i));
      if n == -1 { return i + 1; }
      ChunkedStep(left, willing, i, n);
      i := i + 1;
      Beginning(piece, message, position, size, n);
      assert buffer[..n] == piece[..n];
      Grow(base, message, position, n);
      left := left - n;
      position := position + n;
    }
    sends := i;
  }

  /** linux_sendFile: one send, whatever it takes. */
  method LinuxSendFile(client: Client, message: string, accepts: Option<nat>)
    modifies client
    ensures client.received == old(client.received) +
      message[..if accepts.None? then 0 else Min(accepts.value, |message|)]
  {
    var mapping := new char[|message|](i requires 0 <= i < |message| => message[i]);
    var ret := client.Send(mapping, |message|, accepts);
    assert mapping[..] == message;
    if ret >= 0 { assert mapping[..ret] == message[..ret]; }
  }

  // ---------- blackListFile ----------

  const LOG_NAME := "gopher_log_file.txt"
  const LOG_PATH := "../gopher_log_file.txt"

  /** A name in a directory. */
  predicate IsFileName(c: string) {
    c != "" && c != "." && c != ".." && '/' !in c
  }

  ghost predicate IsStack(stack: seq<string>) {
    forall i :: 0 <= i < |stack| ==> IsFileName(stack[i])
  }

  function Parent(stack: seq<string>): seq<string> {
    if stack == [] then [] else stack[..|stack| - 1]
  }

  /** A walk without symbolic links. */
  function Walk(stack: seq<string>, pieces: seq<string>): seq<string>
    decreases |pieces|
  {
    if pieces == [] then stack
    else if pieces[0] == "" || pieces[0] == "." then Walk(stack, pieces[1..])
    else if pieces[0] == ".." then Walk(Parent(stack), pieces[1..])
    else Walk(stack + [pieces[0]], pieces[1..])
  }

  /** The directory stack a path leads to from the working directory. */
  function Lookup(cwd: seq<string>, path: string): seq<string> {
    Walk(if path != "" && path[0] == '/' then [] else cwd, Split(path, "/"))
  }

  function Slashed(stack: seq<string>): string {
    if stack == [] then "" else Slashed(stack[..|stack| - 1]) + "/" + stack[|stack| - 1]
  }

  /** `realpath`, as a string */
  function RealPath(cwd: seq<string>, path: string): string {
    AbsoluteName(Lookup(cwd, path))
  }

  function AbsoluteName(stack: seq<string>): string {
    if stack == [] then "/" else Slashed(stack)
  }

  function LastSlash(path: string): (i: int)
    ensures -1 <= i < |path|
  {
    if path == "" then -1 else if path[|path| - 1] == '/' then |path| - 1 else LastSlash(path[..|path| - 1])
  }

  /** `dirname` of an absolute path without trailing slashes */
  function DirName(path: string): string {
    if LastSlash(path) <= 0 then "/" else path[..LastSlash(path)]
  }

  function WithoutTrailingSlashes(path: string): string {
    if path != "" && path[|path| - 1] == '/' then WithoutTrailingSlashes(path[..|path| - 1]) else path
  }

  /** `basename` */
  function BaseName(path: string): string {
    var p := WithoutTrailingSlashes(path);
    if path == "" then "." else if p == "" then "/" else p[LastSlash(p) + 1..]
  }

  /** blackListFile */
  function BlackListFile(cwd: seq<string>, baseDir: string, pathFile: string, blackListed: string): bool {
    if blackListed != BaseName(pathFile) then false
    else
      var realBaseDir := DirName(RealPath(cwd, baseDir));
      var pathDir := DirName(RealPath(cwd, pathFile));
      realBaseDir == pathDir
  }

  /** The last component of a path to a regular file is a name: `stat` refuses a regular file
      followed by a slash, and "." and ".." are directories. */
  ghost predicate EndsInName(path: string) {
    var pieces := Split(path, "/");
    IsFileName(pieces[|pieces| - 1])
  }

  // ---------- proofs about paths ----------

  lemma {:induction false} WalkSnoc(stack: seq<string>, pieces: seq<string>, name: string)
    requires IsFileName(name)
    ensures Walk(stack, pieces + [name]) == Walk(stack, pieces) + [name]
    decreases |pieces|
  {
    if pieces == [] {
      assert Walk(stack + [name], []) == stack + [name];
    } else {
      assert (pieces + [name])[1..] == pieces[1..] + [name];
      var next := if pieces[0] == "" || pieces[0] == "." then stack
                  else if pieces[0] == ".." then Parent(stack) else stack + [pieces[0]];
      WalkSnoc(next, pieces[1..], name);
    }
  }

  lemma {:induction false} WalkKeepsNames(stack: seq<string>, pieces: seq<string>)
    requires IsStack(stack) && forall i :: 0 <= i < |pieces| ==> '/' !in pieces[i]
    ensures IsStack(Walk(stack, pieces))
    decreases |pieces|
  {
    if pieces != [] {
      var next := if pieces[0] == "" || pieces[0] == "." then stack
                  else if pieces[0] == ".." then Parent(stack) else stack + [pieces[0]];
      WalkKeepsNames(next, pieces[1..]);
    }
  }

  lemma {:induction false} PiecesHaveNoSlash(s: string)
    ensures forall i :: 0 <= i < |Split(s, "/")| ==> '/' !in Split(s, "/")[i]
  {
    if s != "" { PiecesHaveNoSlash(s[1..]); }
  }

  lemma {:induction false} SlashedPieces(stack: seq<string>)
    requires IsStack(stack)
    ensures Split(Slashed(stack), "/") == [""] + stack
  {
    if stack != [] {
      var init, last := stack[..|stack| - 1], stack[|stack| - 1];
      SlashedPieces(init);
      SplitWithout(last, "/");
      SplitAtSeparator(Slashed(init), '/', last, "/");
      assert Slashed(init) + ['/'] + last == Slashed(stack);
      assert [""] + init + [last] == [""] + stack;
    }
  }

  /** Different directory stacks have different absolute names. */
  lemma AbsoluteNameIsInjective(a: seq<string>, b: seq<string>)
    requires IsStack(a) && IsStack(b) && AbsoluteName(a) == AbsoluteName(b)
    ensures a == b
  {
    SlashedPieces(a);
    SlashedPieces(b);
    var slash := Split("/", "/");
    assert slash == ["", ""];
    assert a != [] ==> ([""] + a)[1] == a[0] != "";
    assert b != [] ==> ([""] + b)[1] == b[0] != "";
    assert ([""] + a)[1..] == a && ([""] + b)[1..] == b;
  }

  lemma {:induction false} LastSlashIs(a: string, b: string)
    requires '/' !in b
    ensures LastSlash(a + "/" + b) == |a|
  {
    var s := a + "/" + b;
    if b != "" {
      assert s[..|s| - 1] == a + "/" + b[..|b| - 1];
      assert forall c :: c in b[..|b| - 1] ==> c in b;
      assert s[|s| - 1] == b[|b| - 1] && b[|b| - 1] in b;
      LastSlashIs(a, b[..|b| - 1]);
    }
  }

  lemma DirNameIsParent(stack: seq<string>)
    requires IsStack(stack)
    ensures DirName(AbsoluteName(stack)) == AbsoluteName(Parent(stack))
  {
    if stack != [] {
      var init, last := stack[..|stack| - 1], stack[|stack| - 1];
      LastSlashIs(Slashed(init), last);
    } else {
      assert LastSlash("/") == 0;
    }
  }

  lemma {:induction false} NoSlashAfterLast(path: string)
    ensures LastSlash(path) >= 0 ==> path[LastSlash(path)] == '/'
    ensures forall k :: LastSlash(path) < k < |path| ==> path[k] != '/'
  {
    if path != "" && path[|path| - 1] != '/' {
      var init := path[..|path| - 1];
      NoSlashAfterLast(init);
      assert forall k :: 0 <= k < |init| ==> init[k] == path[k];
    }
  }

  /** The last piece of a path is what follows its last slash. */
  lemma LastPiece(path: string)
    ensures var pieces := Split(path, "/"); pieces[|pieces| - 1] == path[LastSlash(path) + 1..]
  {
    NoSlashAfterLast(path);
    PieceAfter(path, LastSlash(path));
  }

  lemma PieceAfter(path: string, i: int)
    requires -1 <= i < |path| && (i >= 0 ==> path[i] == '/') && forall k :: i < k < |path| ==> path[k] != '/'
    ensures var pieces := Split(path, "/"); pieces[|pieces| - 1] == path[i + 1..]
  {
    if i >= 0 {
      CutAt(path, i);
      LastOfTwo(path, path[..i], path[i + 1..]);
    } else {
      SplitWithout(path, "/");
      assert path[i + 1..] == path;
    }
  }

  lemma LastOfTwo(path: string, a: string, b: string)
    requires path == a + ['/'] + b && '/' !in b
    ensures var pieces := Split(path, "/"); pieces[|pieces| - 1] == b
  {
    SplitWithout(b, "/");
    SplitAtSeparator(a, '/', b, "/");
  }

  /** The base name of a path that ends in a name is that name. */
  lemma BaseNameIsLastPiece(path: string)
    requires EndsInName(path)
    ensures var pieces := Split(path, "/"); BaseName(path) == pieces[|pieces| - 1]
  {
    LastPiece(path);
    assert |path[LastSlash(path) + 1..]| > 0;
  }

  /** Slashes at the end do not count, and a path of nothing else has the base name "/". */
  lemma TrailingSlash(path: string)
    ensures BaseName(path + "/") == if path == "" then "/" else BaseName(path)
  {
    var s := path + "/";
    assert s[|s| - 1] == '/' && s[..|s| - 1] == path;
    assert WithoutTrailingSlashes(s) == WithoutTrailingSlashes(path);
  }

  /** Where a path that ends in a name leads: to that name, in the directory its other pieces lead to. */
  lemma LookupName(cwd: seq<string>, path: string) returns (dir: seq<string>, name: string)
    requires IsStack(cwd) && EndsInName(path)
    ensures IsStack(dir) && IsFileName(name)
    ensures Lookup(cwd, path) == dir + [name] && BaseName(path) == name
  {
    var pieces := Split(path, "/");
    var init := pieces[..|pieces| - 1];
    name := pieces[|pieces| - 1];
    assert pieces == init + [name];
    var start := if path != "" && path[0] == '/' then [] else cwd;
    dir := Walk(start, init);
    BaseNameIsLastPiece(path);
    WalkSnoc(start, init, name);
    PiecesHaveNoSlash(path);
    assert forall i :: 0 <= i < |init| ==> init[i] == pieces[i];
    WalkKeepsNames(start, init);
  }

  lemma SameEntry(a: seq<string>, x: string, b: seq<string>, y: string)
    ensures a + [x] == b + [y] <==> a == b && x == y
  {
    if a + [x] == b + [y] {
      assert (a + [x])[..|a|] == a && (b + [y])[..|b|] == b;
      assert (a + [x])[|a|] == x && (b + [y])[|b|] == y;
    }
  }

  /** A regular file is refused exactly when its path leads to the file of the given name in the
      parent of the working directory. */
  lemma RefusedIff(cwd: seq<string>, path: string, name: string)
    requires IsStack(cwd) && EndsInName(path)
    ensures BlackListFile(cwd, AbsoluteName(cwd), path, name) <==> Lookup(cwd, path) == Parent(cwd) + [name]
  {
    var dir, last := LookupName(cwd, path);
    CwdIsFound(cwd);
    DirNameIsParent(cwd);
    DirNameIsParent(dir + [last]);
    assert Parent(dir + [last]) == dir;
    if AbsoluteName(Parent(cwd)) == AbsoluteName(dir) {
      AbsoluteNameIsInjective(Parent(cwd), dir);
    }
    SameEntry(dir, last, Parent(cwd), name);
  }

  lemma LogPathParts()
    ensures ".." + ['/'] + LOG_NAME == LOG_PATH && IsFileName(LOG_NAME)
  {
    assert ".." + ['/'] == "../";
  }

  /** The log file, and nothing else, is kept from being served: file_type refuses a path to a regular
      file exactly when it leads where LOG_PATH leads from the working directory. */
  lemma LogFileExcludedIff(cwd: seq<string>, path: string)
    requires IsStack(cwd) && EndsInName(path)
    ensures BlackListFile(cwd, AbsoluteName(cwd), path, "gopher_log_file.txt") <==>
      Lookup(cwd, path) == Lookup(cwd, "../gopher_log_file.txt")
  {
    RefusedIff(cwd, path, LOG_NAME);
    LogPathParts();
    ParentPath(cwd, LOG_NAME);
  }

  /** A path through the parent directory. */
  lemma ParentPath(cwd: seq<string>, name: string)
    requires IsFileName(name)
    ensures Lookup(cwd, ".." + ['/'] + name) == Parent(cwd) + [name]
  {
    SplitAtSeparator("..", '/', name, "/");
    SplitWithout("..", "/");
    SplitWithout(name, "/");
    assert [".."] + [name] == [".."] + [name] + [];
    WalkSnoc(cwd, [".."], name);
    assert Walk(cwd, [".."]) == Walk(Parent(cwd), []);
  }

  /** The absolute name of the working directory leads there. */
  lemma CwdIsFound(cwd: seq<string>)
    requires IsStack(cwd)
    ensures Lookup(cwd, AbsoluteName(cwd)) == cwd
  {
    if cwd == [] {
      var pieces := Split("/", "/");
      assert pieces == ["", ""] && pieces[1..] == [""] && pieces[1..][1..] == [];
    } else {
      SlashedPieces(cwd);
      SlashedStarts(cwd);
      assert ([""] + cwd)[1..] == cwd;
      WalkNames([], cwd);
      assert [] + cwd == cwd;
    }
  }

  lemma {:induction false} SlashedStarts(stack: seq<string>)
    requires stack != []
    ensures Slashed(stack) != "" && Slashed(stack)[0] == '/'
  {
    if |stack| > 1 { SlashedStarts(stack[..|stack| - 1]); }
  }

  lemma {:induction false} WalkNames(stack: seq<string>, names: seq<string>)
    requires IsStack(names)
    ensures Walk(stack, names) == stack + names
    decreases |names|
  {
    if names != [] {
      WalkNames(stack + [names[0]], names[1..]);
      assert stack + [names[0]] + names[1..] == stack + names;
    }
  }

  // ---------- what a path leads to ----------

  lemma {:induction false} WalkJoin(stack: seq<string>, a: seq<string>, b: seq<string>)
    ensures Walk(stack, a + b) == Walk(Walk(stack, a), b)
    decreases |a|
  {
    if a == [] {
      assert a + b == b;
    } else {
      assert (a + b)[1..] == a[1..] + b;
      var next := if a[0] == "" || a[0] == "." then stack
                  else if a[0] == ".." then Parent(stack) else stack + [a[0]];
      WalkJoin(next, a[1..], b);
    }
  }

  /** The parent of an entry is its directory, and the root is its own parent. */
  lemma ParentIs(stack: seq<string>, name: string)
    ensures Parent(stack + [name]) == stack && Parent([]) == []
  {
  }

  /** One component: "." and "" stay, ".." goes up, and every other name goes down. */
  lemma LookupOne(cwd: seq<string>, name: string)
    requires '/' !in name
    ensures name == "" || name == "." ==> Lookup(cwd, name) == cwd
    ensures name == ".." ==> Lookup(cwd, name) == Parent(cwd)
    ensures name != "" && name != "." && name != ".." ==> Lookup(cwd, name) == cwd + [name]
  {
    SplitWithout(name, "/");
    var pieces := [name];
    assert pieces[0] == name && pieces[1..] == [];
    assert name != "" ==> name[0] in name;
    assert Lookup(cwd, name) == Walk(cwd, pieces);
  }

  /** A path of two parts leads where the second leads from where the first leads. */
  lemma LookupJoin(cwd: seq<string>, a: string, b: string)
    requires a != "" && (b == "" || b[0] != '/')
    ensures Lookup(cwd, a + "/" + b) == Lookup(Lookup(cwd, a), b)
  {
    var start := if a[0] == '/' then [] else cwd;
    assert a + ['/'] + b == a + "/" + b && (a + "/" + b)[0] == a[0];
    SplitAtSeparator(a, '/', b, "/");
    WalkJoin(start, Split(a, "/"), Split(b, "/"));
  }

  /** A leading slash starts at the root. */
  lemma LookupAbsolute(cwd: seq<string>, b: string)
    ensures Lookup(cwd, "/" + b) == Lookup([], b)
  {
    assert "" + ['/'] + b == "/" + b;
    SplitAtSeparator("", '/', b, "/");
    assert (Split("", "/") + Split(b, "/"))[1..] == Split(b, "/");
  }

  /** Repeated slashes are one. */
  lemma LookupSlashes(cwd: seq<string>, a: string, b: string)
    ensures Lookup(cwd, a + "//" + b) == Lookup(cwd, a + "/" + b)
  {
    var start := if a == "" || a[0] == '/' then [] else cwd;
    var tail := "/" + b;
    assert a + ['/'] + tail == a + "//" + b && a + ['/'] + b == a + "/" + b;
    SplitAtSeparator(a, '/', tail, "/");
    SplitAtSeparator(a, '/', b, "/");
    assert "" + ['/'] + b == tail;
    SplitAtSeparator("", '/', b, "/");
    WalkJoin(start, Split(a, "/"), Split(tail, "/"));
    WalkJoin(start, Split(a, "/"), Split(b, "/"));
    FirstEmpty(b);
  }

  lemma FirstEmpty(b: string)
    ensures Split("", "/") == [""] && ([""] + Split(b, "/"))[1..] == Split(b, "/")
  {
  }

  /** The absolute name of an entry is that of its directory, a slash, and its name. */
  lemma AbsoluteNameIs(stack: seq<string>, name: string)
    ensures AbsoluteName([]) == "/" && AbsoluteName([name]) == "/" + name
    ensures stack != [] ==> AbsoluteName(stack + [name]) == AbsoluteName(stack) + "/" + name
  {
    assert [name][..0] == [] && (stack + [name])[..|stack|] == stack;
    assert Slashed([name]) == "" + "/" + name == "/" + name;
  }

  /** The detour that a client could try: the log file is refused under it as well. */
  lemma DetourIsRefused(cwd: seq<string>)
    requires IsStack(cwd)
    ensures BlackListFile(cwd, AbsoluteName(cwd), "./../gopher_log_file.txt", "gopher_log_file.txt")
  {
    var name := "gopher_log_file.txt";
    LogPathParts();
    Detour(cwd, name);
    DetourText();
    RefusedIff(cwd, "./" + ("../" + name), name);
  }

  lemma DetourText()
    ensures "./../gopher_log_file.txt" == "./" + ("../" + "gopher_log_file.txt")
  {
  }

  lemma Detour(cwd: seq<string>, name: string)
    requires IsFileName(name)
    ensures Lookup(cwd, "./" + ("../" + name)) == Parent(cwd) + [name] && EndsInName("./" + ("../" + name))
  {
    var b, path := "../" + name, "./" + ("../" + name);
    assert "." + "/" + b == path && ".." + "/" + name == b;
    assert b[0] == '.' && name[0] in name;
    LookupJoin(cwd, ".", b);
    LookupOne(cwd, ".");
    LookupJoin(cwd, "..", name);
    LookupOne(cwd, "..");
    LookupOne(Parent(cwd), name);
    assert "." + ['/'] + b == path && ".." + ['/'] + name == b;
    SplitAtSeparator(".", '/', b, "/");
    SplitAtSeparator("..", '/', name, "/");
    SplitWithout(name, "/");
  }
}
