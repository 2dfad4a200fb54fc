/** general/lib/gopher/protocol.c: from selectors to paths, and from directories to menus. */
module Protocol {
  import opened CStrings

  const NEED_TO_FREE: int := -2
  const NO_FREE: int := -3

  /** `sprintf(buf, ...)` of a formatted text */
  method Sprintf(buf: array<char>, text: string)
    requires |text| < buf.Length && NUL !in text
    modifies buf
    ensures CStr(buf[..]) == text
  {
    for i := 0 to |text|
      invariant buf[..i] == text[..i]
    {
      buf[i] := text[i];
    }
    buf[|text|] := NUL;
    assert buf[..|text|] == text;
    CStrIs(buf[..], text);
  }

  // ---------- paths ----------

  function Tail(selector: string): string {
    if selector != "" && selector[0] == '/' then selector[1..] else selector
  }

  /** The path a selector stands for under a root. */
  function Resolve(root: string, selector: string): string
    requires root != ""
  {
    if root[|root| - 1] == '/' then root + Tail(selector) else root + "/" + Tail(selector)
  }

  /** resolve_selector; the flags say whether `calloc` and `sprintf` succeed. */
  method ResolveSelector(root: string, selector: string, memory: bool, format: bool)
    returns (ret: int, filepath: array?<char>)
    requires root != "" && NUL !in root && NUL !in selector
    ensures ret == if !memory then -3 else if !format then -2 else 0
    ensures filepath != null <==> memory
    ensures ret == 0 ==> CStr(filepath[..]) == Resolve(root, selector)
  {
    if !memory { return NO_FREE, null; }
    var buf := new char[|root| + 1 + |selector| + 4](_ => NUL);
    if !format { return NEED_TO_FREE, buf; }
    var skip := if selector != "" && selector[0] == '/' then 1 else 0;
    assert forall c :: c in selector[skip..] ==> c in selector;
    if root[|root| - 1] == '/' {
      Sprintf(buf, root + selector[skip..]);
    } else {
      Sprintf(buf, root + "/" + selector[skip..]);
    }
    ret, filepath := 0, buf;
  }

  /** A resolved path is the root, a slash unless the root ends in one, and the selector without its
      leading slash. */
  lemma ResolvedPathIs(root: string, selector: string)
    requires root != "" && (selector == "" || selector[0] != '/')
    ensures root[|root| - 1] == '/' ==> Resolve(root, selector) == Resolve(root, "/" + selector) == root + selector
    ensures root[|root| - 1] != '/' ==>
      Resolve(root, selector) == Resolve(root, "/" + selector) == root + "/" + selector
  {
    assert ("/" + selector)[1..] == selector;
  }

  /** Only the first of several leading slashes is left out. */
  lemma ResolvedSlashes(root: string, selector: string)
    requires root != ""
    ensures Resolve(root, "/" + selector) == (if root[|root| - 1] == '/' then root else root + "/") + selector
  {
    assert ("/" + selector)[1..] == selector;
  }

  /** Pieces that matter to a lexical walk: not empty and not ".". */
  function Real(pieces: seq<string>): seq<string> {
    if pieces == [] then []
    else (if pieces[0] == "" || pieces[0] == "." then [] else [pieces[0]]) + Real(pieces[1..])
  }

  function Comps(path: string): seq<string> {
    Real(Split(path, "/"))
  }

  /** What a path denotes: from the root directory or not, and through which components. */
  function Denotes(path: string): (bool, seq<string>) {
    (path != "" && path[0] == '/', Comps(path))
  }

  lemma {:induction false} RealAppend(a: seq<string>, b: seq<string>)
    ensures Real(a + b) == Real(a) + Real(b)
  {
    if a == [] {
      assert a + b == b;
    } else {
      assert (a + b)[1..] == a[1..] + b;
      RealAppend(a[1..], b);
    }
  }

  lemma CompsJoin(a: string, b: string)
    ensures Comps(a + "/" + b) == Comps(a) + Comps(b)
  {
    SplitAtSeparator(a, '/', b, "/");
    assert a + ['/'] + b == a + "/" + b;
    RealAppend(Split(a, "/"), Split(b, "/"));
  }

  lemma CompsTail(selector: string)
    ensures Comps(Tail(selector)) == Comps(selector)
  {
    if selector != "" && selector[0] == '/' {
      assert selector == "" + "/" + selector[1..];
      CompsJoin("", selector[1..]);
      assert Comps("") == [];
    }
  }

  /** Under every root, a selector's path goes through the root's components and then through its
      own; it is absolute exactly when the root is. */
  lemma ResolvedComps(root: string, selector: string)
    requires root != ""
    ensures Denotes(Resolve(root, selector)) == (Denotes(root).0, Comps(root) + Comps(selector))
  {
    CompsTail(selector);
    var t := Tail(selector);
    if root[|root| - 1] == '/' {
      var r := root[..|root| - 1];
      assert root == r + "/" + "" && root + t == r + "/" + t;
      CompsJoin(r, "");
      CompsJoin(r, t);
      assert Comps("") == [] && Comps(r) + [] == Comps(r);
    } else {
      CompsJoin(root, t);
    }
  }

  // ---------- navigation ----------

  /** The name of a visible directory entry. */
  predicate IsName(name: string) {
    name != "" && name[0] != '.' && '/' !in name
  }

  /** A client that starts at `path` and follows the menu lines of `names`: each line's selector is
      the full path of the entry, which the server resolves again. */
  function Follow(root: string, path: string, names: seq<string>): string
    requires root != ""
    decreases |names|
  {
    if names == [] then path
    else Follow(root, Resolve(root, path + "/" + names[0]), names[1..])
  }

  function Repeat(cs: seq<string>, n: nat): seq<string> {
    if n == 0 then [] else Repeat(cs, n - 1) + cs
  }

  lemma NameComps(name: string)
    requires IsName(name)
    ensures Comps(name) == [name]
  {
    SplitWithout(name, "/");
    var pieces := [name];
    assert name != "." && pieces[1..] == [];
    assert Real(pieces) == [name] + Real(pieces[1..]) == [name];
  }

  /** One component: "" and "." do not matter, every other name, ".." included, stands for itself. */
  lemma CompsOne(name: string)
    requires '/' !in name
    ensures Comps(name) == if name == "" || name == "." then [] else [name]
  {
    SplitWithout(name, "/");
    var pieces := [name];
    assert pieces[0] == name && pieces[1..] == [];
    assert Real(pieces[1..]) == [];
  }

  lemma HopComps(root: string, path: string, name: string)
    requires root != "" && IsName(name)
    ensures Denotes(Resolve(root, path + "/" + name)) == (Denotes(root).0, Comps(root) + Comps(path) + [name])
  {
    ResolvedComps(root, path + "/" + name);
    CompsJoin(path, name);
    NameComps(name);
    assert Comps(root) + (Comps(path) + [name]) == Comps(root) + Comps(path) + [name];
  }

  /** After n hops the path goes through the root's components n more times, then through where the
      client started, then through the names it followed. */
  lemma {:induction false} Navigation(root: string, path: string, names: seq<string>)
    requires root != "" && forall i :: 0 <= i < |names| ==> IsName(names[i])
    ensures Comps(Follow(root, path, names)) == Repeat(Comps(root), |names|) + Comps(path) + names
    decreases |names|
  {
    if names == [] {
      NoHops(Comps(path), Comps(root));
    } else {
      var next := Resolve(root, path + "/" + names[0]);
      HopComps(root, path, names[0]);
      Navigation(root, next, names[1..]);
      OneMoreHop(Comps(root), Comps(path), Comps(next), names);
    }
  }

  /** ... and it is absolute exactly when the root is. */
  lemma {:induction false} NavigationStart(root: string, path: string, names: seq<string>)
    requires root != "" && names != [] && forall i :: 0 <= i < |names| ==> IsName(names[i])
    ensures Denotes(Follow(root, path, names)).0 == Denotes(root).0
    decreases |names|
  {
    HopComps(root, path, names[0]);
    var next := Resolve(root, path + "/" + names[0]);
    if names[1..] != [] { NavigationStart(root, next, names[1..]); }
  }

  lemma NoHops(path: seq<string>, root: seq<string>)
    ensures Repeat(root, 0) + path + [] == path
  {
  }

  lemma OneMoreHop(root: seq<string>, path: seq<string>, next: seq<string>, names: seq<string>)
    requires names != [] && next == root + path + [names[0]]
    ensures Repeat(root, |names| - 1) + next + names[1..] == Repeat(root, |names|) + path + names
  {
    assert names == [names[0]] + names[1..];
    Regroup(Repeat(root, |names| - 1), root, path, [names[0]], names[1..]);
  }

  lemma Regroup(a: seq<string>, b: seq<string>, c: seq<string>, d: seq<string>, e: seq<string>)
    ensures a + (b + c + d) + e == (a + b) + c + (d + e)
  {
  }

  /** Following a menu line leads to exactly the listed entry if and only if the root has no
      components of its own, as the shipped "." has none. */
  lemma HopIsExactIff(root: string, path: string, name: string)
    requires root != "" && IsName(name) && path != "" && Denotes(path).0 == Denotes(root).0
    ensures Denotes(Resolve(root, path + "/" + name)) == Denotes(path + "/" + name) <==> Comps(root) == []
  {
    HopComps(root, path, name);
    CompsJoin(path, name);
    NameComps(name);
    var here := Comps(path) + [name];
    assert Comps(root) + Comps(path) + [name] == Comps(root) + here;
    if Comps(root) == [] {
      assert [] + here == here;
    } else {
      assert |Comps(root) + here| > |here|;
    }
  }
}
