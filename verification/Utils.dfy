/** general/lib/utils/utils.c: the in-place tokenizers, the line finder and the number reader. */
module Utils {
  import opened CStrings

  datatype Option<+T> = None | Some(value: T)

  /** The result of code that may call `exit`. */
  datatype Result<+T> = Ok(value: T) | Exit(code: int)

  // ---------- tokens of a C string ----------

  /** How many leading characters are delimiters (strspn). */
  function Skip(s: string, delims: string): (n: nat)
    ensures n <= |s|
  {
    if s == "" || s[0] !in delims then 0 else 1 + Skip(s[1..], delims)
  }

  /** How many leading characters are not delimiters (strcspn). */
  function Reach(s: string, delims: string): (n: nat)
    ensures n <= |s|
  {
    if s == "" || s[0] in delims then 0 else 1 + Reach(s[1..], delims)
  }

  lemma {:induction false} SkipStops(s: string, delims: string)
    ensures forall k :: 0 <= k < Skip(s, delims) ==> s[k] in delims
    ensures Skip(s, delims) < |s| ==> s[Skip(s, delims)] !in delims
  {
    if s != "" && s[0] in delims {
      SkipStops(s[1..], delims);
      assert forall k :: 1 <= k < |s| ==> s[k] == s[1..][k - 1];
    }
  }

  lemma {:induction false} ReachStops(s: string, delims: string)
    ensures forall k :: 0 <= k < Reach(s, delims) ==> s[k] !in delims
    ensures Reach(s, delims) < |s| ==> s[Reach(s, delims)] in delims
  {
    if s != "" && s[0] !in delims {
      ReachStops(s[1..], delims);
      assert forall k :: 1 <= k < |s| ==> s[k] == s[1..][k - 1];
    }
  }

  datatype Token = NoToken | Token(start: nat, text: string, rest: string)

  /** The next token of `s`: where it starts, what it is, and what is left after its delimiter. */
  function NextToken(s: string, delims: string): (t: Token)
    ensures t.Token? ==> |t.rest| < |s|
  {
    var a := Skip(s, delims);
    if a == |s| then NoToken else
      var tail := s[a..];
      var e := Reach(tail, delims);
      Token(a, tail[..e], if e == |tail| then "" else tail[e + 1..])
  }

  /** What is left of the string after `n` calls, each of which works on what the call before left. */
  function RestAfter(s: string, calls: seq<string>, n: nat): string
    requires n <= |calls|
  {
    if n == 0 then s else RestOf(NextToken(RestAfter(s, calls, n - 1), calls[n - 1]))
  }

  /** What the first `n` calls return. */
  function TokenTexts(s: string, calls: seq<string>, n: nat): (texts: seq<Option<string>>)
    requires n <= |calls|
    ensures |texts| == n
  {
    seq(n, k requires 0 <= k < n => TextAt(s, calls, k))
  }

  function TextAt(s: string, calls: seq<string>, k: nat): Option<string>
    requires k < |calls|
  {
    TextOf(NextToken(RestAfter(s, calls, k), calls[k]))
  }

  lemma TextsSnoc(s: string, calls: seq<string>, n: nat)
    requires n < |calls|
    ensures TokenTexts(s, calls, n + 1) == TokenTexts(s, calls, n) + [TextAt(s, calls, n)]
  {
    hide TextAt;
  }

  function TextOf(t: Token): Option<string> {
    if t.NoToken? then None else Some(t.text)
  }

  function RestOf(t: Token): string {
    if t.NoToken? then "" else t.rest
  }

  function Texts(s: string, delims: string): seq<string>
    decreases |s|
  {
    var t := NextToken(s, delims);
    if t.NoToken? then [] else [t.text] + Texts(t.rest, delims)
  }

  /** With one delimiter set the tokens are the non-empty pieces between delimiters. */
  lemma {:induction false} TokensArePieces(s: string, delims: string)
    ensures Texts(s, delims) == NonEmpty(Split(s, delims))
    decreases |s|
  {
    var a := Skip(s, delims);
    SkipStops(s, delims);
    LeadingDelimiters(s, delims, a);
    if a < |s| {
      var tail := s[a..];
      var e := Reach(tail, delims);
      ReachStops(tail, delims);
      FirstPiece(tail, e, delims);
      FirstText(s, delims);
      TokensArePieces(if e < |tail| then tail[e + 1..] else "", delims);
    }
  }

  lemma {:induction false} FirstText(s: string, delims: string)
    requires Skip(s, delims) < |s|
    ensures var tail := s[Skip(s, delims)..]; var e := Reach(tail, delims);
      Texts(s, delims) == [tail[..e]] + Texts(if e < |tail| then tail[e + 1..] else "", delims)
  {
    var tail, t := s[Skip(s, delims)..], NextToken(s, delims);
    var e := Reach(tail, delims);
    assert t == Token(Skip(s, delims), tail[..e], if e == |tail| then "" else tail[e + 1..]);
    assert Texts(s, delims) == [t.text] + Texts(t.rest, delims);
  }

  lemma SliceOfTail(s: string, a: nat, e: nat)
    requires a + e <= |s|
    ensures s[a..][..e] == s[a..a + e]
    ensures a + e < |s| ==> s[a..][e + 1..] == s[a + e + 1..]
  {
  }

  lemma FirstPiece(s: string, e: nat, delims: string)
    requires 0 < e <= |s| && (forall k :: 0 <= k < e ==> s[k] !in delims) && (e < |s| ==> s[e] in delims)
    ensures NonEmpty(Split(s, delims)) == [s[..e]] + NonEmpty(Split(if e < |s| then s[e + 1..] else "", delims))
  {
    SplitWithout(s[..e], delims);
    if e < |s| {
      assert s == s[..e] + [s[e]] + s[e + 1..];
      SplitAtSeparator(s[..e], s[e], s[e + 1..], delims);
      assert ([s[..e]] + Split(s[e + 1..], delims))[1..] == Split(s[e + 1..], delims);
    } else {
      assert s[..e] == s;
    }
  }

  lemma {:induction false} LeadingDelimiters(s: string, delims: string, a: nat)
    requires a <= |s| && forall k :: 0 <= k < a ==> s[k] in delims
    ensures NonEmpty(Split(s, delims)) == NonEmpty(Split(s[a..], delims))
  {
    if a > 0 {
      LeadingDelimiters(s[1..], delims, a - 1);
      assert s[1..][a - 1..] == s[a..];
      assert Split(s, delims)[1..] == Split(s[1..], delims);
    }
  }

  // ---------- strtok_r and ut_win_strtok_r, in place ----------

  /** There is a string at `from`: a NUL at or after it. */
  ghost predicate Terminated(b: string, from: nat) {
    exists k :: from <= k < |b| && b[k] == NUL
  }

  /** Where that string ends. */
  ghost function End(b: string, from: nat): (end: nat)
    requires Terminated(b, from)
    ensures from <= end < |b| && b[end] == NUL
    ensures forall k :: from <= k < end ==> b[k] != NUL
    decreases |b| - from
  {
    if b[from] == NUL then from else End(b, from + 1)
  }

  lemma EndIs(b: string, from: nat, end: nat)
    requires from <= end < |b| && b[end] == NUL && forall k :: from <= k < end ==> b[k] != NUL
    ensures Terminated(b, from) && End(b, from) == end
  {
  }

  /** The string at `from` as a value. */
  ghost function At(b: string, from: nat): string
    requires Terminated(b, from)
  {
    b[from..End(b, from)]
  }

  lemma AtStart(b: string)
    requires Terminated(b, 0)
    ensures At(b, 0) == CStr(b)
  {
    CStrIs(b, At(b, 0));
  }

  /** A token occupies [t, e) of the string [from, end). */
  ghost predicate TokenAt(b: string, from: nat, end: nat, delims: string, t: nat, e: nat) {
    && from <= t < e <= end < |b|
    && (forall k :: from <= k < t ==> b[k] in delims)
    && (forall k :: t <= k < e ==> b[k] !in delims)
    && (e < end ==> b[e] in delims)
  }

  /** What `strtok_r` promises about the buffer `b` it finds and the buffer `b'` it leaves, when it
      starts at `from`: the first token, its delimiter overwritten by a NUL, nothing else changed,
      and the rest of the string at `save`. */
  ghost predicate Tokenized(b: string, from: nat, delims: string, b': string, tok: Option<nat>, save: nat)
    requires Terminated(b, from)
  {
    var end := End(b, from);
    if tok.None? then
      (forall k :: from <= k < end ==> b[k] in delims) && b' == b && save == end
    else
      exists e: nat :: TokenAt(b, from, end, delims, tok.value, e)
                  && b' == b[e := NUL] && save == if e == end then end else e + 1
  }

  lemma TokenAtOnce(b: string, from: nat, end: nat, delims: string, t1: nat, e1: nat, t2: nat, e2: nat)
    requires TokenAt(b, from, end, delims, t1, e1) && TokenAt(b, from, end, delims, t2, e2)
    ensures t1 == t2 && e1 == e2
  {
    var firsts, ends := [b[t1], b[t2]], [b[e1], b[e2]];
  }

  lemma TokenIsNotDelimiters(b: string, from: nat, end: nat, delims: string, t: nat, e: nat)
    requires TokenAt(b, from, end, delims, t, e)
    ensures exists k :: from <= k < end && b[k] !in delims
  {
    assert b[t] !in delims;
  }

  /** Those promises leave no choice. */
  lemma TokenizedOnce(b: string, from: nat, delims: string,
                      b1: string, tok1: Option<nat>, save1: nat, b2: string, tok2: Option<nat>, save2: nat)
    requires Terminated(b, from)
    requires Tokenized(b, from, delims, b1, tok1, save1) && Tokenized(b, from, delims, b2, tok2, save2)
    ensures b1 == b2 && tok1 == tok2 && save1 == save2
  {
    var end := End(b, from);
    if tok1.Some? {
      var e1: nat :| TokenAt(b, from, end, delims, tok1.value, e1) && b1 == b[e1 := NUL]
                     && save1 == if e1 == end then end else e1 + 1;
      TokenIsNotDelimiters(b, from, end, delims, tok1.value, e1);
      var e2: nat :| TokenAt(b, from, end, delims, tok2.value, e2) && b2 == b[e2 := NUL]
                     && save2 == if e2 == end then end else e2 + 1;
      TokenAtOnce(b, from, end, delims, tok1.value, e1, tok2.value, e2);
    } else if tok2.Some? {
      var e2: nat :| TokenAt(b, from, end, delims, tok2.value, e2) && b2 == b[e2 := NUL]
                     && save2 == if e2 == end then end else e2 + 1;
      TokenIsNotDelimiters(b, from, end, delims, tok2.value, e2);
    }
  }

  /** glibc's `strtok_r`, which `ut_strtok` calls on Linux. */
  method StrtokR(buf: array<char>, str: Option<nat>, delims: string, save: nat)
    returns (tok: Option<nat>, save': nat)
    requires NUL !in delims
    requires Terminated(buf[..], if str.Some? then str.value else save)
    modifies buf
    ensures Tokenized(old(buf[..]), if str.Some? then str.value else save, delims, buf[..], tok, save')
  {
    var from := if str.Some? then str.value else save;
    ghost var b := buf[..];
    ghost var end := End(b, from);
    var t := from;
    while buf[t] != NUL && buf[t] in delims
      invariant from <= t <= end
      invariant forall k :: from <= k < t ==> b[k] in delims
      decreases end - t
    {
      t := t + 1;
    }
    if buf[t] == NUL {
      return None, t;
    }
    var e := t;
    while buf[e] != NUL && buf[e] !in delims
      invariant t <= e <= end
      invariant forall k :: t <= k < e ==> b[k] !in delims
      decreases end - e
    {
      e := e + 1;
    }
    save' := if buf[e] == NUL then e else e + 1;
    tok := Some(t);
    assert TokenAt(b, from, end, delims, t, e);
    buf[e] := NUL;
    assert buf[..] == b[e := NUL];
  }

  method StrLen(buf: array<char>, from: nat) returns (n: nat)
    requires Terminated(buf[..], from)
    ensures from + n == End(buf[..], from)
  {
    n := 0;
    while buf[from + n] != NUL
      invariant from + n <= End(buf[..], from)
      decreases End(buf[..], from) - from - n
    {
      n := n + 1;
    }
  }

  /** The token's own string ends where it was cut, and the rest of the string is intact. */
  lemma CutStrings(b: string, from: nat, delims: string, t: nat, e: nat)
    requires Terminated(b, from) && TokenAt(b, from, End(b, from), delims, t, e)
    ensures Terminated(b[e := NUL], t) && End(b[e := NUL], t) == e
    ensures var save := if e == End(b, from) then e else e + 1;
      Terminated(b[e := NUL], save) && End(b[e := NUL], save) == End(b, from)
  {
    EndIs(b[e := NUL], t, e);
    EndIs(b[e := NUL], if e == End(b, from) then e else e + 1, End(b, from));
  }

  /** `ut_win_strtok_r` with a non-null context: it restarts the plain `strtok` at the saved
      position, and saves a null pointer where `strtok_r` saves the end of the string. */
  method WinStrtokR(buf: array<char>, str: Option<nat>, delims: string, save: Option<nat>)
    returns (tok: Option<nat>, save': Option<nat>)
    requires NUL !in delims
    requires str.Some? ==> Terminated(buf[..], str.value)
    requires str.None? && save.Some? ==> Terminated(buf[..], save.value)
    modifies buf
    ensures str.None? && save.None? ==> tok == save' == None && buf[..] == old(buf[..])
    ensures str.Some? || save.Some? ==>
      var from := if str.Some? then str.value else save.value;
      Tokenized(old(buf[..]), from, delims, buf[..], tok,
                if save'.Some? then save'.value else End(old(buf[..]), from))
    ensures save'.Some? ==> tok.Some?
  {
    if str.None? && save.None? {
      return None, None;
    }
    var from := if str.Some? then str.value else save.value;
    var n := StrLen(buf, from);
    var last := from + n;
    ghost var b := buf[..];
    var unused;
    tok, unused := StrtokR(buf, Some(from), delims, from);
    save' := None;
    if tok.Some? {
      ghost var e: nat :| TokenAt(b, from, last, delims, tok.value, e) && buf[..] == b[e := NUL]
                     && unused == if e == last then last else e + 1;
      CutStrings(b, from, delims, tok.value, e);
      var len := StrLen(buf, tok.value);
      if tok.value + len < last {
        save' := Some(tok.value + len + 1);
      }
    }
  }

  /** The C string at a pointer, or nothing for a null pointer. */
  method Read(buf: array<char>, p: Option<nat>) returns (text: Option<string>)
    requires p.Some? ==> Terminated(buf[..], p.value)
    ensures text == (if p.None? then None else Some(At(buf[..], p.value)))
  {
    if p.None? { return None; }
    var n := StrLen(buf, p.value);
    text := Some(buf[..][p.value..p.value + n]);
  }

  /** `NextToken` by positions: delimiters up to `a`, none from `a` to `e`, one at `e`. */
  lemma NextTokenIs(s: string, delims: string, a: nat, e: nat)
    requires a < e <= |s|
    requires forall k :: 0 <= k < a ==> s[k] in delims
    requires forall k :: a <= k < e ==> s[k] !in delims
    requires e < |s| ==> s[e] in delims
    ensures NextToken(s, delims) == Token(a, s[a..e], if e == |s| then "" else s[e + 1..])
  {
    SkipIs(s, delims, a);
    TailReaches(s, s[a..], delims, a, e);
    NextTokenAt(s, delims, a, e);
  }

  lemma NextTokenAt(s: string, delims: string, a: nat, e: nat)
    requires a < e <= |s| && Skip(s, delims) == a && Reach(s[a..], delims) == e - a
    ensures NextToken(s, delims) == Token(a, s[a..e], if e == |s| then "" else s[e + 1..])
  {
    var tail := s[a..];
    TokenOfTail(s, delims, a, e - a, tail);
    SliceOfTail(s, a, e - a);
    assert tail[..e - a] == s[a..e] && (e < |s| ==> tail[e - a + 1..] == s[e + 1..]);
  }

  lemma TokenOfTail(s: string, delims: string, a: nat, n: nat, tail: string)
    requires a < |s| && tail == s[a..] && Skip(s, delims) == a && Reach(tail, delims) == n
    ensures NextToken(s, delims) == Token(a, tail[..n], if n == |tail| then "" else tail[n + 1..])
  {
  }

  lemma TailReaches(s: string, rest: string, delims: string, a: nat, e: nat)
    requires a < e <= |s| && rest == s[a..]
    requires forall k :: a <= k < e ==> s[k] !in delims
    requires e < |s| ==> s[e] in delims
    ensures Reach(rest, delims) == e - a
  {
    assert forall k :: 0 <= k < |rest| ==> rest[k] == s[a + k];
    ReachIs(rest, delims, e - a);
  }

  lemma TokenInString(b: string, s: string, from: nat, end: nat, delims: string, t: nat, e: nat)
    requires TokenAt(b, from, end, delims, t, e) && s == b[from..end]
    ensures forall k :: 0 <= k < t - from ==> s[k] in delims
    ensures forall k :: t - from <= k < e - from ==> s[k] !in delims
    ensures e < end ==> s[e - from] in delims
  {
    forall k | 0 <= k < end - from ensures s[k] == b[from + k] {
    }
  }

  lemma PositionsAreNextToken(b: string, from: nat, end: nat, delims: string, t: nat, e: nat)
    requires TokenAt(b, from, end, delims, t, e)
    ensures NextToken(b[from..end], delims) ==
            Token(t - from, b[t..e], if e == end then "" else b[e + 1..end])
  {
    var s := b[from..end];
    TokenInString(b, s, from, end, delims, t, e);
    NextTokenIs(s, delims, t - from, e - from);
    TokenSlices(b, s, from, end, t, e);
  }

  lemma TokenSlices(b: string, s: string, from: nat, end: nat, t: nat, e: nat)
    requires from <= t < e <= end <= |b| && s == b[from..end]
    ensures s[t - from..e - from] == b[t..e]
    ensures e < end ==> s[e - from + 1..] == b[e + 1..end]
  {
    Slices(b, from, end, t, e);
    if e < end {
      Tails(b, from, end, e + 1);
    }
  }

  /** The strings a cut leaves: the token, and what follows it. */
  lemma CutValues(b: string, from: nat, delims: string, t: nat, e: nat)
    requires Terminated(b, from) && TokenAt(b, from, End(b, from), delims, t, e)
    ensures Terminated(b[e := NUL], t) && At(b[e := NUL], t) == b[t..e]
    ensures var end := End(b, from); var save := if e == end then e else e + 1;
      Terminated(b[e := NUL], save) && At(b[e := NUL], save) == if e == end then "" else b[e + 1..end]
  {
    CutStrings(b, from, delims, t, e);
  }

  /** The tokenizer step seen on strings is `NextToken`. */
  lemma StepIsNextToken(b: string, from: nat, delims: string, b': string, tok: Option<nat>, save: nat)
    requires Terminated(b, from) && Tokenized(b, from, delims, b', tok, save)
    ensures Terminated(b', save) && (tok.Some? ==> Terminated(b', tok.value))
    ensures var next := NextToken(At(b, from), delims);
      if tok.None? then next.NoToken? && At(b', save) == ""
      else next.Token? && next.text == At(b', tok.value) && next.rest == At(b', save)
  {
    var end := End(b, from);
    if tok.None? {
      SkipIs(At(b, from), delims, end - from);
      EndIs(b, end, end);
    } else {
      var e: nat :| TokenAt(b, from, end, delims, tok.value, e) && b' == b[e := NUL]
                    && save == if e == end then end else e + 1;
      PositionsAreNextToken(b, from, end, delims, tok.value, e);
      CutValues(b, from, delims, tok.value, e);
    }
  }

  lemma {:induction false} SkipIs(s: string, delims: string, n: nat)
    requires n <= |s| && (forall k :: 0 <= k < n ==> s[k] in delims) && (n < |s| ==> s[n] !in delims)
    ensures Skip(s, delims) == n
  {
    if n > 0 { SkipIs(s[1..], delims, n - 1); }
  }

  lemma {:induction false} ReachIs(s: string, delims: string, n: nat)
    requires n <= |s| && (forall k :: 0 <= k < n ==> s[k] !in delims) && (n < |s| ==> s[n] in delims)
    ensures Reach(s, delims) == n
  {
    if n > 0 { ReachIs(s[1..], delims, n - 1); }
  }

  /** A piece of a piece is a piece. */
  lemma Slices(b: string, x: nat, y: nat, lo: nat, hi: nat)
    requires x <= lo <= hi <= y <= |b|
    ensures b[x..y][lo - x..hi - x] == b[lo..hi]
  {
    forall k | 0 <= k < hi - lo ensures b[x..y][lo - x..hi - x][k] == b[lo..hi][k] {
      assert b[x..y][lo - x + k] == b[lo + k];
    }
  }

  lemma Tails(b: string, x: nat, y: nat, lo: nat)
    requires x <= lo <= y <= |b|
    ensures b[x..y][lo - x..] == b[lo..y]
  {
    forall k | 0 <= k < y - lo ensures b[x..y][lo - x..][k] == b[lo..y][k] {
      assert b[x..y][lo - x + k] == b[lo + k];
    }
  }

  /** The saved positions of the two tokenizers: equal, or at the end against a null pointer. */
  ghost predicate SameSave(b: string, linux: nat, windows: Option<nat>) {
    Terminated(b, linux) && if windows.None? then linux == End(b, linux) else windows.value == linux
  }

  lemma EndHasNoToken(b: string, from: nat, delims: string, b': string, tok: Option<nat>, save: nat)
    requires Terminated(b, from) && from == End(b, from) && Tokenized(b, from, delims, b', tok, save)
    ensures tok == None && b' == b && save == from
  {
  }

  /** One call of each. */
  method CallBoth(a: array<char>, b: array<char>, str: Option<nat>, delims: string, saveA: nat, saveB: Option<nat>)
    returns (tok: Option<nat>, tok': Option<nat>, saveA': nat, saveB': Option<nat>)
    requires a != b && a[..] == b[..] && NUL !in delims && SameSave(a[..], saveA, saveB)
    requires str.Some? ==> str.value == saveA
    modifies a, b
    ensures a[..] == b[..] && tok == tok' && SameSave(a[..], saveA', saveB')
    ensures Tokenized(old(a[..]), saveA, delims, a[..], tok, saveA')
  {
    ghost var s := a[..];
    tok, saveA' := StrtokR(a, str, delims, saveA);
    StepIsNextToken(s, saveA, delims, a[..], tok, saveA');
    tok', saveB' := WinStrtokR(b, str, delims, saveB);
    if str.None? && saveB.None? {
      EndHasNoToken(s, saveA, delims, a[..], tok, saveA');
    } else {
      TokenizedOnce(s, saveA, delims, a[..], tok, saveA',
                    b[..], tok', if saveB'.Some? then saveB'.value else End(s, saveA));
      CutEnd(s, saveA, delims, a[..], tok, saveA');
    }
  }

  /** If a step saves the end of the string, that is where the string still ends. */
  lemma CutEnd(b: string, from: nat, delims: string, b': string, tok: Option<nat>, save: nat)
    requires Terminated(b, from) && Tokenized(b, from, delims, b', tok, save)
    ensures Terminated(b', save) && End(b', save) == End(b, from)
  {
    if tok.None? {
      EndIs(b, End(b, from), End(b, from));
    } else {
      var e: nat :| TokenAt(b, from, End(b, from), delims, tok.value, e) && b' == b[e := NUL]
                    && save == if e == End(b, from) then End(b, from) else e + 1;
      CutStrings(b, from, delims, tok.value, e);
    }
  }

  /** One call of each, and the tokens read. */
  method ReadBoth(a: array<char>, b: array<char>, str: Option<nat>, delims: string, saveA: nat, saveB: Option<nat>,
      ghost rest: string)
    returns (text: Option<string>, text': Option<string>, saveA': nat, saveB': Option<nat>)
    requires a != b && a[..] == b[..] && NUL !in delims && SameSave(a[..], saveA, saveB)
    requires str.Some? ==> str.value == saveA
    requires rest == At(a[..], saveA)
    modifies a, b
    ensures a[..] == b[..] && text == text' && SameSave(a[..], saveA', saveB')
    ensures text == TextOf(NextToken(rest, delims))
    ensures At(a[..], saveA') == RestOf(NextToken(rest, delims))
  {
    ghost var s := a[..];
    var tok, tok';
    tok, tok', saveA', saveB' := CallBoth(a, b, str, delims, saveA, saveB);
    StepIsNextToken(s, saveA, delims, a[..], tok, saveA');
    text := Read(a, tok);
    text' := Read(b, tok');
  }

  /** Both tokenizers on equal strings, with any delimiter set at each call: they return the same
      tokens, namely those of the string, and leave the same bytes behind. */
  method Lockstep(a: array<char>, b: array<char>, calls: seq<string>)
    returns (linux: seq<Option<string>>, windows: seq<Option<string>>)
    requires a != b && a[..] == b[..] && Terminated(a[..], 0)
    requires forall k :: 0 <= k < |calls| ==> NUL !in calls[k]
    modifies a, b
    ensures a[..] == b[..]
    ensures linux == windows
    ensures linux == TokenTexts(CStr(old(a[..])), calls, |calls|)
  {
    var saveA, saveB := 0, Some(0);
    linux, windows := [], [];
    AtStart(a[..]);
    ghost var s := CStr(a[..]);
    for i := 0 to |calls|
      invariant a[..] == b[..] && linux == windows == TokenTexts(s, calls, i)
      invariant SameSave(a[..], saveA, saveB) && RestAfter(s, calls, i) == At(a[..], saveA)
      invariant i == 0 ==> saveA == 0
    {
      var text, text';
      text, text', saveA, saveB :=
        ReadBoth(a, b, if i == 0 then Some(0) else None, calls[i], saveA, saveB, RestAfter(s, calls, i));
      TextsSnoc(s, calls, i);
      linux, windows := linux + [text], windows + [text'];
    }
  }

  lemma NoTokenInNothing(delims: string)
    ensures NextToken("", delims) == NoToken
  {
  }

  /** Once absent, always absent. */
  ghost predicate Ends(texts: seq<Option<string>>) {
    forall j, k :: 0 <= j <= k < |texts| && texts[j] == None ==> texts[k] == None
  }

  lemma {:induction false} NothingLeft(s: string, calls: seq<string>, j: nat, k: nat)
    requires j <= k <= |calls| && RestAfter(s, calls, j) == ""
    ensures RestAfter(s, calls, k) == ""
  {
    if j < k {
      NothingLeft(s, calls, j, k - 1);
      NoTokenInNothing(calls[k - 1]);
    }
  }

  lemma NoneLeavesNothing(s: string, calls: seq<string>, n: nat, j: nat, k: nat)
    requires j < n <= |calls| && TokenTexts(s, calls, n)[j] == None && j < k <= n
    ensures RestAfter(s, calls, k) == ""
  {
    NothingLeft(s, calls, j + 1, k);
  }

  lemma NoneStays(s: string, calls: seq<string>, n: nat, j: nat, k: nat)
    requires j < k < n <= |calls| && TokenTexts(s, calls, n)[j] == None
    ensures TokenTexts(s, calls, n)[k] == None
  {
    NoneLeavesNothing(s, calls, n, j, k);
    NoTokenInNothing(calls[k]);
  }

  /** After a call that finds no token every later call finds none. */
  lemma NoTokenForEver(s: string, calls: seq<string>, n: nat)
    requires n <= |calls|
    ensures Ends(TokenTexts(s, calls, n))
    ensures None in TokenTexts(s, calls, n) ==> RestAfter(s, calls, n) == ""
  {
    var texts := TokenTexts(s, calls, n);
    forall j, k | 0 <= j <= k < n && texts[j] == None ensures texts[k] == None {
      if j < k { NoneStays(s, calls, n, j, k); }
    }
    if None in texts {
      var j :| 0 <= j < n && texts[j] == None;
      NoneLeavesNothing(s, calls, n, j, n);
    }
  }

  // ---------- ut_get_line ----------

  const LF: char := '\n'

  /** `ut_get_line`: a NUL over the character before the first line feed.  A line feed in the very
      first place would make it write before the buffer. */
  method GetLine(buf: array<char>, size: nat) returns (found: bool)
    requires size <= buf.Length
    requires Find(buf[..size], LF) > 0 || size == 0
    modifies buf
    ensures found <==> LF in old(buf[..size])
    ensures buf[..] == if found then old(buf[..])[Find(old(buf[..size]), LF) - 1 := NUL] else old(buf[..])
  {
    var pos := 0;
    while pos < size && buf[pos] != LF
      invariant pos <= size && LF !in buf[..pos]
    {
      pos := pos + 1;
    }
    assert buf[..size][..pos] == buf[..pos];
    FindIs(buf[..size], LF, pos);
    if pos == size {
      assert buf[..size] == buf[..pos];
      return false;
    }
    assert buf[..size][pos] == LF;
    buf[pos - 1] := NUL;
    found := true;
  }

  // ---------- ut_strtoint ----------

  predicate IsSpace(c: char) {
    c == ' ' || ('\t' <= c <= '\r')
  }

  function SkipSpace(s: string): string {
    if s != "" && IsSpace(s[0]) then SkipSpace(s[1..]) else s
  }

  function LeadingDigits(s: string): (n: nat)
    ensures n <= |s| && AllDigits(s[..n]) && (n < |s| ==> !IsDigit(s[n]))
  {
    if s == "" || !IsDigit(s[0]) then 0 else
      var m := LeadingDigits(s[1..]);
      assert s[..1 + m] == [s[0]] + s[1..][..m];
      1 + m
  }

  const LONG_MAX: int := 0x7fff_ffff_ffff_ffff

  /** The nearest 64-bit long. */
  function Clamp(n: int): (r: int)
    ensures -LONG_MAX - 1 <= r <= LONG_MAX
  {
    if n > LONG_MAX then LONG_MAX else if n < -LONG_MAX - 1 then -LONG_MAX - 1 else n
  }

  /** `strtol(s, &end, 10)`: the value, clamped to a 64-bit long, and the text from `end` on.
      Without digits nothing is consumed. */
  function StrToL(s: string): (int, string) {
    var t := SkipSpace(s);
    var signed := t != "" && (t[0] == '-' || t[0] == '+');
    var digits := if signed then t[1..] else t;
    var n := LeadingDigits(digits);
    if n == 0 then (0, s) else
      var v: int := DigitsValue(digits[..n]);
      (Clamp(if signed && t[0] == '-' then -v else v), digits[n..])
  }

  /** The conversion of a long to a 32-bit int. */
  function ToInt32(v: int): (r: int)
    ensures -0x8000_0000 <= r < 0x8000_0000 && (r - v) % 0x1_0000_0000 == 0
  {
    var m := v % 0x1_0000_0000;
    if m < 0x8000_0000 then m else m - 0x1_0000_0000
  }

  /** `ut_strtoint`; trailing text ends the process. */
  function StrToInt(s: string): Result<int> {
    var (v, end) := StrToL(s);
    if end == "" then Ok(ToInt32(v)) else Exit(3)
  }

  lemma {:induction false} AllLeadingDigits(s: string)
    requires AllDigits(s)
    ensures LeadingDigits(s) == |s|
  {
    if s != "" { AllLeadingDigits(s[1..]); }
  }

  lemma DigitsAreRead(d: string)
    requires d != "" && AllDigits(d)
    ensures LeadingDigits(d) == |d| && d[..|d|] == d && d[|d|..] == ""
    ensures IsDigit(d[0]) && !IsSpace(d[0]) && d[0] != '-' && d[0] != '+'
  {
    AllLeadingDigits(d);
  }

  lemma PlainIsRead(d: string)
    requires d != "" && AllDigits(d)
    ensures StrToL(d) == (Clamp(DigitsValue(d)), "")
  {
    DigitsAreRead(d);
    assert SkipSpace(d) == d;
  }

  lemma NegativeIsRead(d: string)
    requires d != "" && AllDigits(d)
    ensures StrToL("-" + d) == (Clamp(0 - DigitsValue(d) as int), "")
  {
    DigitsAreRead(d);
    var s := "-" + d;
    assert s[0] == '-' && s[1..] == d && SkipSpace(s) == s;
  }

  /** What is read from the decimal notation of any number: the number, clamped to a long and then
      cut to 32 bits.  Exactly the 32-bit numbers are read back. */
  lemma StrToIntReadsDecimal(n: int)
    ensures StrToInt(Decimal(n)) == Ok(ToInt32(Clamp(n)))
    ensures StrToInt(Decimal(n)) == Ok(n) <==> -0x8000_0000 <= n < 0x8000_0000
  {
    DecimalIsRead(n);
    SameIn32Bits(n);
  }

  lemma ClampIs(n: int)
    ensures n > 9223372036854775807 ==> Clamp(n) == 9223372036854775807
    ensures n < -9223372036854775808 ==> Clamp(n) == -9223372036854775808
    ensures -9223372036854775808 <= n <= 9223372036854775807 ==> Clamp(n) == n
  {
  }

  /** White space before a number is skipped, but is no number, and a plus sign changes nothing. */
  lemma SpaceAndPlusAreSkipped(c: char, s: string, d: string)
    requires c in {' ', '\t', '\n', 11 as char, 12 as char, '\r'} && s != "" && d != "" && AllDigits(d)
    ensures StrToInt([c] + s) == StrToInt(s) && StrToInt([c]) == Exit(3)
    ensures StrToInt("+" + d) == StrToInt(d)
  {
    assert ([c] + s)[1..] == s;
    assert SkipSpace([c] + s) == SkipSpace(s);
    assert [c][1..] == "";
    assert SkipSpace([c]) == "";
    DigitsAreRead(d);
    var p := "+" + d;
    assert p[0] == '+' && p[1..] == d && SkipSpace(p) == p && SkipSpace(d) == d;
  }

  /** A number that something else follows ends the process. */
  lemma TrailingTextIsRejected(d: string, c: char, rest: string)
    requires d != "" && AllDigits(d) && !IsDigit(c)
    ensures StrToInt(d + [c] + rest) == Exit(3)
    ensures StrToInt("-" + (d + [c] + rest)) == Exit(3)
  {
    var s := d + [c] + rest;
    assert s[0] == d[0] && IsDigit(d[0]);
    DigitsBefore(d, c, rest);
    assert ("-" + s)[1..] == s;
  }

  /** So does a text that begins neither with white space nor as a number does; an empty text is 0. */
  lemma OtherTextIsRejected(c: char, s: string)
    requires c !in {' ', '\t', '\n', 11 as char, 12 as char, '\r'} && !('0' <= c <= '9')
    requires c == '-' || c == '+' ==> s == "" || !('0' <= s[0] <= '9')
    ensures StrToInt([c] + s) == Exit(3)
    ensures StrToInt("") == Ok(0)
  {
    var t := [c] + s;
    assert t[0] == c && t[1..] == s && SkipSpace(t) == t;
  }

  /** Leading zeros change nothing. */
  lemma LeadingZero(d: string)
    requires d != "" && AllDigits(d)
    ensures StrToInt("0" + d) == StrToInt(d)
    ensures StrToInt("-0" + d) == StrToInt("-" + d)
  {
    ZeroBefore(d);
    PlainIsRead("0" + d);
    PlainIsRead(d);
    assert "-0" + d == "-" + ("0" + d);
    NegativeIsRead("0" + d);
    NegativeIsRead(d);
  }

  lemma {:induction false} ZeroBefore(d: string)
    requires AllDigits(d)
    ensures AllDigits("0" + d) && DigitsValue("0" + d) == DigitsValue(d)
  {
    if d != "" {
      var init := d[..|d| - 1];
      ZeroBefore(init);
      assert ("0" + d)[..|d|] == "0" + init;
    }
  }

  lemma {:induction false} DigitsBefore(d: string, c: char, rest: string)
    requires AllDigits(d) && !IsDigit(c)
    ensures LeadingDigits(d + [c] + rest) == |d|
  {
    var s := d + [c] + rest;
    if d == "" {
      assert s[0] == c;
    } else {
      assert s[0] == d[0] && s[1..] == d[1..] + [c] + rest;
      DigitsBefore(d[1..], c, rest);
    }
  }

  lemma DecimalIsRead(n: int)
    ensures StrToL(Decimal(n)) == (Clamp(n), "")
  {
    if n < 0 {
      DecimalRoundTrip(-n);
      NegativeIsRead(DecimalNat(-n));
    } else {
      DecimalRoundTrip(n);
      PlainIsRead(DecimalNat(n));
    }
  }

  lemma SameIn32Bits(n: int)
    ensures ToInt32(Clamp(n)) == n <==> -0x8000_0000 <= n < 0x8000_0000
  {
  }
}
