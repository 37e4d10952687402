/** Path names: path_parse and path_depth_cnt of fs/fs.c and normalize_path of shell/buildin_cmd.c. A path is the sequence
    of its characters; its terminating NUL is the end of the sequence. */
module Paths {
  import opened Words
  import opened DirEntries

  type Name = seq<byte>

  const SLASH: byte := 47
  const PERIOD: byte := 46

  /** No NUL, and no slash either. */
  predicate Plain(s: seq<byte>) {
    forall k :: 0 <= k < |s| ==> s[k] != SLASH && s[k] != 0
  }

  /** The leading characters of s that are not slashes. */
  function Head(s: seq<byte>): (h: Name)
    ensures |h| <= |s| && h == s[..|h|]
    ensures forall k :: 0 <= k < |h| ==> h[k] != SLASH
    ensures |h| < |s| ==> s[|h|] == SLASH
  {
    if |s| == 0 || s[0] == SLASH then [] else [s[0]] + Head(s[1..])
  }

  /** The components of a path: its maximal pieces without slashes that are not empty. */
  function Components(s: seq<byte>): seq<Name> {
    if |s| == 0 then []
    else if s[0] == SLASH then Components(s[1..])
    else [Head(s)] + Components(s[|Head(s)|..])
  }

  lemma {:induction false} ComponentsPlain(s: seq<byte>)
    requires forall k :: 0 <= k < |s| ==> s[k] != 0
    ensures forall k :: 0 <= k < |Components(s)| ==> Components(s)[k] != [] && Plain(Components(s)[k])
    decreases |s|
  {
    if |s| == 0 {
    } else if s[0] == SLASH {
      ComponentsPlain(s[1..]);
    } else {
      ComponentsPlain(s[|Head(s)|..]);
    }
  }

  /** "/" and the components, each with a slash in front. */
  function Joined(cs: seq<Name>): seq<byte> {
    if |cs| == 0 then [] else Joined(cs[..|cs| - 1]) + [SLASH] + cs[|cs| - 1]
  }

  lemma {:induction false} HeadOf(c: Name, s: seq<byte>)
    requires Plain(c) && (|s| > 0 ==> s[0] == SLASH)
    ensures Head(c + s) == c
  {
    if |c| == 0 {
      assert c + s == s;
    } else {
      assert (c + s)[1..] == c[1..] + s;
      HeadOf(c[1..], s);
    }
  }

  lemma {:induction false} ComponentsConcat(s: seq<byte>, t: seq<byte>)
    requires |t| > 0 ==> t[0] == SLASH
    ensures Components(s + t) == Components(s) + Components(t)
    decreases |s|
  {
    if |s| == 0 {
      assert s + t == t;
    } else if s[0] == SLASH {
      assert (s + t)[1..] == s[1..] + t;
      ComponentsConcat(s[1..], t);
    } else {
      var h := Head(s);
      HeadConcat(s, t);
      assert (s + t)[|h|..] == s[|h|..] + t;
      ComponentsConcat(s[|h|..], t);
      assert [h] + (Components(s[|h|..]) + Components(t)) == ([h] + Components(s[|h|..])) + Components(t);
    }
  }

  lemma {:induction false} HeadConcat(s: seq<byte>, t: seq<byte>)
    requires |t| > 0 ==> t[0] == SLASH
    ensures Head(s + t) == Head(s)
  {
    if |s| == 0 {
      assert s + t == t;
    } else if s[0] != SLASH {
      assert (s + t)[1..] == s[1..] + t;
      HeadConcat(s[1..], t);
    }
  }

  lemma ComponentsOfOne(c: Name)
    requires Plain(c) && c != []
    ensures Components([SLASH] + c) == [c]
  {
    assert ([SLASH] + c)[1..] == c;
    HeadOf(c, []);
    assert c + [] == c;
    assert c[0] != SLASH;
    assert Components(c) == [c] + Components(c[|c|..]);
    assert c[|c|..] == [];
  }

  lemma NoComponents()
    ensures Components([]) == []
  {
  }

  /** Splitting what was joined gives the components back. */
  lemma {:induction false} ComponentsOfJoined(cs: seq<Name>)
    requires forall k :: 0 <= k < |cs| ==> Plain(cs[k]) && cs[k] != []
    ensures Components(Joined(cs)) == cs
  {
    hide Components;
    if cs == [] {
      NoComponents();
    } else {
      var n := |cs| - 1;
      ComponentsOfJoined(cs[..n]);
      ComponentsConcat(Joined(cs[..n]), [SLASH] + cs[n]);
      ComponentsOfOne(cs[n]);
      assert Joined(cs) == Joined(cs[..n]) + ([SLASH] + cs[n]);
    }
  }

  // --- path_parse and path_depth_cnt ---

  /** All components fit into a buffer of n bytes, NUL included. */
  predicate Fit(cs: seq<Name>, n: nat) {
    n > 0 && forall k :: 0 <= k < |cs| ==> |cs[k]| < n
  }

  lemma FitRoom(cs: seq<Name>, n: nat)
    requires Fit(cs, n)
    ensures n > 0
  {
  }

  lemma FitTail(name: Name, rest: seq<Name>, n: nat)
    requires Fit([name] + rest, n)
    ensures |name| < n && Fit(rest, n)
  {
    assert ([name] + rest)[0] == name;
    assert forall k :: 0 <= k < |rest| ==> ([name] + rest)[k + 1] == rest[k];
  }

  /** path_parse, from position `at` of a path: leading slashes are skipped, the characters up to the next slash or the end
      are stored, in a buffer of `room` bytes, and the position after them is returned. */
  method PathParse(s: seq<byte>, at: nat, ghost room: nat) returns (next: nat, name: Name)
    requires at <= |s| && Fit(Components(s[at..]), room)
    ensures at <= next <= |s|
    ensures |name| < room && Fit(Components(s[next..]), room)
    ensures name == [] ==> Components(s[at..]) == []
    ensures name != [] ==> next >= at + |name| && Components(s[at..]) == [name] + Components(s[next..])
    ensures name != [] && s[at] == SLASH ==> next >= at + 1 + |name|
    ensures next < |s| ==> s[next] == SLASH
  {
    hide Components, Head, Fit;
    next := at;
    if next < |s| && s[next] == SLASH {
      SkipSlash(s, next);
      next := next + 1;
      while next < |s| && s[next] == SLASH
        invariant at < next <= |s|
        invariant Components(s[at..]) == Components(s[next..])
      {
        SkipSlash(s, next);
        next := next + 1;
      }
    }
    ghost var from := next;
    name := [];
    while next < |s| && s[next] != SLASH
      invariant from <= next <= |s|
      invariant name == s[from..next]
      invariant forall k :: 0 <= k < |name| ==> name[k] != SLASH
    {
      name := name + [s[next]];
      next := next + 1;
    }
    TakeName(s, from, name);
    FitRoom(Components(s[at..]), room);
    if name != [] {
      FitTail(name, Components(s[next..]), room);
    }
  }

  lemma SkipSlash(s: seq<byte>, i: nat)
    requires i < |s| && s[i] == SLASH
    ensures Components(s[i..]) == Components(s[i + 1..])
  {
    assert s[i..][1..] == s[i + 1..];
  }

  lemma TakeName(s: seq<byte>, from: nat, name: Name)
    requires from + |name| <= |s| && name == s[from..from + |name|]
    requires forall k :: 0 <= k < |name| ==> name[k] != SLASH
    requires from + |name| < |s| ==> s[from + |name|] == SLASH
    requires from < |s| && s[from] == SLASH ==> name == []
    requires name == [] ==> from == |s|
    ensures name == [] ==> Components(s[from..]) == []
    ensures name != [] ==> Components(s[from..]) == [name] + Components(s[from + |name|..])
  {
    HeadUpTo(s[from..], name);
    assert s[from..][|name|..] == s[from + |name|..];
  }

  lemma {:induction false} HeadUpTo(s: seq<byte>, name: Name)
    requires |name| <= |s| && name == s[..|name|]
    requires forall k :: 0 <= k < |name| ==> name[k] != SLASH
    requires |name| < |s| ==> s[|name|] == SLASH
    ensures Head(s) == name
  {
    if |name| > 0 {
      HeadUpTo(s[1..], name[1..]);
    }
  }

  /** path_depth_cnt */
  method PathDepthCnt(s: seq<byte>) returns (depth: nat)
    requires Fit(Components(s), NAME_LEN)
    ensures depth == |Components(s)|
  {
    depth := 0;
    assert s[0..] == s;
    var p, name := PathParse(s, 0, NAME_LEN);
    while name != []
      invariant p <= |s| && Fit(Components(s[p..]), NAME_LEN)
      invariant |Components(s)| == if name == [] then depth else depth + 1 + |Components(s[p..])|
      decreases |s| - p, name != []
    {
      depth := depth + 1;
      p, name := PathParse(s, p, NAME_LEN);
    }
  }

  // --- normalize_path ---

  /** What a component does to the directories above: "." nothing, ".." drops the last, if any, a name is added. */
  function Push(stack: seq<Name>, c: Name): seq<Name> {
    if c == [PERIOD] then stack
    else if c == [PERIOD, PERIOD] then (if |stack| > 0 then stack[..|stack| - 1] else stack)
    else stack + [c]
  }

  function Fold(stack: seq<Name>, cs: seq<Name>): seq<Name>
    decreases |cs|
  {
    if |cs| == 0 then stack else Fold(Push(stack, cs[0]), cs[1..])
  }

  /** The path that a stack of components stands for: the root is "/". */
  function Render(stack: seq<Name>): seq<byte> {
    if |stack| == 0 then [SLASH] else Joined(stack)
  }

  /** Every component is a proper name. */
  predicate Normal(stack: seq<Name>) {
    forall k :: 0 <= k < |stack| ==>
      Plain(stack[k]) && stack[k] != [] && stack[k] != [PERIOD] && stack[k] != [PERIOD, PERIOD]
  }

  lemma {:induction false} FoldNormal(stack: seq<Name>, cs: seq<Name>)
    requires Normal(stack) && forall k :: 0 <= k < |cs| ==> Plain(cs[k]) && cs[k] != []
    ensures Normal(Fold(stack, cs))
    decreases |cs|
  {
    if |cs| > 0 {
      FoldNormal(Push(stack, cs[0]), cs[1..]);
    }
  }

  lemma {:induction false} FoldOfNormal(stack: seq<Name>, cs: seq<Name>)
    requires Normal(cs)
    ensures Fold(stack, cs) == stack + cs
    decreases |cs|
  {
    if |cs| == 0 {
      assert stack + cs == stack;
    } else {
      FoldOfNormal(stack + [cs[0]], cs[1..]);
      assert stack + [cs[0]] + cs[1..] == stack + cs;
    }
  }

  function Normalized(s: seq<byte>): seq<byte> {
    Render(Fold([], Components(s)))
  }

  lemma ComponentsOfRender(stack: seq<Name>)
    requires Normal(stack)
    ensures Components(Render(stack)) == stack
  {
    if |stack| == 0 {
      assert Components([SLASH]) == Components([SLASH][1..]);
    } else {
      ComponentsOfJoined(stack);
    }
  }

  /** A normalized path has only proper names as components, and normalizing it again changes nothing. */
  lemma NormalizedMeaning(s: seq<byte>)
    requires forall k :: 0 <= k < |s| ==> s[k] != 0
    ensures Normal(Components(Normalized(s)))
    ensures Components(Normalized(s)) == Fold([], Components(s))
    ensures Normalized(Normalized(s)) == Normalized(s)
  {
    ComponentsPlain(s);
    var stack := Fold([], Components(s));
    FoldNormal([], Components(s));
    ComponentsOfRender(stack);
    FoldOfNormal([], stack);
    assert [] + stack == stack;
  }

  lemma {:induction false} FoldOneMore(stack: seq<Name>, cs: seq<Name>, c: Name)
    ensures Fold(stack, cs + [c]) == Push(Fold(stack, cs), c)
    decreases |cs|
  {
    if |cs| > 0 {
      assert (cs + [c])[1..] == cs[1..] + [c];
      FoldOneMore(Push(stack, cs[0]), cs[1..], c);
    }
  }

  lemma NormalizedOneMore(s: seq<byte>, c: Name)
    requires (forall k :: 0 <= k < |s| ==> s[k] != 0) && Plain(c) && c != []
    ensures Components(Normalized(s + ([SLASH] + c))) == Push(Components(Normalized(s)), c)
  {
    hide Components, Fold, Push, Render;
    var t := s + ([SLASH] + c);
    ComponentsConcat(s, [SLASH] + c);
    ComponentsOfOne(c);
    FoldOneMore([], Components(s), c);
    assert forall k :: 0 <= k < |t| ==> t[k] != 0;
    NormalizedMeaning(s);
    NormalizedMeaning(t);
  }

  // The next four lemmas determine the components of every normalized path.

  /** The empty path is normalized to the root. */
  lemma NormalizedEmpty()
    ensures Components(Normalized([])) == []
  {
    NoComponents();
    ComponentsOfRender([]);
  }

  /** "." at the end changes nothing. */
  lemma NormalizedDot(s: seq<byte>)
    requires forall k :: 0 <= k < |s| ==> s[k] != 0
    ensures Components(Normalized(s + [SLASH, PERIOD])) == Components(Normalized(s))
  {
    NormalizedOneMore(s, [PERIOD]);
    assert [SLASH] + [PERIOD] == [SLASH, PERIOD];
  }

  /** ".." at the end drops the last component, and at the root nothing. */
  lemma NormalizedDotDot(s: seq<byte>)
    requires forall k :: 0 <= k < |s| ==> s[k] != 0
    ensures var cs := Components(Normalized(s));
            Components(Normalized(s + [SLASH, PERIOD, PERIOD])) == if cs == [] then [] else cs[..|cs| - 1]
  {
    NormalizedOneMore(s, [PERIOD, PERIOD]);
    assert [SLASH] + [PERIOD, PERIOD] == [SLASH, PERIOD, PERIOD];
  }

  /** Any other name at the end becomes the last component. */
  lemma NormalizedName(s: seq<byte>, c: Name)
    requires forall k :: 0 <= k < |s| ==> s[k] != 0
    requires Plain(c) && c != [] && c != [PERIOD] && c != [PERIOD, PERIOD]
    ensures Components(Normalized(s + [SLASH] + c)) == Components(Normalized(s)) + [c]
  {
    NormalizedOneMore(s, c);
    assert s + [SLASH] + c == s + ([SLASH] + c);
  }

  lemma {:induction false} JoinedText(stack: seq<Name>)
    requires |stack| > 0 && forall k :: 0 <= k < |stack| ==> Plain(stack[k]) && stack[k] != []
    ensures var t := Joined(stack);
            && |t| > 1 && t[0] == SLASH && t[|t| - 1] != SLASH
            && forall k :: 0 <= k < |t| - 1 ==> !(t[k] == SLASH && t[k + 1] == SLASH)
  {
    var n := |stack| - 1;
    var c := stack[n];
    if n > 0 {
      JoinedText(stack[..n]);
    }
    var t, before := Joined(stack), Joined(stack[..n]);
    assert t == before + [SLASH] + c;
    assert t[|t| - 1] == c[|c| - 1];
    forall k | 0 <= k < |t| - 1
      ensures !(t[k] == SLASH && t[k + 1] == SLASH)
    {
      if k + 1 > |before| {
        assert t[k + 1] == c[k - |before|];
      } else if k + 1 < |before| {
        assert t[k] == before[k] && t[k + 1] == before[k + 1];
      } else {
        assert t[k] == before[|before| - 1];
      }
    }
  }

  /** A normalized path is "/", or starts with a slash, does not end in one and has no two in a row. */
  lemma NormalizedText(s: seq<byte>)
    requires forall k :: 0 <= k < |s| ==> s[k] != 0
    ensures var t := Normalized(s);
            t == [SLASH] || (|t| > 1 && t[0] == SLASH && t[|t| - 1] != SLASH
                             && forall k :: 0 <= k < |t| - 1 ==> !(t[k] == SLASH && t[k + 1] == SLASH))
  {
    ComponentsPlain(s);
    FoldNormal([], Components(s));
    var stack := Fold([], Components(s));
    if |stack| > 0 {
      JoinedText(stack);
    }
  }

  // --- C strings in a buffer ---

  /** The buffer holds the string s and its terminating NUL. */
  ghost predicate HoldsString(buf: array<byte>, s: seq<byte>)
    reads buf
  {
    && |s| < buf.Length
    && buf[..|s|] == s
    && buf[|s|] == 0
    && forall k :: 0 <= k < |s| ==> s[k] != 0
  }

  method StrLen(buf: array<byte>, ghost s: seq<byte>) returns (n: nat)
    requires HoldsString(buf, s)
    ensures n == |s|
  {
    assert forall k :: 0 <= k < |s| ==> buf[k] == buf[..|s|][k];
    n := 0;
    while buf[n] != 0
      invariant n <= |s|
      decreases |s| - n
    {
      n := n + 1;
    }
  }

  /** strcat */
  method StrCat(buf: array<byte>, src: seq<byte>, ghost s: seq<byte>)
    requires HoldsString(buf, s) && |s| + |src| < buf.Length
    requires forall k :: 0 <= k < |src| ==> src[k] != 0
    modifies buf
    ensures HoldsString(buf, s + src)
  {
    var n := StrLen(buf, s);
    for k := 0 to |src|
      invariant buf[..n] == s && buf[n..n + k] == src[..k]
    {
      buf[n + k] := src[k];
    }
    assert src[..|src|] == src;
    buf[n + |src|] := 0;
    assert buf[..n] == s && buf[n..n + |src|] == src;
    assert buf[..n + |src|] == buf[..n] + buf[n..n + |src|];
  }

  /** strrchr(buf, '/') */
  method StrRchrSlash(buf: array<byte>, ghost s: seq<byte>) returns (r: nat)
    requires HoldsString(buf, s) && SLASH in s
    ensures r < |s| && s[r] == SLASH && forall k :: r < k < |s| ==> s[k] != SLASH
  {
    assert forall k :: 0 <= k < |s| ==> buf[k] == buf[..|s|][k];
    var p := 0;
    r := 0;
    while buf[p] != 0
      invariant p <= |s|
      invariant SLASH in s[..p] ==> r < p && s[r] == SLASH && forall k :: r < k < p ==> s[k] != SLASH
      decreases |s| - p
    {
      if buf[p] == SLASH {
        r := p;
      }
      p := p + 1;
    }
    assert s[..p] == s;
  }

  /** Writing a NUL at position n cuts the string. */
  method Cut(buf: array<byte>, n: nat, ghost s: seq<byte>)
    requires HoldsString(buf, s) && n <= |s|
    modifies buf
    ensures HoldsString(buf, s[..n])
  {
    assert buf[..n] == s[..n] by {
      assert buf[..n] == buf[..|s|][..n];
    }
    buf[n] := 0;
  }

  lemma JoinedShape(stack: seq<Name>)
    requires Normal(stack) && |stack| > 0
    ensures var n := |stack| - 1;
            var r := |Joined(stack[..n])|;
            && Joined(stack)[r] == SLASH
            && (forall k :: r < k < |Joined(stack)| ==> Joined(stack)[k] != SLASH)
            && Joined(stack)[..r] == Joined(stack[..n])
            && |Joined(stack)| >= 2
  {
    var n := |stack| - 1;
    assert Plain(stack[n]);
  }

  /** One component of the path has been folded in, the next one parsed. */
  lemma FoldStep(stack: seq<Name>, name: Name, rest: seq<byte>, next: Name, rest': seq<byte>)
    requires Normal(stack) && Plain(name) && name != []
    requires if next == [] then Components(rest) == [] else Components(rest) == [next] + Components(rest')
    ensures Normal(Push(stack, name))
    ensures Fold(stack, [name] + Components(rest)) ==
            if next == [] then Push(stack, name) else Fold(Push(stack, name), [next] + Components(rest'))
  {
    assert ([name] + Components(rest))[1..] == Components(rest);
  }

  lemma FirstPlain(s: seq<byte>, name: Name, rest: seq<byte>)
    requires forall k :: 0 <= k < |s| ==> s[k] != 0
    requires name != [] ==> Components(s) == [name] + Components(rest)
    ensures name != [] ==> Plain(name)
  {
    ComponentsPlain(s);
    assert name != [] ==> Components(s)[0] == name;
  }

  /** Pushing never needs more room than the path being read. */
  lemma PushRoom(stack: seq<Name>, name: Name)
    ensures |Joined(Push(stack, name))| <= |Joined(stack)| + 1 + |name|
  {
    assert (stack + [name])[..|stack|] == stack;
  }

  /** normalize_path: the new path is edited in place in a buffer that has room for the old one and a slash more. */
  method NormalizePath(oldPath: seq<byte>, newPath: array<byte>)
    requires forall k :: 0 <= k < |oldPath| ==> oldPath[k] != 0
    requires newPath.Length >= |oldPath| + 2 && Fit(Components(oldPath), NAME_LEN)
    modifies newPath
    ensures HoldsString(newPath, Normalized(oldPath))
  {
    hide Components, Fold, Push, Joined, HoldsString, Normal;
    StartPath(newPath);
    ghost var stack: seq<Name> := [];
    EmptyStack();
    ghost var whole := Components(oldPath);
    assert oldPath[0..] == oldPath;
    var subPath, name := PathParse(oldPath, 0, NAME_LEN);
    FirstPlain(oldPath, name, oldPath[subPath..]);
    while name != []
      invariant subPath <= |oldPath| && Fit(Components(oldPath[subPath..]), NAME_LEN)
      invariant HoldsString(newPath, Render(stack)) && Normal(stack)
      invariant name != [] ==> Plain(name)
      invariant Fold([], whole) == if name == [] then stack else Fold(stack, [name] + Components(oldPath[subPath..]))
      invariant subPath < |oldPath| ==> oldPath[subPath] == SLASH
      invariant name != [] ==> |Joined(stack)| + |name| <= subPath
      decreases |oldPath| - subPath, name != []
    {
      PushRoom(stack, name);
      ghost var next := Push(stack, name);
      ghost var rest := oldPath[subPath..];
      NormalizeStep(newPath, stack, name);
      ghost var done := name;
      subPath, name := PathParse(oldPath, subPath, NAME_LEN);
      FirstPlain(rest, name, oldPath[subPath..]);
      FoldStep(stack, done, rest, name, oldPath[subPath..]);
      stack := next;
    }
  }

  /** `new_path[0] = '/'; new_path[1] = 0;` */
  method StartPath(newPath: array<byte>)
    requires newPath.Length >= 2
    modifies newPath
    ensures HoldsString(newPath, Render([]))
  {
    newPath[0] := SLASH;
    newPath[1] := 0;
    assert newPath[..1] == [SLASH];
  }

  lemma EmptyStack()
    ensures Normal([]) && Joined([]) == [] && Fold([], []) == []
  {
  }

  /** The body of the loop of normalize_path, up to parsing the next component. */
  method NormalizeStep(newPath: array<byte>, ghost stack: seq<Name>, name: Name)
    requires HoldsString(newPath, Render(stack)) && Normal(stack)
    requires Plain(name) && name != [] && |Joined(stack)| + |name| + 1 < newPath.Length
    modifies newPath
    ensures HoldsString(newPath, Render(Push(stack, name)))
  {
    if name == [PERIOD] {
    } else if name == [PERIOD, PERIOD] {
      PopName(newPath, stack);
    } else {
      PushName(newPath, stack, name);
    }
  }

  lemma LastSlash(stack: seq<Name>)
    requires Normal(stack)
    ensures |Render(stack)| > 0 && Render(stack)[0] == SLASH
  {
    JoinedStart(stack);
  }

  /** What is left of a path in front of its last slash, or the slash itself if it is the first character */
  lemma CutAtLast(stack: seq<Name>, slash: nat)
    requires Normal(stack) && slash < |Render(stack)| && Render(stack)[slash] == SLASH
    requires forall k :: slash < k < |Render(stack)| ==> Render(stack)[k] != SLASH
    ensures Render(stack)[..if slash != 0 then slash else 1] == Render(Push(stack, [PERIOD, PERIOD]))
  {
    if |stack| > 0 {
      JoinedShape(stack);
      JoinedStart(stack[..|stack| - 1]);
      hide Joined, Normal;
      assert slash == |Joined(stack[..|stack| - 1])|;
    }
  }

  /** The ".." branch: everything from the last slash on goes, except the root's own slash. */
  method PopName(newPath: array<byte>, ghost stack: seq<Name>)
    requires HoldsString(newPath, Render(stack)) && Normal(stack)
    modifies newPath
    ensures HoldsString(newPath, Render(Push(stack, [PERIOD, PERIOD])))
  {
    hide Render, Push, Normal;
    ghost var s := Render(stack);
    LastSlash(stack);
    var slash := StrRchrSlash(newPath, s);
    CutAtLast(stack, slash);
    if slash != 0 {
      Cut(newPath, slash, s);
    } else {
      Cut(newPath, slash + 1, s);
    }
  }

  lemma {:induction false} JoinedStart(stack: seq<Name>)
    ensures |stack| > 0 ==> |Joined(stack)| > 0 && Joined(stack)[0] == SLASH
  {
    if |stack| > 1 {
      JoinedStart(stack[..|stack| - 1]);
    }
  }

  /** The last branch: a slash, except after the root's own, and the name. */
  method PushName(newPath: array<byte>, ghost stack: seq<Name>, name: Name)
    requires HoldsString(newPath, Render(stack)) && Normal(stack)
    requires Plain(name) && |Joined(stack)| + |name| + 1 < newPath.Length
    modifies newPath
    ensures HoldsString(newPath, Joined(stack + [name]))
  {
    ghost var s := Render(stack);
    assert (stack + [name])[..|stack|] == stack;
    if |stack| > 0 {
      JoinedShape(stack);
      assert newPath[..|s|][1] == s[1];
    }
    if newPath[1] != 0 {
      StrCat(newPath, [SLASH], s);
      s := s + [SLASH];
    }
    StrCat(newPath, name, s);
  }
}
