/** `path_normalize` of src/systems/path.c: the in-place rewrite, the component-stack fold it
    computes, and what that fold means for path resolution. */
module PathNormalize {
  datatype ErrorCode = Ok | Overflow

  const MAX_COMPONENTS: nat := 64

  // ----- paths as component lists --------------------------------------------------------------

  predicate IsAbsolute(s: string) {
    s != [] && s[0] == '/'
  }

  /** How many characters come before the first separator. */
  function NameLength(s: string): (n: nat)
    ensures n <= |s|
    ensures n < |s| ==> s[n] == '/'
    ensures forall i :: 0 <= i < n ==> s[i] != '/'
  {
    if s == [] || s[0] == '/' then 0 else 1 + NameLength(s[1..])
  }

  /** The non-empty components between separators. */
  function Components(s: string): seq<string>
    decreases |s|
  {
    if s == [] then []
    else if s[0] == '/' then Components(s[1..])
    else [s[..NameLength(s)]] + Components(s[NameLength(s)..])
  }

  /** The component stack; its first `dotdots` entries are ".." components that cannot be popped. */
  datatype Stack = Full | Stack(comps: seq<string>, dotdots: nat)

  function Push(st: Stack, c: string): Stack
    requires st.Stack?
  {
    if |st.comps| >= MAX_COMPONENTS then Full else st.(comps := st.comps + [c])
  }

  function Feed(st: Stack, c: string, absolute: bool): Stack {
    if st.Full? || c == "." then st
    else if c == ".." && |st.comps| > st.dotdots then st.(comps := st.comps[..|st.comps| - 1])
    else if c == ".." && absolute then st
    else if c == ".." then Push(st.(dotdots := st.dotdots + 1), c)
    else Push(st, c)
  }

  function FeedAll(st: Stack, comps: seq<string>, absolute: bool): Stack
    decreases |comps|
  {
    if comps == [] then st else FeedAll(Feed(st, comps[0], absolute), comps[1..], absolute)
  }

  /** The text of a stack: every component behind a separator, except the first of a relative path. */
  function Body(comps: seq<string>, absolute: bool): string {
    if comps == [] then []
    else
      var n := |comps| - 1;
      Body(comps[..n], absolute) + (if absolute || n > 0 then "/" else "") + comps[n]
  }

  function Render(comps: seq<string>, absolute: bool): string {
    if comps != [] then Body(comps, absolute) else if absolute then "/" else "."
  }

  datatype Outcome = Refused | Path(text: string)

  /** What `path_normalize` computes. */
  function Normalize(s: string): Outcome {
    match FeedAll(Stack([], 0), Components(s), IsAbsolute(s))
    case Full => Refused
    case Stack(comps, _) => Path(Render(comps, IsAbsolute(s)))
  }

  // ----- the shape of the stack ----------------------------------------------------------------

  predicate IsName(c: string) {
    c != [] && c != "." && '/' !in c
  }

  /** Leading ".." components of a relative path, then ordinary names. */
  ghost predicate DotdotsLead(comps: seq<string>, dotdots: nat, absolute: bool) {
    && dotdots <= |comps|
    && (absolute ==> dotdots == 0)
    && (forall i :: 0 <= i < |comps| ==> IsName(comps[i]))
    && (forall i :: 0 <= i < |comps| ==> (comps[i] == ".." <==> i < dotdots))
  }

  ghost predicate Normal(st: Stack, absolute: bool) {
    st.Stack? ==> |st.comps| <= MAX_COMPONENTS && DotdotsLead(st.comps, st.dotdots, absolute)
  }

  predicate Separated(c: string) {
    c != [] && '/' !in c
  }

  lemma {:induction false} ComponentsAreSeparated(s: string)
    ensures forall i :: 0 <= i < |Components(s)| ==> Separated(Components(s)[i])
    decreases |s|
  {
    if s != [] {
      if s[0] == '/' {
        ComponentsAreSeparated(s[1..]);
      } else {
        var n := NameLength(s);
        ComponentsAreSeparated(s[n..]);
        assert forall x :: x in s[..n] ==> x != '/';
      }
    }
  }

  lemma {:induction false} FeedAllNormal(st: Stack, comps: seq<string>, absolute: bool)
    requires Normal(st, absolute) && forall i :: 0 <= i < |comps| ==> Separated(comps[i])
    ensures Normal(FeedAll(st, comps, absolute), absolute)
    decreases |comps|
  {
    if comps != [] {
      assert Separated(comps[0]);
      FeedAllNormal(Feed(st, comps[0], absolute), comps[1..], absolute);
    }
  }

  lemma {:induction false} FeedAllAppend(st: Stack, a: seq<string>, b: seq<string>, absolute: bool)
    ensures FeedAll(st, a + b, absolute) == FeedAll(FeedAll(st, a, absolute), b, absolute)
    decreases |a|
  {
    if a == [] {
      assert a + b == b;
    } else {
      assert (a + b)[1..] == a[1..] + b;
      FeedAllAppend(Feed(st, a[0], absolute), a[1..], b, absolute);
    }
  }

  // ----- reading a rendered path back ----------------------------------------------------------

  lemma {:induction false} NameLengthOf(c: string, rest: string)
    requires '/' !in c && (rest == [] || rest[0] == '/')
    ensures NameLength(c + rest) == |c|
  {
    if c != [] {
      assert (c + rest)[1..] == c[1..] + rest;
      NameLengthOf(c[1..], rest);
    }
  }

  /** A name before a separator or the end is the first component. */
  lemma {:induction false} NameFirst(c: string, rest: string)
    requires Separated(c) && (rest == [] || rest[0] == '/')
    ensures Components(c + rest) == [c] + Components(rest)
  {
    NameLengthOf(c, rest);
    assert (c + rest)[..|c|] == c && (c + rest)[|c|..] == rest;
  }

  lemma {:induction false} NameThenAppend(c: string, rest: string, b: string)
    requires Separated(c) && (rest == [] || rest[0] == '/') && (b == [] || b[0] == '/')
    requires Components(rest + b) == Components(rest) + Components(b)
    ensures Components(c + rest + b) == Components(c + rest) + Components(b)
  {
    assert c + rest + b == c + (rest + b);
    NameFirst(c, rest);
    NameFirst(c, rest + b);
  }

  /** Splitting at a separator splits the components. */
  lemma {:induction false} ComponentsAppend(a: string, b: string)
    requires b == [] || b[0] == '/'
    ensures Components(a + b) == Components(a) + Components(b)
    decreases |a|
  {
    if a == [] {
      assert a + b == b;
    } else if a[0] == '/' {
      assert (a + b)[1..] == a[1..] + b;
      ComponentsAppend(a[1..], b);
    } else {
      var n := NameLength(a);
      var c, rest := a[..n], a[n..];
      assert a == c + rest;
      ComponentsAppend(rest, b);
      NameThenAppend(c, rest, b);
    }
  }

  lemma {:induction false} SingleComponent(c: string)
    requires Separated(c)
    ensures Components(c) == [c] && Components("/" + c) == [c]
  {
    NameLengthOf(c, []);
    assert c + [] == c;
    assert ("/" + c)[1..] == c;
  }

  lemma {:induction false} ComponentsOfBody(comps: seq<string>, absolute: bool)
    requires forall i :: 0 <= i < |comps| ==> Separated(comps[i])
    ensures Components(Body(comps, absolute)) == comps
    ensures comps != [] ==> IsAbsolute(Body(comps, absolute)) == absolute && Body(comps, absolute) != []
  {
    if comps != [] {
      var n := |comps| - 1;
      var front := Body(comps[..n], absolute);
      ComponentsOfBody(comps[..n], absolute);
      SingleComponent(comps[n]);
      assert comps[..n] + [comps[n]] == comps;
      if absolute || n > 0 {
        assert Body(comps, absolute) == front + ("/" + comps[n]);
        ComponentsAppend(front, "/" + comps[n]);
      } else {
        assert Body(comps, absolute) == [] + [] + comps[n] == comps[n];
      }
    }
  }

  lemma {:induction false} ComponentsOfRender(comps: seq<string>, absolute: bool)
    requires forall i :: 0 <= i < |comps| ==> Separated(comps[i])
    ensures IsAbsolute(Render(comps, absolute)) == absolute
    ensures Components(Render(comps, absolute)) == if comps == [] && !absolute then ["."] else comps
  {
    ComponentsOfBody(comps, absolute);
    SingleComponent(".");
  }

  // ----- main results about the fold -----------------------------------------------------------

  /** The stack that `path_normalize` ends with. */
  ghost function FinalStack(s: string): Stack {
    FeedAll(Stack([], 0), Components(s), IsAbsolute(s))
  }

  lemma {:induction false} FinalStackNormal(s: string)
    ensures Normal(FinalStack(s), IsAbsolute(s))
  {
    ComponentsAreSeparated(s);
    FeedAllNormal(Stack([], 0), Components(s), IsAbsolute(s));
  }

  /** The result has no empty component, "." only if it is the whole of a relative path, and ".."
      only in a leading run of a relative path; it is absolute exactly if the input is. */
  lemma {:induction false} ResultIsCanonical(s: string)
    requires Normalize(s).Path?
    ensures var t := Normalize(s).text;
            && IsAbsolute(t) == IsAbsolute(s)
            && (t == "." || exists dotdots :: DotdotsLead(Components(t), dotdots, IsAbsolute(s)))
            && t == Render(if t == "." then [] else Components(t), IsAbsolute(s))
  {
    FinalStackNormal(s);
    var st := FinalStack(s);
    assert forall i :: 0 <= i < |st.comps| ==> Separated(st.comps[i]);
    ComponentsOfRender(st.comps, IsAbsolute(s));
    if st.comps != [] || IsAbsolute(s) {
      assert DotdotsLead(Components(Normalize(s).text), st.dotdots, IsAbsolute(s));
    }
  }

  /** A normal stack, fed to the fold again, comes back unchanged. */
  lemma {:induction false} RefeedPrefix(st: Stack, absolute: bool, n: nat)
    requires st.Stack? && Normal(st, absolute) && n <= |st.comps|
    ensures FeedAll(Stack([], 0), st.comps[..n], absolute) ==
            Stack(st.comps[..n], if n < st.dotdots then n else st.dotdots)
  {
    if n > 0 {
      RefeedPrefix(st, absolute, n - 1);
      var c := st.comps[n - 1];
      assert st.comps[..n] == st.comps[..n - 1] + [c];
      FeedAllAppend(Stack([], 0), st.comps[..n - 1], [c], absolute);
      var before := FeedAll(Stack([], 0), st.comps[..n - 1], absolute);
      assert FeedAll(before, [c], absolute) == Feed(before, c, absolute);
    }
  }

  /** Normalizing a normalized path changes nothing, and never overflows. */
  lemma {:induction false} Idempotent(s: string)
    requires Normalize(s).Path?
    ensures Normalize(Normalize(s).text) == Normalize(s)
  {
    FinalStackNormal(s);
    var st, absolute := FinalStack(s), IsAbsolute(s);
    assert forall i :: 0 <= i < |st.comps| ==> Separated(st.comps[i]);
    ComponentsOfRender(st.comps, absolute);
    RefeedPrefix(st, absolute, |st.comps|);
    assert st.comps[..|st.comps|] == st.comps;
    if st.comps == [] && !absolute {
      assert FeedAll(Stack([], 0), ["."], false) == FeedAll(Feed(Stack([], 0), ".", false), [], false);
    }
  }

  /** Where a component leads from a directory; the parent of the root is the root. */
  function Walk(dir: seq<string>, c: string): seq<string> {
    if c == "." then dir
    else if c == ".." then (if dir == [] then [] else dir[..|dir| - 1])
    else dir + [c]
  }

  function WalkAll(dir: seq<string>, comps: seq<string>): seq<string> {
    if comps == [] then dir else Walk(WalkAll(dir, comps[..|comps| - 1]), comps[|comps| - 1])
  }

  /** Lexical resolution of a path from a directory. */
  function Resolve(dir: seq<string>, s: string): seq<string> {
    WalkAll(if IsAbsolute(s) then [] else dir, Components(s))
  }

  lemma {:induction false} WalkAllAppend(dir: seq<string>, a: seq<string>, b: seq<string>)
    ensures WalkAll(dir, a + b) == WalkAll(WalkAll(dir, a), b)
  {
    if b == [] {
      assert a + b == a;
    } else {
      var n := |b| - 1;
      assert (a + b)[..|a + b| - 1] == a + b[..n];
      WalkAllAppend(dir, a, b[..n]);
    }
  }

  /** One step of the fold moves every starting directory as the component does. */
  lemma {:induction false} FeedFollowsWalk(dir: seq<string>, st: Stack, c: string, absolute: bool)
    requires st.Stack? && Normal(st, absolute) && Feed(st, c, absolute).Stack?
    requires absolute ==> dir == []
    ensures WalkAll(dir, Feed(st, c, absolute).comps) == Walk(WalkAll(dir, st.comps), c)
  {
    if c == ".." && |st.comps| > st.dotdots {
      var n := |st.comps| - 1;
      assert st.comps[n] != ".." && st.comps[n] != ".";
      assert (WalkAll(dir, st.comps[..n]) + [st.comps[n]])[..|WalkAll(dir, st.comps[..n])|] ==
        WalkAll(dir, st.comps[..n]);
    } else if c == ".." && absolute {
      assert st.comps == [];
    } else if c != "." {
      assert (st.comps + [c])[..|st.comps|] == st.comps;
    }
  }

  lemma {:induction false} FullStaysFull(comps: seq<string>, absolute: bool)
    ensures FeedAll(Full, comps, absolute).Full?
    decreases |comps|
  {
    if comps != [] {
      FullStaysFull(comps[1..], absolute);
    }
  }

  lemma {:induction false} FeedAllFollowsWalk(dir: seq<string>, st: Stack, comps: seq<string>, absolute: bool)
    requires st.Stack? && Normal(st, absolute) && forall i :: 0 <= i < |comps| ==> Separated(comps[i])
    requires FeedAll(st, comps, absolute).Stack? && (absolute ==> dir == [])
    ensures WalkAll(dir, FeedAll(st, comps, absolute).comps) == WalkAll(WalkAll(dir, st.comps), comps)
    decreases |comps|
  {
    if comps != [] {
      var c, rest := comps[0], comps[1..];
      var st' := Feed(st, c, absolute);
      if st'.Full? {
        FullStaysFull(rest, absolute);
      }
      FeedAllNormal(st, [c], absolute);
      assert FeedAll(st, [c], absolute) == FeedAll(st', [], absolute) == st';
      FeedFollowsWalk(dir, st, c, absolute);
      FeedAllFollowsWalk(dir, st', rest, absolute);
      assert comps == [c] + rest;
      WalkAllAppend(WalkAll(dir, st.comps), [c], rest);
      assert WalkAll(WalkAll(dir, st.comps), [c]) == Walk(WalkAll(WalkAll(dir, st.comps), []), c);
    }
  }

  /** From every starting directory the normalized path leads where the original one did. */
  lemma {:induction false} SameMeaning(dir: seq<string>, s: string)
    requires Normalize(s).Path?
    ensures Resolve(dir, Normalize(s).text) == Resolve(dir, s)
  {
    FinalStackNormal(s);
    ComponentsAreSeparated(s);
    var st, absolute := FinalStack(s), IsAbsolute(s);
    assert forall i :: 0 <= i < |st.comps| ==> Separated(st.comps[i]);
    ComponentsOfRender(st.comps, absolute);
    var base := if absolute then [] else dir;
    FeedAllFollowsWalk(base, Stack([], 0), Components(s), absolute);
    if st.comps == [] && !absolute {
      assert WalkAll(base, ["."]) == Walk(WalkAll(base, []), ".");
    }
  }

  lemma {:induction false} FeedBound(st: Stack, c: string, absolute: bool)
    requires st.Stack? && Feed(st, c, absolute).Stack? && st.dotdots <= |st.comps|
    ensures |Body(Feed(st, c, absolute).comps, absolute)| <=
            |Body(st.comps, absolute)| + |c| + (if absolute || st.comps != [] then 1 else 0)
  {
    assert (st.comps + [c])[..|st.comps|] == st.comps;
  }

  /** Feeding the components of s adds at most |s| characters, counting a separator just skipped. */
  lemma {:induction false} BodyBound(st: Stack, s: string, absolute: bool, skipped: nat)
    requires Normal(st, absolute) && st.Stack? && skipped <= 1
    requires s == [] || s[0] == '/' || skipped == 1 || (st.comps == [] && !absolute)
    ensures var r := FeedAll(st, Components(s), absolute);
            r.Stack? ==> |Body(r.comps, absolute)| <= |Body(st.comps, absolute)| + |s| + skipped
    decreases |s|
  {
    if s != [] {
      if s[0] == '/' {
        BodyBound(st, s[1..], absolute, 1);
      } else {
        var n := NameLength(s);
        var st' := Feed(st, s[..n], absolute);
        assert Components(s)[1..] == Components(s[n..]);
        assert forall x :: x in s[..n] ==> x != '/';
        assert Separated(s[..n]);
        if st'.Full? {
          FullStaysFull(Components(s[n..]), absolute);
        } else {
          FeedAllNormal(st, [s[..n]], absolute);
          assert FeedAll(st, [s[..n]], absolute) == FeedAll(st', [], absolute) == st';
          FeedBound(st, s[..n], absolute);
          BodyBound(st', s[n..], absolute, 0);
        }
      }
    }
  }

  /** The result is never longer than the input, except for the empty input. */
  lemma {:induction false} NeverLongerIffNonEmpty(s: string)
    requires Normalize(s).Path?
    ensures |Normalize(s).text| <= |s| <==> s != []
  {
    BodyBound(Stack([], 0), s, IsAbsolute(s), 0);
    FinalStackNormal(s);
  }

  // ----- when a path is refused ----------------------------------------------------------------

  /** The shape of an unbounded stack: leading "..", then names. */
  datatype Depth = Depth(ups: nat, names: nat)

  function CountOne(n: Depth, c: string, absolute: bool): Depth {
    if c == "." then n
    else if c != ".." then Depth(n.ups, n.names + 1)
    else if n.names > 0 then Depth(n.ups, n.names - 1)
    else if absolute then n
    else Depth(n.ups + 1, 0)
  }

  /** Names counted against "..", with no bound. */
  function CountAll(comps: seq<string>, absolute: bool): Depth {
    if comps == [] then Depth(0, 0)
    else CountOne(CountAll(comps[..|comps| - 1], absolute), comps[|comps| - 1], absolute)
  }

  predicate DeepAt(comps: seq<string>, absolute: bool, k: nat)
    requires k <= |comps|
  {
    var n := CountAll(comps[..k], absolute);
    n.ups + n.names > 64
  }

  /** Some prefix of the components needs more than 64 entries. */
  predicate TooDeep(comps: seq<string>, absolute: bool) {
    exists k :: 0 <= k <= |comps| && DeepAt(comps, absolute, k)
  }

  lemma {:induction false} DeepMore(comps: seq<string>, c: string, absolute: bool)
    ensures TooDeep(comps + [c], absolute) <==> TooDeep(comps, absolute) || DeepAt(comps + [c], absolute, |comps| + 1)
  {
    var all := comps + [c];
    forall k | 0 <= k <= |comps|
      ensures DeepAt(all, absolute, k) == DeepAt(comps, absolute, k)
    {
      assert all[..k] == comps[..k];
    }
    if TooDeep(comps, absolute) {
      var k :| 0 <= k <= |comps| && DeepAt(comps, absolute, k);
      assert DeepAt(all, absolute, k);
    }
  }

  /** One component on a stack that is not full. */
  lemma {:induction false} FeedCounts(st: Stack, c: string, absolute: bool, n: Depth)
    requires st.Stack? && |st.comps| == n.ups + n.names <= 64 && st.dotdots == n.ups
    ensures var st', n' := Feed(st, c, absolute), CountOne(n, c, absolute);
            if n'.ups + n'.names > 64 then st'.Full?
            else st'.Stack? && |st'.comps| == n'.ups + n'.names && st'.dotdots == n'.ups
  {
  }

  lemma {:induction false} FoldCounts(comps: seq<string>, absolute: bool)
    ensures var st, n := FeedAll(Stack([], 0), comps, absolute), CountAll(comps, absolute);
            if TooDeep(comps, absolute) then st.Full?
            else st.Stack? && |st.comps| == n.ups + n.names <= 64 && st.dotdots == n.ups
  {
    if comps == [] {
      assert comps[..0] == [];
    } else {
      var m := |comps| - 1;
      var front, c := comps[..m], comps[m];
      assert comps == front + [c];
      FoldCounts(front, absolute);
      DeepMore(front, c, absolute);
      FeedAllAppend(Stack([], 0), front, [c], absolute);
      var st := FeedAll(Stack([], 0), front, absolute);
      assert FeedAll(st, [c], absolute) == Feed(st, c, absolute);
      assert comps[..m + 1] == comps;
      if st.Stack? { FeedCounts(st, c, absolute, CountAll(front, absolute)); }
    }
  }

  /** A path is refused exactly when, counting names against "..", some prefix of its components
      leaves more than 64. */
  lemma {:induction false} RefusedIff(s: string)
    ensures Normalize(s).Refused? <==> TooDeep(Components(s), IsAbsolute(s))
  {
    FoldCounts(Components(s), IsAbsolute(s));
  }

  lemma {:induction false} NamesCount(comps: seq<string>, absolute: bool, k: nat)
    requires k <= |comps| && forall i :: 0 <= i < |comps| ==> comps[i] != "." && comps[i] != ".."
    ensures CountAll(comps[..k], absolute) == Depth(0, k)
  {
    if k > 0 {
      NamesCount(comps, absolute, k - 1);
      assert comps[..k][..k - 1] == comps[..k - 1];
    }
  }

  /** 64 names are accepted and 65 refused. */
  lemma {:induction false} NamesRefusedIff(s: string)
    requires forall i :: 0 <= i < |Components(s)| ==> Components(s)[i] != "." && Components(s)[i] != ".."
    ensures Normalize(s).Refused? <==> |Components(s)| > 64
  {
    RefusedIff(s);
    var comps := Components(s);
    forall k | 0 <= k <= |comps|
      ensures DeepAt(comps, IsAbsolute(s), k) <==> k > 64
    {
      NamesCount(comps, IsAbsolute(s), k);
    }
    if |comps| > 64 { assert DeepAt(comps, IsAbsolute(s), 65); }
  }

  // ----- the in-place rewrite ------------------------------------------------------------------

  /** The C string at the start of a buffer. */
  function CString(b: seq<char>): string {
    if b == [] || b[0] == '\0' then [] else [b[0]] + CString(b[1..])
  }

  lemma {:induction false} CStringOf(b: seq<char>, n: nat)
    requires n < |b| && b[n] == '\0' && forall j :: 0 <= j < n ==> b[j] != '\0'
    ensures CString(b) == b[..n]
  {
    if n > 0 {
      CStringOf(b[1..], n - 1);
      assert b[..n] == [b[0]] + b[1..][..n - 1];
    }
  }

  method StrLen(path: array<char>) returns (len: nat)
    requires '\0' in path[..]
    ensures len < path.Length && path[len] == '\0' && forall j :: 0 <= j < len ==> path[j] != '\0'
    ensures CString(path[..]) == path[..len]
  {
    ghost var e :| 0 <= e < path.Length && path[..][e] == '\0';
    len := 0;
    while path[len] != '\0'
      invariant 0 <= len <= e
      invariant forall j :: 0 <= j < len ==> path[j] != '\0'
      decreases e - len
    {
      len := len + 1;
    }
    CStringOf(path[..], len);
  }

  method SkipSeparators(path: array<char>, from: nat, len: nat) returns (i: nat)
    requires from <= len <= path.Length
    ensures from <= i <= len && (i < len ==> path[i] != '/')
    ensures forall j :: from <= j < i ==> path[j] == '/'
  {
    i := from;
    while i < len && path[i] == '/'
      invariant from <= i <= len
      invariant forall j :: from <= j < i ==> path[j] == '/'
    {
      i := i + 1;
    }
  }

  method SkipName(path: array<char>, from: nat, len: nat) returns (i: nat)
    requires from <= len <= path.Length
    ensures from <= i <= len && (i < len ==> path[i] == '/')
    ensures forall j :: from <= j < i ==> path[j] != '/'
  {
    i := from;
    while i < len && path[i] != '/'
      invariant from <= i <= len
      invariant forall j :: from <= j < i ==> path[j] != '/'
    {
      i := i + 1;
    }
  }

  /** `memmove`: the source is read as it was before anything is written. */
  method MemMove(path: array<char>, dst: nat, src: nat, n: nat)
    requires dst + n <= path.Length && src + n <= path.Length
    modifies path
    ensures path[dst..dst + n] == old(path[src..src + n])
    ensures forall j :: 0 <= j < path.Length && !(dst <= j < dst + n) ==> path[j] == old(path[j])
  {
    var tmp := path[src..src + n];
    for k := 0 to n
      invariant path[dst..dst + k] == tmp[..k]
      invariant forall j :: 0 <= j < path.Length && !(dst <= j < dst + k) ==> path[j] == old(path[j])
    {
      path[dst + k] := tmp[k];
    }
  }

  lemma {:induction false} ComponentsSkip(s: string, i: nat, j: nat)
    requires i <= j <= |s| && forall k :: i <= k < j ==> s[k] == '/'
    ensures Components(s[i..]) == Components(s[j..])
    decreases j - i
  {
    if i < j {
      assert s[i..][1..] == s[i + 1..];
      ComponentsSkip(s, i + 1, j);
    }
  }

  lemma {:induction false} ComponentsTake(s: string, i: nat, j: nat)
    requires i < j <= |s| && forall k :: i <= k < j ==> s[k] != '/'
    requires j < |s| ==> s[j] == '/'
    ensures Components(s[i..]) == [s[i..j]] + Components(s[j..])
    ensures Separated(s[i..j])
  {
    assert s[i..] == s[i..j] + s[j..];
    assert forall x :: x in s[i..j] ==> x != '/';
    NameLengthOf(s[i..j], s[j..]);
    assert s[i..][..j - i] == s[i..j] && s[i..][j - i..] == s[j..];
  }

  method Separate(path: array<char>, out: nat, start: nat, absolute: bool) returns (out': nat)
    requires out <= start <= path.Length && (out > 0 || absolute ==> out < start)
    modifies path
    ensures out <= out' <= start && path[..out'] == old(path[..out]) + if out > 0 || absolute then "/" else ""
    ensures forall j :: start <= j < path.Length ==> path[j] == old(path[j])
  {
    out' := out;
    if out' > 0 || absolute {
      path[out'] := '/';
      out' := out' + 1;
    }
  }

  /** The component's characters move down behind the text already written. */
  method MoveDown(path: array<char>, at: nat, start: nat, clen: nat, ghost text: string, ghost c: string)
    requires at <= start && start + clen <= path.Length && path[..at] == text && path[start..start + clen] == c
    modifies path
    ensures path[..at + clen] == text + c
    ensures forall j :: start + clen <= j < path.Length ==> path[j] == old(path[j])
  {
    MemMove(path, at, start, clen);
    assert path[..at] == text && path[at..at + clen] == c;
  }

  lemma {:induction false} BodyGrows(comps: seq<string>, c: string, absolute: bool, text: string, sep: string)
    requires text == Body(comps, absolute) && (text != [] <==> comps != []) && '\0' !in text && '\0' !in c
    requires sep == if text != [] || absolute then "/" else ""
    ensures text + sep + c == Body(comps + [c], absolute) && '\0' !in text + sep + c
  {
    assert (comps + [c])[..|comps|] == comps;
  }

  /** Writing a component behind the text of the stack, with a separator where one is due. */
  method WriteComponent(path: array<char>, out: nat, start: nat, clen: nat, absolute: bool,
                        ghost comps: seq<string>, ghost c: string)
    returns (out': nat)
    requires out <= start && start + clen <= path.Length && path[..out] == Body(comps, absolute)
    requires (out > 0 || absolute ==> out < start) && (out > 0 <==> comps != [])
    requires path[start..start + clen] == c && '\0' !in c && '\0' !in path[..out]
    modifies path
    ensures out <= out' <= start + clen && path[..out'] == Body(comps + [c], absolute) && '\0' !in path[..out']
    ensures forall j :: start + clen <= j < path.Length ==> path[j] == old(path[j])
  {
    ghost var text, sep := path[..out], if out > 0 || absolute then "/" else "";
    var at := Separate(path, out, start, absolute);
    assert path[start..start + clen] == c;
    MoveDown(path, at, start, clen, text + sep, c);
    out' := at + clen;
    BodyGrows(comps, c, absolute, text, sep);
  }

  /** The buffer between two components: the text of the stack is written, the write cursor is not
      past the read cursor, and the unread input is untouched. */
  ghost predicate Written(
    path: seq<char>, s: string, absolute: bool, comps: seq<string>, starts: seq<nat>, out: nat, i: nat) {
    && |s| < |path| && out <= i <= |s|
    && (i == 0 || i == |s| || s[i] == '/') && (i == 0 ==> out == 0)
    && (forall k :: i <= k < |s| ==> path[k] == s[k])
    && |comps| <= |starts|
    && path[..out] == Body(comps, absolute) && '\0' !in path[..out]
    && (forall k :: 0 <= k < |comps| ==> starts[k] == |Body(comps[..k], absolute)|)
  }

  /** The stack between two components: feeding it what is still unread ends as it should. */
  ghost predicate OnTrack(s: string, st: Stack, i: nat) {
    && i <= |s| && st.Stack? && Normal(st, IsAbsolute(s))
    && FeedAll(st, Components(s[i..]), IsAbsolute(s)) == FinalStack(s)
  }

  /** Reading the component s[start..j] is one step of the fold. */
  lemma {:induction false} ReadComponent(s: string, st: Stack, i: nat, start: nat, j: nat)
    requires OnTrack(s, st, i) && i <= start < j <= |s| && (forall k :: i <= k < start ==> s[k] == '/')
    requires (forall k :: start <= k < j ==> s[k] != '/') && (j < |s| ==> s[j] == '/')
    ensures var st' := Feed(st, s[start..j], IsAbsolute(s));
            if st'.Full? then FinalStack(s).Full? else OnTrack(s, st', j)
  {
    ComponentsSkip(s, i, start);
    ComponentsTake(s, start, j);
    var c, absolute := s[start..j], IsAbsolute(s);
    FeedAllNormal(st, [c], absolute);
    assert FeedAll(st, [c], absolute) == FeedAll(Feed(st, c, absolute), [], absolute);
    FullStaysFull(Components(s[j..]), absolute);
  }

  /** Nothing but separators is left. */
  lemma {:induction false} ReadToEnd(s: string, st: Stack, i: nat)
    requires OnTrack(s, st, i) && forall k :: i <= k < |s| ==> s[k] == '/'
    ensures OnTrack(s, st, |s|)
  {
    ComponentsSkip(s, i, |s|);
  }

  lemma {:induction false} WriteCursorBehind(
    s: string, st: Stack, path: seq<char>, starts: seq<nat>, out: nat, i: nat, start: nat)
    requires OnTrack(s, st, i) && Written(path, s, IsAbsolute(s), st.comps, starts, out, i)
    requires i <= start < |s| && s[start] != '/'
    ensures out <= start && (out > 0 || IsAbsolute(s) ==> out < start) && (out > 0 <==> st.comps != [])
  {
    assert forall k :: 0 <= k < |st.comps| ==> Separated(st.comps[k]);
    ComponentsOfBody(st.comps, IsAbsolute(s));
  }

  lemma {:induction false} PopComponent(
    path: seq<char>, s: string, absolute: bool, comps: seq<string>, starts: seq<nat>, out: nat, i: nat, j: nat)
    requires Written(path, s, absolute, comps, starts, out, i) && i < j <= |s| && (j < |s| ==> s[j] == '/')
    requires comps != []
    ensures Written(path, s, absolute, comps[..|comps| - 1], starts, starts[|comps| - 1], j)
  {
    var n := |comps| - 1;
    var out' := starts[n];
    assert path[..out'] == path[..out][..out'];
    forall k | 0 <= k < n
      ensures starts[k] == |Body(comps[..n][..k], absolute)|
    {
      assert comps[..n][..k] == comps[..k];
    }
  }

  lemma {:induction false} PushComponent(
    path: seq<char>, path': seq<char>, s: string, absolute: bool, comps: seq<string>, c: string,
    starts: seq<nat>, out: nat, out': nat, i: nat, j: nat)
    requires Written(path, s, absolute, comps, starts, out, i) && i < j <= |s| && (j < |s| ==> s[j] == '/')
    requires |comps| < |starts| && |path'| == |path| && (forall k :: j <= k < |path| ==> path'[k] == path[k])
    requires out' <= j && path'[..out'] == Body(comps + [c], absolute) && '\0' !in path'[..out']
    ensures Written(path', s, absolute, comps + [c], starts[|comps| := out], out', j)
  {
    forall k | 0 <= k < |comps| + 1
      ensures starts[|comps| := out][k] == |Body((comps + [c])[..k], absolute)|
    {
      assert (comps + [c])[..k] == comps[..k];
      assert comps[..|comps|] == comps;
    }
  }

  /** A component may be read without anything being written. */
  lemma {:induction false} ReadOn(
    path: seq<char>, s: string, absolute: bool, comps: seq<string>, starts: seq<nat>, out: nat, i: nat, j: nat)
    requires Written(path, s, absolute, comps, starts, out, i) && i < j <= |s| && (j < |s| ==> s[j] == '/')
    ensures Written(path, s, absolute, comps, starts, out, j)
  {
  }

  /** The unread component is still the one of the input. */
  lemma {:induction false} ReadText(path: seq<char>, s: string, start: nat, j: nat)
    requires start < j <= |s| <= |path| && (forall k :: start <= k < j ==> path[k] == s[k]) && '\0' !in s
    ensures path[start..j] == s[start..j] && '\0' !in s[start..j]
  {
    assert path[start..j] == s[start..j];
    assert forall x :: x in s[start..j] ==> x in s;
  }

  /** A kept component moves down to the write cursor and onto the stack. */
  method KeepComponent(path: array<char>, compStart: array<nat>, ncomp: nat, out: nat,
                       start: nat, i: nat, absolute: bool, ghost s: string, ghost comps: seq<string>, ghost from: nat)
    returns (out': nat)
    requires Written(path[..], s, absolute, comps, compStart[..], out, from)
    requires from <= start < i <= |s| && (i < |s| ==> s[i] == '/') && '\0' !in s
    requires out <= start && (out > 0 || absolute ==> out < start) && (out > 0 <==> comps != [])
    requires ncomp == |comps| < compStart.Length
    modifies path, compStart
    ensures Written(path[..], s, absolute, comps + [s[start..i]], compStart[..], out', i)
    ensures forall j :: |s| <= j < path.Length ==> path[j] == old(path[j])
  {
    ghost var was, starts, c := path[..], compStart[..], s[start..i];
    ReadText(was, s, start, i);
    assert path[start..i] == was[start..i] && path[..out] == was[..out];
    out' := WriteComponent(path, out, start, i - start, absolute, comps, c);
    ghost var now := path[..];
    assert now[..out'] == path[..out'];
    PushComponent(was, now, s, absolute, comps, c, starts, out, out', from, i);
    compStart[ncomp] := out;
    assert compStart[..] == starts[ncomp := out] && path[..] == now;
  }

  /** The capacity test, and the component if it passes. */
  method KeepIfRoom(path: array<char>, compStart: array<nat>, ncomp: nat, out: nat,
                    start: nat, i: nat, absolute: bool, ghost s: string, ghost comps: seq<string>, ghost from: nat)
    returns (ok: bool, ncomp': nat, out': nat)
    requires Written(path[..], s, absolute, comps, compStart[..], out, from)
    requires from <= start < i <= |s| && (i < |s| ==> s[i] == '/') && '\0' !in s
    requires out <= start && (out > 0 || absolute ==> out < start) && (out > 0 <==> comps != [])
    requires ncomp == |comps| && compStart.Length == MAX_COMPONENTS
    modifies path, compStart
    ensures ok <==> |comps| < MAX_COMPONENTS
    ensures ok ==> ncomp' == |comps| + 1
    ensures ok ==> Written(path[..], s, absolute, comps + [s[start..i]], compStart[..], out', i)
    ensures forall j :: |s| <= j < path.Length ==> path[j] == old(path[j])
  {
    if ncomp >= MAX_COMPONENTS {
      return false, ncomp, out;
    }
    out' := KeepComponent(path, compStart, ncomp, out, start, i, absolute, s, comps, from);
    ok, ncomp' := true, ncomp + 1;
  }

  /** ".." after an ordinary component: the write cursor goes back to where that one began. */
  method PopParent(path: array<char>, compStart: array<nat>, ncomp: nat, out: nat,
                   i: nat, absolute: bool, ghost s: string, ghost comps: seq<string>, ghost from: nat)
    returns (ncomp': nat, out': nat)
    requires Written(path[..], s, absolute, comps, compStart[..], out, from)
    requires from < i <= |s| && (i < |s| ==> s[i] == '/') && 0 < ncomp == |comps|
    ensures ncomp' == |comps| - 1
    ensures Written(path[..], s, absolute, comps[..|comps| - 1], compStart[..], out', i)
  {
    PopComponent(path[..], s, absolute, comps, compStart[..], out, from, i);
    ncomp' := ncomp - 1;
    out' := compStart[ncomp'];
  }

  /** What the tests of the loop decide about a component. */
  datatype Fate = Skip | Pop | Keep(dotdots: nat)

  method Decide(path: array<char>, start: nat, clen: nat, ncomp: nat, leading: nat, absolute: bool,
                ghost comps: seq<string>, ghost c: string)
    returns (fate: Fate)
    requires 0 < clen && start + clen <= path.Length && path[start..start + clen] == c
    requires ncomp == |comps| && leading <= ncomp
    ensures match fate
            case Skip => Feed(Stack(comps, leading), c, absolute) == Stack(comps, leading)
            case Pop => |comps| > 0 && Feed(Stack(comps, leading), c, absolute) == Stack(comps[..|comps| - 1], leading)
            case Keep(dotdots) => Feed(Stack(comps, leading), c, absolute) == Push(Stack(comps, dotdots), c)
  {
    assert |c| == clen && c[0] == path[start] && (clen == 2 ==> c[1] == path[start + 1]);
    if clen == 1 && path[start] == '.' {
      return Skip;
    }
    if clen == 2 && path[start] == '.' && path[start + 1] == '.' {
      if ncomp > leading {
        return Pop;
      }
      return if absolute then Skip else Keep(leading + 1);
    }
    fate := Keep(leading);
  }

  /** What `path_normalize` does with one component, once it is not skipped as empty. */
  method TakeComponent(path: array<char>, compStart: array<nat>, ncomp: nat, leading: nat, out: nat,
                       start: nat, i: nat, absolute: bool, ghost s: string, ghost comps: seq<string>, ghost from: nat)
    returns (ok: bool, ncomp': nat, leading': nat, out': nat, ghost st': Stack)
    requires Written(path[..], s, absolute, comps, compStart[..], out, from)
    requires from <= start < i <= |s| && (i < |s| ==> s[i] == '/') && '\0' !in s
    requires out <= start && (out > 0 || absolute ==> out < start) && (out > 0 <==> comps != [])
    requires ncomp == |comps| && leading <= ncomp && compStart.Length == MAX_COMPONENTS
    modifies path, compStart
    ensures st' == Feed(Stack(comps, leading), s[start..i], absolute) && (ok <==> st'.Stack?)
    ensures ok ==> ncomp' == |st'.comps| && leading' == st'.dotdots
    ensures ok ==> Written(path[..], s, absolute, st'.comps, compStart[..], out', i)
    ensures forall j :: |s| <= j < path.Length ==> path[j] == old(path[j])
  {
    ghost var c := s[start..i];
    ReadText(path[..], s, start, i);
    assert path[start..i] == path[..][start..i];
    var fate := Decide(path, start, i - start, ncomp, leading, absolute, comps, c);
    st' := Feed(Stack(comps, leading), c, absolute);
    ok, ncomp', leading', out' := true, ncomp, leading, out;
    match fate {
      case Skip =>
        ReadOn(path[..], s, absolute, comps, compStart[..], out, from, i);
      case Pop =>
        ncomp', out' := PopParent(path, compStart, ncomp, out, i, absolute, s, comps, from);
      case Keep(dotdots) =>
        leading' := dotdots;
        ok, ncomp', out' := KeepIfRoom(path, compStart, ncomp, out, start, i, absolute, s, comps, from);
    }
  }

  /** One turn of the loop of `path_normalize`. */
  method Turn(path: array<char>, compStart: array<nat>, ncomp: nat, leading: nat, out: nat, i: nat, len: nat,
              absolute: bool, ghost s: string, ghost st: Stack)
    returns (ok: bool, ncomp': nat, leading': nat, out': nat, i': nat, ghost st': Stack)
    requires OnTrack(s, st, i) && Written(path[..], s, absolute, st.comps, compStart[..], out, i)
    requires ncomp == |st.comps| && leading == st.dotdots && compStart.Length == MAX_COMPONENTS
    requires i < len == |s| && '\0' !in s && absolute == IsAbsolute(s)
    modifies path, compStart
    ensures !ok ==> FinalStack(s).Full?
    ensures ok ==> i < i' && OnTrack(s, st', i') && Written(path[..], s, absolute, st'.comps, compStart[..], out', i')
    ensures ok ==> ncomp' == |st'.comps| && leading' == st'.dotdots
    ensures forall j :: |s| <= j < path.Length ==> path[j] == old(path[j])
  {
    var start := SkipSeparators(path, i, len);
    i' := SkipName(path, start, len);
    if start == i' {
      ReadToEnd(s, st, i);
      return true, ncomp, leading, out, i', st;
    }
    ReadComponent(s, st, i, start, i');
    WriteCursorBehind(s, st, path[..], compStart[..], out, i, start);
    ok, ncomp', leading', out', st' :=
      TakeComponent(path, compStart, ncomp, leading, out, start, i', absolute, s, st.comps, i);
  }

  /** The loop of `path_normalize`: it stops early exactly when the fold overflows. */
  method Rewrite(path: array<char>, len: nat, absolute: bool) returns (ok: bool, out: nat)
    requires len < path.Length && absolute == IsAbsolute(path[..len]) && '\0' !in path[..len]
    modifies path
    ensures ok <==> FinalStack(old(path[..len])).Stack?
    ensures ok ==> out <= len && '\0' !in path[..out]
    ensures ok ==> path[..out] == Body(FinalStack(old(path[..len])).comps, absolute)
    ensures forall j :: len <= j < path.Length ==> path[j] == old(path[j])
  {
    ghost var s := path[..len];
    out := 0;
    var ncomp, leading, i := 0, 0, 0;
    var compStart := new nat[MAX_COMPONENTS];
    ghost var st := Stack([], 0);
    assert s[0..] == s;
    while i < len
      invariant OnTrack(s, st, i) && Written(path[..], s, absolute, st.comps, compStart[..], out, i)
      invariant ncomp == |st.comps| && leading == st.dotdots
      invariant forall j :: len <= j < path.Length ==> path[j] == old(path[j])
    {
      ok, ncomp, leading, out, i, st := Turn(path, compStart, ncomp, leading, out, i, len, absolute, s, st);
      if !ok {
        return;
      }
    }
    ok := true;
  }

  function Finished(body: string, absolute: bool): string {
    if body != [] then body else if absolute then "/" else "."
  }

  /** The end of `path_normalize`: an empty text becomes "/" or ".", and the terminator follows. */
  method Terminate(path: array<char>, out: nat, absolute: bool)
    requires out < path.Length && (out == 0 ==> path.Length >= 2) && '\0' !in path[..out]
    modifies path
    ensures CString(path[..]) == Finished(old(path[..out]), absolute)
    ensures var end := if out > 0 then out else 1;
            path[end] == '\0' && forall j :: end < j < path.Length ==> path[j] == old(path[j])
  {
    ghost var text := path[..out];
    var end := out;
    if end == 0 {
      path[0] := if absolute then '/' else '.';
      end := 1;
      text := [path[0]];
    }
    path[end] := '\0';
    assert path[..][..end] == text;
    CStringOf(path[..], end);
  }

  /** `path_normalize` once the length is known. */
  method NormalizeText(path: array<char>, len: nat, absolute: bool, ghost s: string) returns (err: ErrorCode)
    requires len < path.Length && path[len] == '\0' && (len == 0 ==> path.Length >= 2)
    requires s == path[..len] && '\0' !in s && absolute == IsAbsolute(s)
    modifies path
    ensures match FinalStack(s)
            case Full => err == Overflow
            case Stack(comps, _) => err == Ok && CString(path[..]) == Finished(Body(comps, absolute), absolute)
    ensures len > 0 ==> forall j :: len <= j < path.Length ==> path[j] == old(path[j])
  {
    var ok, out := Rewrite(path, len, absolute);
    if !ok {
      return Overflow;
    }
    Terminate(path, out, absolute);
    err := Ok;
  }

  lemma {:induction false} RenderFromBody(s: string)
    ensures Normalize(s) == match FinalStack(s)
                            case Full => Refused
                            case Stack(comps, _) => Path(Finished(Body(comps, IsAbsolute(s)), IsAbsolute(s)))
  {
    FinalStackNormal(s);
    var st := FinalStack(s);
    if st.Stack? {
      assert forall k :: 0 <= k < |st.comps| ==> Separated(st.comps[k]);
      ComponentsOfBody(st.comps, IsAbsolute(s));
    }
  }

  /** `path_normalize`: the buffer ends up holding what the fold computes, or the call is refused
      exactly when the fold's stack would exceed its 64 entries. */
  method NormalizeInPlace(path: array<char>) returns (err: ErrorCode)
    requires '\0' in path[..]
    requires CString(path[..]) == [] ==> path.Length >= 2  // "." and its terminator must fit
    modifies path
    ensures match Normalize(old(CString(path[..])))
            case Refused => err == Overflow
            case Path(t) => err == Ok && CString(path[..]) == t
    ensures var s := old(CString(path[..])); err == Overflow <==> TooDeep(Components(s), IsAbsolute(s))
    ensures var s := old(CString(path[..]));
            s != [] ==> forall j :: |s| <= j < path.Length ==> path[j] == old(path[j])
  {
    var absolute := path[0] == '/';
    var len := StrLen(path);
    RenderFromBody(path[..len]);
    RefusedIff(path[..len]);
    err := NormalizeText(path, len, absolute, path[..len]);
  }
}
