/** `CDir`: resolving a path against a directory, and checking that it stays below one. */
module Paths {
  import opened Common
  import opened Strings

  /** `substr(0, rfind('/'))`: everything before the last slash, all of it without one. */
  function Up(s: string): string {
    if '/' !in s then s
    else if s[|s| - 1] == '/' then s[..|s| - 1]
    else Up(s[..|s| - 1])
  }

  function Walk1(dir: string, name: string): string {
    if name == ".." then Up(dir)
    else if name == "" || name == "." then dir
    else dir + "/" + name
  }

  function Walk(dir: string, names: seq<string>): string
    decreases |names|
  {
    if names == [] then dir else Walk(Walk1(dir, names[0]), names[1..])
  }

  function TrimSlash(s: string): string {
    if s != "" && s[|s| - 1] == '/' then s[..|s| - 1] else s
  }

  function OrRoot(s: string): string { if s == "" then "/" else s }

  /** The path after home expansion. */
  function Expand(add: string, home: string): string {
    if "~/" <= add then home + add[1..] else add
  }

  function Changed(path: string, add: string, home: string): string {
    if add == "~" then home
    else
      var full := Expand(add, home);
      var base := if full != "" && full[0] == '/' then "" else path;
      OrRoot(Walk(TrimSlash(base), Split(full, '/')))
  }

  lemma WalkSlash(dir: string, name: string, rest: string)
    requires '/' !in name
    ensures Walk(dir, Split(name + ("/" + rest), '/')) == Walk(Walk1(dir, name), Split(rest, '/'))
  {
    var tail := "/" + rest;
    assert tail == ['/'] + rest;
    SplitSkip('/', rest);
    if name == "" {
      assert name + tail == tail;
    } else {
      SplitFront(name, '/', tail);
    }
  }

  /** The character loop over a path, which ends in a slash, walks its components. */
  method WalkPath(start: string, all: string) returns (dir: string)
    requires all != "" && all[|all| - 1] == '/'
    ensures dir == Walk(start, Split(all, '/'))
  {
    dir := start;
    var cur := "";
    var a := 0;
    assert cur + all[0..] == all;
    while a < |all|
      invariant a <= |all| && '/' !in cur
      invariant Walk(dir, Split(cur + all[a..], '/')) == Walk(start, Split(all, '/'))
      invariant a == |all| ==> cur == ""
    {
      WalkChar(dir, cur, all, a);
      if all[a] == '/' {
        dir := Walk1(dir, cur);
        cur := "";
      } else {
        cur := cur + [all[a]];
      }
      a := a + 1;
    }
    assert cur + all[a..] == "" && Split("", '/') == [];
  }

  /** For any base, a walk over the components of the added path. */
  method ChangeDir(path: string, add: string, home: string, defaultHome: string) returns (result: string)
    ensures result == Changed(path, add, if home == "" then defaultHome else home)
  {
    var homeDir := if home == "" then defaultHome else home;
    if add == "~" {
      return homeDir;
    }
    var full := Expand(add, homeDir);
    var base := TrimSlash(if full != "" && full[0] == '/' then "" else path);
    var dir := WalkPath(base, full + "/");
    WithEndSlash(base, full);
    return OrRoot(dir);
  }

  lemma WalkChar(dir: string, cur: string, all: string, a: nat)
    requires a < |all| && '/' !in cur
    ensures Walk(dir, Split(cur + all[a..], '/'))
         == if all[a] == '/' then Walk(Walk1(dir, cur), Split("" + all[a + 1..], '/'))
            else Walk(dir, Split((cur + [all[a]]) + all[a + 1..], '/'))
  {
    var rest := all[a + 1..];
    assert all[a..] == [all[a]] + rest;
    if all[a] == '/' {
      WalkSlash(dir, cur, rest);
      assert "" + rest == rest;
    } else {
      assert cur + ([all[a]] + rest) == (cur + [all[a]]) + rest;
    }
  }

  lemma {:induction false} WithEndSlash(dir: string, s: string)
    ensures Walk(dir, Split(s + "/", '/')) == Walk(dir, Split(s, '/'))
    decreases |s|
  {
    assert Split("", '/') == [];
    if s == "" {
      SplitSkip('/', "");
      assert s + "/" == ['/'] + "";
    } else if s[0] == '/' {
      assert s == ['/'] + s[1..] && s + "/" == ['/'] + (s[1..] + "/");
      SplitSkip('/', s[1..]);
      SplitSkip('/', s[1..] + "/");
      WithEndSlash(dir, s[1..]);
    } else {
      var word, rest := Before(s, '/'), From(s, '/');
      BeforePrefix(s, '/');
      assert s == word + rest && s + "/" == word + (rest + "/");
      SplitFront(word, '/', rest);
      SplitFront(word, '/', rest + "/");
      WithEndSlash(Walk1(dir, word), rest);
    }
  }

  // ----- Normalised absolute paths -----

  predicate Names(parts: seq<string>) {
    forall i :: 0 <= i < |parts| ==> parts[i] != "" && '/' !in parts[i]
  }

  predicate Normal(parts: seq<string>) {
    Names(parts) && forall i :: 0 <= i < |parts| ==> parts[i] != "." && parts[i] != ".."
  }

  function Body(parts: seq<string>): string {
    if parts == [] then "" else Body(parts[..|parts| - 1]) + ("/" + parts[|parts| - 1])
  }

  function Show(parts: seq<string>): string { OrRoot(Body(parts)) }

  function Resolve1(parts: seq<string>, name: string): seq<string> {
    if name == ".." then (if parts == [] then [] else parts[..|parts| - 1])
    else if name == "" || name == "." then parts
    else parts + [name]
  }

  /** `..` leaves a directory (the root stays), `.` stays, any other name enters. */
  function Resolve(parts: seq<string>, names: seq<string>): seq<string>
    decreases |names|
  {
    if names == [] then parts else Resolve(Resolve1(parts, names[0]), names[1..])
  }

  lemma {:induction false} ResolveNormal(parts: seq<string>, names: seq<string>)
    requires Normal(parts) && Names(names)
    ensures Normal(Resolve(parts, names))
    decreases |names|
  {
    if names != [] {
      ResolveNormal(Resolve1(parts, names[0]), names[1..]);
    }
  }

  lemma {:induction false} UpName(dir: string, name: string)
    requires '/' !in name
    ensures Up(dir + ("/" + name)) == dir
    decreases |name|
  {
    var s := dir + ("/" + name);
    assert s[|dir|] == '/';
    if name != "" {
      var n := |name| - 1;
      assert s[|s| - 1] == name[n] && name[n] in name;
      assert s[..|s| - 1] == dir + ("/" + name[..n]);
      UpName(dir, name[..n]);
    } else {
      assert s[..|s| - 1] == dir;
    }
  }

  lemma Walk1Body(parts: seq<string>, name: string)
    requires Names(parts)
    ensures Walk1(Body(parts), name) == Body(Resolve1(parts, name))
  {
    if name == ".." {
      if parts != [] {
        UpName(Body(parts[..|parts| - 1]), parts[|parts| - 1]);
      }
    } else if name != "" && name != "." {
      assert (parts + [name])[..|parts|] == parts;
      assert Body(parts) + "/" + name == Body(parts) + ("/" + name);
    }
  }

  lemma {:induction false} WalkBody(parts: seq<string>, names: seq<string>)
    requires Names(parts) && Names(names)
    ensures Walk(Body(parts), names) == Body(Resolve(parts, names))
    decreases |names|
  {
    if names != [] {
      Walk1Body(parts, names[0]);
      WalkBody(Resolve1(parts, names[0]), names[1..]);
    }
  }

  lemma SplitNames(s: string)
    ensures Names(Split(s, '/'))
  {
    forall i | 0 <= i < |Split(s, '/')| ensures Split(s, '/')[i] != "" && '/' !in Split(s, '/')[i] {
      SplitPieces(s, '/', i);
    }
  }

  lemma {:induction false} BodyConcat(a: seq<string>, b: seq<string>)
    ensures Body(a + b) == Body(a) + Body(b)
    decreases |b|
  {
    if b == [] {
      assert a + b == a && Body(b) == "";
    } else {
      var n := |b| - 1;
      assert (a + b)[..|a + b| - 1] == a + b[..n];
      BodyConcat(a, b[..n]);
      assert Body(a) + (Body(b[..n]) + ("/" + b[n])) == (Body(a) + Body(b[..n])) + ("/" + b[n]);
    }
  }

  lemma BodyFront(parts: seq<string>)
    requires parts != []
    ensures Body(parts) == "/" + parts[0] + Body(parts[1..])
  {
    assert parts == [parts[0]] + parts[1..];
    BodyConcat([parts[0]], parts[1..]);
    assert Body([parts[0]]) == "/" + parts[0] by { assert [parts[0]][..0] == []; }
  }

  lemma SplitEntry(name: string, tail: string)
    requires name != "" && '/' !in name && (tail == "" || tail[0] == '/')
    ensures Split("/" + (name + tail), '/') == [name] + Split(tail, '/')
  {
    SplitSkip('/', name + tail);
    SplitFront(name, '/', tail);
  }

  /** The components of what follows a normalised path are appended to its own. */
  lemma {:induction false} SplitBody(parts: seq<string>, rest: string)
    requires Names(parts) && (rest == "" || rest[0] == '/')
    ensures Split(Body(parts) + rest, '/') == parts + Split(rest, '/')
    decreases |parts|
  {
    if parts == [] {
      assert Body(parts) + rest == rest && parts + Split(rest, '/') == Split(rest, '/');
    } else {
      var tail := Body(parts[1..]) + rest;
      BodyThen(parts, rest);
      SplitEntry(parts[0], tail);
      SplitBody(parts[1..], rest);
      ConsAppend(parts, Split(rest, '/'));
    }
  }

  lemma ConsAppend(parts: seq<string>, more: seq<string>)
    requires parts != []
    ensures parts + more == [parts[0]] + (parts[1..] + more)
  {
  }

  lemma BodyThen(parts: seq<string>, rest: string)
    requires parts != [] && (rest == "" || rest[0] == '/')
    ensures var tail := Body(parts[1..]) + rest;
            Body(parts) + rest == "/" + (parts[0] + tail) && (tail == "" || tail[0] == '/')
  {
    BodyFront(parts);
    if parts[1..] != [] {
      BodyFront(parts[1..]);
    }
  }

  lemma {:induction false} ResolveOwn(base: seq<string>, parts: seq<string>, more: seq<string>)
    requires Normal(parts)
    ensures Resolve(base, parts + more) == Resolve(base + parts, more)
    decreases |parts|
  {
    if parts == [] {
      assert parts + more == more && base + parts == base;
    } else {
      assert (parts + more)[0] == parts[0] && (parts + more)[1..] == parts[1..] + more;
      ResolveOwn(base + [parts[0]], parts[1..], more);
      assert (base + [parts[0]]) + parts[1..] == base + parts;
    }
  }

  /** Where a path leads from a directory, on components. */
  function Target(base: seq<string>, add: string, home: seq<string>): seq<string> {
    if add == "~" then home
    else if "~/" <= add then Resolve(home, Split(add[1..], '/'))
    else Resolve(if add != "" && add[0] == '/' then [] else base, Split(add, '/'))
  }

  lemma TrimShown(parts: seq<string>)
    requires Names(parts)
    ensures TrimSlash(Show(parts)) == Body(parts) && TrimSlash(Body(parts) + "/") == Body(parts)
  {
    if parts != [] {
      var last := parts[|parts| - 1];
      assert last[|last| - 1] in last;
      assert Body(parts)[|Body(parts)| - 1] == last[|last| - 1];
    }
  }

  /** For a normalised base and home, `ChangeDir` resolves component by component, and its result is
      normalised again. */
  lemma ChangedResolves(base: seq<string>, path: string, add: string, home: seq<string>)
    requires Normal(base) && Normal(home)
    requires path == Show(base) || path == Body(base) + "/"
    ensures Changed(path, add, Show(home)) == Show(Target(base, add, home))
    ensures Normal(Target(base, add, home))
  {
    var full := Expand(add, Show(home));
    TrimShown(base);
    assert TrimSlash("") == "" == Body([]);
    SplitNames(full);
    SplitNames(add);
    if "~/" <= add {
      HomePath(add, home);
      SplitNames(add[1..]);
      ResolveNormal(home, Split(add[1..], '/'));
      assert [] + home == home;
      ResolveOwn([], home, Split(add[1..], '/'));
      WalkBody([], Split(full, '/'));
    } else {
      var start := if add != "" && add[0] == '/' then [] else base;
      ResolveNormal(start, Split(add, '/'));
      WalkBody(start, Split(full, '/'));
    }
  }

  lemma HomePath(add: string, home: seq<string>)
    requires "~/" <= add && Normal(home)
    ensures Expand(add, Show(home)) != "" && Expand(add, Show(home))[0] == '/'
    ensures Split(Expand(add, Show(home)), '/') == home + Split(add[1..], '/')
  {
    var rest := add[1..];
    assert rest[0] == '/';
    SplitBody(home, rest);
    if home == [] {
      assert Show(home) + rest == ['/'] + rest;
      SplitSkip('/', rest);
      assert Body(home) + rest == rest;
    } else {
      BodyFront(home);
    }
  }

  // ----- Staying below a directory -----

  /** `Replace("//", "/")`, once from left to right. */
  function Collapse(s: string): string {
    if |s| < 2 then s
    else if s[0] == '/' && s[1] == '/' then "/" + Collapse(s[2..])
    else [s[0]] + Collapse(s[1..])
  }

  function PrefixOf(path: string): string {
    TrimRight(Collapse(path), {'/'}) + "/"
  }

  function Checked(path: string, add: string, home: string): string {
    var absolute := Changed(PrefixOf(path), add, home);
    if StartsWith(absolute, PrefixOf(path)) then absolute else ""
  }

  method CheckPathPrefix(path: string, add: string, home: string, defaultHome: string) returns (result: string)
    ensures result == Checked(path, add, if home == "" then defaultHome else home)
  {
    var prefix := PrefixOf(path);
    var absolute := ChangeDir(prefix, add, home, defaultHome);
    return if StartsWith(absolute, prefix) then absolute else "";
  }

  predicate NoDoubleSlash(s: string) {
    forall i :: 0 <= i < |s| - 1 ==> !(s[i] == '/' && s[i + 1] == '/')
  }

  lemma {:induction false} CollapseNothing(s: string)
    requires NoDoubleSlash(s)
    ensures Collapse(s) == s
  {
    if |s| >= 2 {
      assert !(s[0] == '/' && s[0 + 1] == '/');
      forall i | 0 <= i < |s[1..]| - 1 ensures !(s[1..][i] == '/' && s[1..][i + 1] == '/') {
        assert !(s[i + 1] == '/' && s[i + 1 + 1] == '/');
      }
      CollapseNothing(s[1..]);
    }
  }

  lemma CollapseStep(c: char, rest: string)
    requires rest != "" && !(c == '/' && rest[0] == '/')
    ensures Collapse([c] + rest) == [c] + Collapse(rest)
  {
    assert ([c] + rest)[1..] == rest;
  }

  lemma CollapsePair(b: string)
    ensures Collapse("//" + b) == "/" + Collapse(b)
  {
    assert ("//" + b)[2..] == b;
  }

  lemma NoDoubleBehind(c: char, more: string)
    requires NoDoubleSlash([c] + more) && more != ""
    ensures NoDoubleSlash(more) && !(c == '/' && more[0] == '/')
  {
    var s := [c] + more;
    assert s[0] == c && s[0 + 1] == more[0];
    forall i | 0 <= i < |more| - 1 ensures !(more[i] == '/' && more[i + 1] == '/') {
      assert s[i + 1] == more[i] && s[i + 1 + 1] == more[i + 1];
    }
  }

  /** The first two slashes in a row become one, and so on behind them: slashes that come together
      are halved, the odd one kept. */
  lemma {:induction false} CollapseFirst(a: string, b: string)
    requires NoDoubleSlash(a + "/")
    ensures Collapse(a + ("//" + b)) == a + ("/" + Collapse(b))
    decreases |a|
  {
    if a == "" {
      assert a + ("//" + b) == "//" + b && a + ("/" + Collapse(b)) == "/" + Collapse(b);
      CollapsePair(b);
    } else {
      var c, more := a[0], a[1..];
      assert a == [c] + more && a + "/" == [c] + (more + "/");
      NoDoubleBehind(c, more + "/");
      CollapseFirst(more, b);
      assert (more + "/")[0] == (more + ("//" + b))[0];
      CollapseStep(c, more + ("//" + b));
      Associative([c], more, "//" + b);
      Associative([c], more, "/" + Collapse(b));
    }
  }

  lemma {:induction false} BodyNoDoubleSlash(parts: seq<string>)
    requires Names(parts)
    ensures NoDoubleSlash(Body(parts))
    ensures parts != [] ==> Body(parts)[|Body(parts)| - 1] != '/'
  {
    if parts != [] {
      var before, last := Body(parts[..|parts| - 1]), parts[|parts| - 1];
      BodyNoDoubleSlash(parts[..|parts| - 1]);
      var s := before + ("/" + last);
      forall i | 0 <= i < |s| - 1 ensures !(s[i] == '/' && s[i + 1] == '/') {
        if i >= |before| {
          assert s[i + 1] == last[i - |before|] && s[i + 1] in last;
        } else if i < |before| - 1 {
          assert s[i] == before[i] && s[i + 1] == before[i + 1];
        }
      }
      assert last[|last| - 1] in last;
    }
  }

  lemma PrefixOfShown(parts: seq<string>)
    requires Names(parts) && parts != []
    ensures PrefixOf(Show(parts)) == Body(parts) + "/"
  {
    BodyNoDoubleSlash(parts);
    CollapseNothing(Body(parts));
    assert TrimRight(Body(parts), {'/'}) == Body(parts);
  }

  function LowerAll(parts: seq<string>): (r: seq<string>)
    ensures |r| == |parts|
    ensures forall i :: 0 <= i < |r| ==> r[i] == Lower(parts[i])
  {
    seq(|parts|, i requires 0 <= i < |parts| => Lower(parts[i]))
  }

  lemma LowerConcat(a: string, b: string)
    ensures Lower(a + b) == Lower(a) + Lower(b)
  {
  }

  lemma {:induction false} LowerBody(parts: seq<string>)
    ensures Lower(Body(parts)) == Body(LowerAll(parts))
  {
    if parts != [] {
      var n := |parts| - 1;
      LowerBody(parts[..n]);
      LowerConcat(Body(parts[..n]), "/" + parts[n]);
      LowerConcat("/", parts[n]);
      assert Lower("/") == "/";
      assert LowerAll(parts)[..n] == LowerAll(parts[..n]);
    }
  }

  lemma LowerNames(parts: seq<string>)
    requires Names(parts)
    ensures Names(LowerAll(parts))
  {
    forall i, j | 0 <= i < |parts| && 0 <= j < |parts[i]| ensures LowerAll(parts)[i][j] != '/' {
      assert parts[i][j] in parts[i];
    }
  }

  /** A path is textually below another exactly when it is so component by component. */
  lemma {:induction false} BelowIsPrefix(a: seq<string>, b: seq<string>)
    requires Names(a) && Names(b)
    ensures Body(a) + "/" <= Body(b) <==> |a| < |b| && b[..|a|] == a
    decreases |a|
  {
    if b != [] {
      BodyFront(b);
    }
    if a == [] {
      assert Body(a) + "/" == "/";
    } else if b != [] {
      BodyFront(a);
      var z, w := Body(a[1..]) + "/", Body(b[1..]);
      assert Body(a) + "/" == "/" + (a[0] + z) && Body(b) == "/" + (b[0] + w);
      if a[1..] != [] { BodyFront(a[1..]); }
      if b[1..] != [] { BodyFront(b[1..]); }
      BelowIsPrefix(a[1..], b[1..]);
      EntryPrefix(a[0], z, b[0], w);
      FirstParts(a, b);
    }
  }

  lemma FirstParts(a: seq<string>, b: seq<string>)
    requires a != [] && b != []
    ensures |a| < |b| && b[..|a|] == a
       <==> a[0] == b[0] && |a[1..]| < |b[1..]| && b[1..][..|a[1..]|] == a[1..]
  {
    assert a == [a[0]] + a[1..];
    if |a| < |b| {
      assert b[..|a|] == [b[0]] + b[1..][..|a| - 1];
    }
  }

  lemma EntryPrefix(x: string, z: string, y: string, w: string)
    requires '/' !in x && '/' !in y && z != "" && z[0] == '/' && (w == "" || w[0] == '/')
    ensures "/" + (x + z) <= "/" + (y + w) <==> x == y && z <= w
  {
    if "/" + (x + z) <= "/" + (y + w) {
      SamePrefix(x, z, y + w);
      BeforeAround(y, '/', w);
      assert z == (x + z)[|x|..] && w == (y + w)[|y|..];
    }
  }

  lemma SamePrefix(x: string, z: string, s: string)
    requires '/' !in x && z != "" && z[0] == '/'
    requires "/" + (x + z) <= "/" + s
    ensures Before(s, '/') == x && x + z <= s
  {
    var n := |x + z|;
    assert s[..n] == ("/" + s)[1..n + 1] == ("/" + (x + z))[1..] == x + z;
    assert s == x + (z + s[n..]);
    BeforeAround(x, '/', z + s[n..]);
  }

  /** For a normalised directory other than the root, `CheckPathPrefix` accepts a path exactly when
      it resolves strictly below that directory, names compared without regard to case, and then
      returns the resolved path. */
  lemma CheckedIffBelow(base: seq<string>, add: string, home: seq<string>)
    requires Normal(base) && base != [] && Normal(home)
    ensures var target := Target(base, add, home);
            && (Checked(Show(base), add, Show(home)) != "" <==>
                  |base| < |target| && LowerAll(target[..|base|]) == LowerAll(base))
            && (Checked(Show(base), add, Show(home)) != "" ==>
                  Checked(Show(base), add, Show(home)) == Show(target))
  {
    PrefixOfShown(base);
    ChangedResolves(base, Body(base) + "/", add, home);
    BelowNoCase(base, Target(base, add, home));
  }

  /** Beginning with a directory's prefix, case ignored, is lying below it, case ignored. */
  lemma BelowNoCase(a: seq<string>, b: seq<string>)
    requires Names(a) && Names(b) && a != []
    ensures StartsWith(Show(b), Body(a) + "/") <==> |a| < |b| && LowerAll(b[..|a|]) == LowerAll(a)
    ensures Show(b) != ""
  {
    LowerNames(a);
    LowerNames(b);
    BelowIsPrefix(LowerAll(a), LowerAll(b));
    LowerTake(a, b);
    LowerPrefix(a);
    LowerShown(b);
    StartsWithLower(Show(b), Body(a) + "/");
    if b == [] {
      assert |Body(a) + "/"| > 1;
    }
  }

  lemma LowerTake(a: seq<string>, b: seq<string>)
    ensures |a| < |b| ==> LowerAll(b[..|a|]) == LowerAll(b)[..|a|]
  {
  }

  lemma LowerPrefix(a: seq<string>)
    ensures Lower(Body(a) + "/") == Body(LowerAll(a)) + "/"
  {
    LowerBody(a);
    LowerConcat(Body(a), "/");
    assert Lower("/") == "/";
  }

  lemma LowerShown(b: seq<string>)
    ensures b != [] ==> Lower(Show(b)) == Body(LowerAll(b)) && Body(b) != ""
  {
    LowerBody(b);
  }

  // ----- Case -----

  /** An absolute path leads where it says. */
  lemma TargetOfShown(base: seq<string>, parts: seq<string>, home: seq<string>)
    requires Normal(parts) && parts != []
    ensures Target(base, Show(parts), home) == parts
  {
    BodyFront(parts);
    SplitBody(parts, "");
    assert Body(parts) + "" == Body(parts) && Split("", '/') == [] && parts + [] == parts && [] + parts == parts;
    ResolveOwn([], parts, []);
  }

  /** So a directory whose name differs from the given one in case only, like `/A` from `/a`, lets
      paths in that do not lie below the given one. */
  lemma CaseSiblingAccepted(base: seq<string>, parts: seq<string>, home: seq<string>)
    requires Normal(base) && base != [] && Normal(home) && Normal(parts) && |base| < |parts|
    requires LowerAll(parts[..|base|]) == LowerAll(base) && parts[..|base|] != base
    ensures Checked(Show(base), Show(parts), Show(home)) == Show(parts)
    ensures !(Body(base) + "/" <= Show(parts))
  {
    TargetOfShown(base, parts, home);
    CheckedIffBelow(base, Show(parts), home);
    BelowIsPrefix(base, parts);
    BodyFront(parts);
  }

  /** Every accepted path lies below the directory, letter by letter. */
  ghost predicate Confines(base: seq<string>, home: seq<string>) {
    forall add :: Below(base, Checked(Show(base), add, Show(home)))
  }

  /** Nothing was accepted, or a path that begins with the directory and a slash. */
  predicate Below(base: seq<string>, accepted: string) {
    accepted == "" || Body(base) + "/" <= accepted
  }

  predicate Letterless(base: seq<string>) {
    forall i :: 0 <= i < |base| ==> NoLetters(base[i])
  }

  /** The check keeps paths below a directory other than the root exactly when no name on the way to
      it has a letter. */
  lemma ConfinesIff(base: seq<string>, home: seq<string>)
    requires Normal(base) && base != [] && Normal(home)
    ensures Confines(base, home) <==> Letterless(base)
  {
    if Letterless(base) {
      forall add ensures Below(base, Checked(Show(base), add, Show(home))) {
        LetterlessConfines(base, add, home);
      }
    } else {
      var i :| 0 <= i < |base| && !NoLetters(base[i]);
      var parts := Sibling(base, i);
      SiblingDiffers(base, i);
      CaseSiblingAccepted(base, parts, home);
      BodyFront(parts);
      assert !Below(base, Checked(Show(base), Show(parts), Show(home)));
    }
  }

  lemma LetterlessConfines(base: seq<string>, add: string, home: seq<string>)
    requires Normal(base) && base != [] && Normal(home) && Letterless(base)
    ensures Below(base, Checked(Show(base), add, Show(home)))
  {
    var target := Target(base, add, home);
    CheckedIffBelow(base, add, home);
    ChangedResolves(base, Show(base), add, home);
    if Checked(Show(base), add, Show(home)) != "" {
      forall i | 0 <= i < |base| ensures target[i] == base[i] {
        assert LowerAll(target[..|base|])[i] == LowerAll(base)[i];
        ExactName(target[i], base[i]);
      }
      assert target[..|base|] == base;
      BelowIsPrefix(base, target);
      BodyFront(target);
    }
  }

  /** A name without letters is matched by itself only. */
  lemma ExactName(x: string, y: string)
    requires NoLetters(y) && Lower(x) == Lower(y)
    ensures x == y
  {
    forall i | 0 <= i < |y| ensures x[i] == y[i] {
      assert y[i] in y && Lower(x)[i] == Lower(y)[i];
    }
  }

  function OtherCase(c: char): char {
    if 'a' <= c <= 'z' then UpperChar(c) else LowerChar(c)
  }

  function OtherName(name: string): (r: string)
    ensures |r| == |name| && forall i :: 0 <= i < |name| ==> r[i] == OtherCase(name[i])
  {
    seq(|name|, i requires 0 <= i < |name| => OtherCase(name[i]))
  }

  /** A path below a directory of the same name but for the case of one component. */
  function Sibling(base: seq<string>, i: nat): seq<string>
    requires i < |base|
  {
    base[i := OtherName(base[i])] + ["x"]
  }

  lemma OtherNameDiffers(name: string)
    requires name != "" && '/' !in name && !NoLetters(name)
    ensures OtherName(name) != name && Lower(OtherName(name)) == Lower(name)
    ensures OtherName(name) != "" && '/' !in OtherName(name) && OtherName(name) != "." && OtherName(name) != ".."
  {
    var c :| c in name && (LowerChar(c) != c || 'a' <= c <= 'z');
    var j :| 0 <= j < |name| && name[j] == c;
    assert OtherName(name)[j] != '.' && OtherName(name)[j] != c;
    forall k | 0 <= k < |name| ensures OtherName(name)[k] != '/' {
      assert name[k] in name;
    }
  }

  lemma SiblingDiffers(base: seq<string>, i: nat)
    requires Normal(base) && i < |base| && !NoLetters(base[i])
    ensures var parts := Sibling(base, i);
            && Normal(parts) && |parts| == |base| + 1
            && LowerAll(parts[..|base|]) == LowerAll(base) && parts[..|base|] != base
  {
    OtherNameDiffers(base[i]);
    assert Sibling(base, i)[..|base|] == base[i := OtherName(base[i])];
    assert LowerAll(base[i := OtherName(base[i])]) == LowerAll(base);
  }

  /** For the root every path is accepted, the root itself included. */
  lemma CheckedAtRoot(add: string, home: seq<string>)
    requires Normal(home)
    ensures Checked("/", add, Show(home)) == Show(Target([], add, home))
  {
    RootPrefix();
    ChangedResolves([], "/", add, home);
    ShownAbsolute(Target([], add, home));
  }

  lemma RootPrefix()
    ensures PrefixOf("/") == "/"
  {
    assert TrimRight("/", {'/'}) == TrimRight("/"[..0], {'/'}) == "";
  }

  lemma ShownAbsolute(parts: seq<string>)
    ensures StartsWith(Show(parts), "/")
  {
    StartsWithExact(Show(parts), "/");
    if parts != [] {
      BodyFront(parts);
    }
  }

  lemma StartsWithLower(s: string, prefix: string)
    ensures StartsWith(s, prefix) <==> Lower(prefix) <= Lower(s)
  {
    if |prefix| <= |s| {
      assert Lower(s[..|prefix|]) == Lower(s)[..|prefix|];
    }
  }
}
