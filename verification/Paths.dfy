/** shell_cmd.c: printing a folder's path and resolving a path to a folder, two walks over the
    tree that undo each other. Strings are byte sequences without their terminating NUL. */
module Paths {
  import opened Words
  import opened DirectoryLayout
  import opened Volumes
  import opened VolumePrune
  import opened Driver
  import opened Mount

  const SLASH: byte := '/' as int
  const BACKSLASH: byte := '\\' as int
  const PARENT_BUFFER: nat := 10

  // ---- C strings ----

  /** The C string that starts at the beginning of `b`. */
  function CString(b: seq<byte>): (s: seq<byte>)
    ensures |s| <= |b| && s == b[..|s|] && 0 !in s
    ensures |s| < |b| ==> b[|s|] == 0
  {
    if b == [] || b[0] == 0 then [] else [b[0]] + CString(b[1..])
  }

  /** strlen returns eight bits. */
  function StrLen(s: seq<byte>): byte {
    |s| % 0x100
  }

  predicate IsStrEqual(a: seq<byte>, b: seq<byte>) {
    StrLen(a) == StrLen(b) && a[..StrLen(a)] == b[..StrLen(b)]
  }

  lemma ShortStringsEqual(a: seq<byte>, b: seq<byte>)
    requires |a| < 0x100 && |b| < 0x100
    ensures IsStrEqual(a, b) <==> a == b
  {
  }

  /** An entry's name as the shell sees it: from the start of the entry to the first NUL. */
  function NameString(e: Entry): (s: seq<byte>)
    ensures |s| <= ENTRY_SIZE
  {
    CString(EncodeEntry(e))
  }

  // ---- Walking ----

  predicate IsSeparator(b: byte) {
    b == BACKSLASH || b == SLASH
  }

  /** The part of a path before its first separator. */
  function Component(path: seq<byte>): (c: seq<byte>)
    ensures |c| <= |path| && c == path[..|c|]
    ensures forall i :: 0 <= i < |c| ==> !IsSeparator(c[i])
    ensures |c| < |path| ==> IsSeparator(path[|c|])
  {
    if path == [] || IsSeparator(path[0]) then [] else [path[0]] + Component(path[1..])
  }

  /** The entry is a folder that a path component names. */
  predicate FolderNamed(e: Entry, name: seq<byte>) {
    IsStrEqual(name, NameString(e)) && e.IsFolder()
  }

  /** The first slot at or after `i` holding a folder of that name; TABLE_SIZE when there is none. */
  function FindFolder(t: Table, i: nat, name: seq<byte>): (n: nat)
    requires i <= TABLE_SIZE
    ensures i <= n <= TABLE_SIZE
    ensures forall j {:trigger FolderNamed(t[j], name)} :: i <= j < n ==> !FolderNamed(t[j], name)
    ensures n < TABLE_SIZE ==> FolderNamed(t[n], name)
    decreases TABLE_SIZE - i
  {
    if i == TABLE_SIZE || FolderNamed(t[i], name) then i else FindFolder(t, i + 1, name)
  }

  lemma RestIsShorter(path: seq<byte>)
    requires path != [] && !IsStrEqual(path, Component(path))
    ensures |Component(path)| < |path|
  {
  }

  /** get_deep_folder_cluster: the folder cluster a path leads to from folder `d`, or 0. */
  ghost function Resolve(v: Volume, path: seq<byte>, d: int): int
    decreases |path|
  {
    if path == [] then d
    else
      var parent := Component(path);
      var i := FindFolder(Dir(v, d), 1, parent);
      if i == TABLE_SIZE then 0
      else if IsStrEqual(path, parent) then Dir(v, d)[i].First()
      else
        RestIsShorter(path);
        Resolve(v, path[|parent| + 1..], Dir(v, d)[i].First())
  }

  /** What print_path_from_root prints after "root/". */
  ghost function Trail(v: Volume, g: Shape, d: int): seq<byte>
    requires TreeOK(v, g) && d in g.depth
    decreases g.depth[d]
  {
    if d == ROOT then [] else Trail(v, g, Up(v, d)) + NameString(Dir(v, d)[0]) + [SLASH]
  }

  // ---- Clean names ----

  /** A folder name a user can type: at least one character, no separator, not "..", and
      nothing but zeros after its end. */
  ghost predicate CleanName(n: Name) {
    var s := CString(n);
    && s != [] && s != ['.' as int, '.' as int]
    && (forall i :: 0 <= i < |s| ==> !IsSeparator(s[i]))
    && (forall i :: |s| <= i < 8 ==> n[i] == 0)
  }

  /** Every folder of the tree has a clean name and no extension. */
  ghost predicate CleanTree(v: Volume, g: Shape) {
    forall d, i {:trigger Slot(v, g, d, i)} ::
      Slot(v, g, d, i) && Dir(v, d)[i].IsFolder() ==> CleanName(Dir(v, d)[i].name) && Dir(v, d)[i].ext == ZERO_EXT
  }

  lemma {:induction false} CStringOfPrefix(a: seq<byte>, b: seq<byte>)
    requires 0 in a || (|b| > 0 && b[0] == 0)
    ensures CString(a + b) == CString(a)
  {
    if a == [] {
      assert a + b == b;
    } else if a[0] != 0 {
      assert (a + b)[1..] == a[1..] + b;
      CStringOfPrefix(a[1..], b);
    }
  }

  /** With an empty extension an entry's name string is the string in its name field. */
  lemma NameStringOfName(e: Entry)
    requires e.ext[0] == 0 || 0 in e.name
    ensures NameString(e) == CString(e.name)
  {
    var rest := EncodeEntry(e)[8..];
    assert EncodeEntry(e) == e.name + rest;
    CStringOfPrefix(e.name, rest);
  }

  lemma CleanNamesDiffer(m: Name, n: Name)
    requires CleanName(m) && CleanName(n) && CString(m) == CString(n)
    ensures m == n
  {
    forall i | 0 <= i < 8 ensures m[i] == n[i] {
      if i < |CString(m)| { assert CString(m)[i] == m[i] && CString(n)[i] == n[i]; }
    }
  }

  // ---- One step down ----

  /** The name of a folder entry leads to that entry: slot 1 is "..", files do not count, and
      no other folder has the name. */
  lemma FindsOwnSlot(v: Volume, g: Shape, p: int, i: int)
    requires WellFormed(v, g) && CleanTree(v, g) && Slot(v, g, p, i) && Dir(v, p)[i].IsFolder()
    ensures FindFolder(Dir(v, p), 1, CString(Dir(v, p)[i].name)) == i
  {
    var t := Dir(v, p);
    var s := CString(t[i].name);
    assert FolderOK(v, p);
    NameStringOfName(t[i]);
    ShortStringsEqual(s, NameString(t[i]));
    var n := FindFolder(t, 1, s);
    assert FolderNamed(t[i], s);
    ShortStringsEqual(s, NameString(t[n]));
    if n == 1 {
      NameStringOfDotDot(t[1]);
    } else if n < i {
      assert Slot(v, g, p, n);
      NameStringOfName(t[n]);
      CleanNamesDiffer(t[n].name, t[i].name);
    }
  }

  lemma NameStringOfDotDot(e: Entry)
    requires DotDot(e.name)
    ensures NameString(e) == ['.' as int, '.' as int]
  {
    NameStringOfName(e);
    var n: seq<byte> := e.name;
    assert CString(n[2..]) == [];
    assert n[1..][1..] == n[2..];
    assert CString(n[1..]) == [n[1]] + CString(n[2..]);
  }

  lemma {:induction false} ComponentOf(name: seq<byte>, rest: seq<byte>)
    requires forall i :: 0 <= i < |name| ==> !IsSeparator(name[i])
    requires rest == [] || IsSeparator(rest[0])
    ensures Component(name + rest) == name
  {
    if name == [] {
      assert name + rest == rest;
    } else {
      assert (name + rest)[1..] == name[1..] + rest;
      ComponentOf(name[1..], rest);
    }
  }

  /** Following one name and a separator; the walk stops early when what follows the name is a
      multiple of 256 bytes. */
  lemma ResolveStep(v: Volume, g: Shape, p: int, i: int, s: seq<byte>, rest: seq<byte>)
    requires WellFormed(v, g) && CleanTree(v, g) && Slot(v, g, p, i) && Dir(v, p)[i].IsFolder()
    requires s == CString(Dir(v, p)[i].name)
    ensures Resolve(v, s + [SLASH] + rest, p) ==
            if (1 + |rest|) % 0x100 == 0 then Dir(v, p)[i].First() else Resolve(v, rest, Dir(v, p)[i].First())
  {
    FindsOwnSlot(v, g, p, i);
    assert forall j :: 0 <= j < |s| ==> !IsSeparator(s[j]) by { assert CleanName(Dir(v, p)[i].name); }
    ResolveAt(v, p, i, s, rest);
  }

  lemma ResolveAt(v: Volume, p: int, i: nat, s: seq<byte>, rest: seq<byte>)
    requires |s| < 0x100 && (forall j :: 0 <= j < |s| ==> !IsSeparator(s[j])) && FindFolder(Dir(v, p), 1, s) == i < TABLE_SIZE
    ensures Resolve(v, s + [SLASH] + rest, p) ==
            if (1 + |rest|) % 0x100 == 0 then Dir(v, p)[i].First() else Resolve(v, rest, Dir(v, p)[i].First())
  {
    var more := [SLASH] + rest;
    assert s + [SLASH] + rest == s + more;
    assert more[1..] == rest;
    ResolveName(v, p, s, more);
  }

  /** What the walk does with the first name of a path: 0 when no folder has it; the folder that
      has it when nothing follows or what follows is a multiple of 256 bytes; otherwise on from there. */
  lemma ResolveName(v: Volume, p: int, s: seq<byte>, rest: seq<byte>)
    requires |s| < 0x100 && s + rest != [] && (forall j :: 0 <= j < |s| ==> !IsSeparator(s[j]))
    requires rest == [] || IsSeparator(rest[0])
    ensures var i := FindFolder(Dir(v, p), 1, s);
      Resolve(v, s + rest, p) ==
      if i == TABLE_SIZE then 0
      else if |rest| % 0x100 == 0 then Dir(v, p)[i].First()
      else Resolve(v, rest[1..], Dir(v, p)[i].First())
  {
    ComponentOf(s, rest);
    EqualsItsName(s, rest);
    DropName(s, rest);
    if FindFolder(Dir(v, p), 1, s) < TABLE_SIZE {
      if |rest| % 0x100 == 0 { ResolveLast(v, p, s + rest, s); } else { ResolveOn(v, p, s + rest, s); }
    }
  }

  lemma DropName(s: seq<byte>, rest: seq<byte>)
    ensures |rest| % 0x100 != 0 ==> |s| < |s + rest| && (s + rest)[|s| + 1..] == rest[1..]
  {
  }

  lemma ResolveLast(v: Volume, p: int, path: seq<byte>, c: seq<byte>)
    requires path != [] && c == Component(path) && FindFolder(Dir(v, p), 1, c) < TABLE_SIZE && IsStrEqual(path, c)
    ensures Resolve(v, path, p) == Dir(v, p)[FindFolder(Dir(v, p), 1, c)].First()
  {
  }

  lemma ResolveOn(v: Volume, p: int, path: seq<byte>, c: seq<byte>)
    requires c == Component(path) && |c| < |path| && FindFolder(Dir(v, p), 1, c) < TABLE_SIZE && !IsStrEqual(path, c)
    ensures Resolve(v, path, p) == Resolve(v, path[|c| + 1..], Dir(v, p)[FindFolder(Dir(v, p), 1, c)].First())
  {
  }

  /** A path compared with its own first component: equal when their lengths agree in eight bits. */
  lemma EqualsItsName(s: seq<byte>, rest: seq<byte>)
    requires |s| < 0x100
    ensures IsStrEqual(s + rest, s) <==> |rest| % 0x100 == 0
  {
    if |rest| % 0x100 == 0 {
      assert (s + rest)[..|s|] == s[..|s|];
    }
  }

  /** Slot `i` is the first from slot 1 on that holds a folder printed as `s`. */
  ghost predicate FirstFolder(t: Table, i: int, s: seq<byte>) {
    1 <= i < TABLE_SIZE && FolderPrinted(t[i], s) && forall j :: 1 <= j < i ==> !FolderPrinted(t[j], s)
  }

  predicate FolderPrinted(e: Entry, s: seq<byte>) {
    e.attribute == 0x10 && NameString(e) == s
  }

  /** One name of a path, over the slots of the folder it is looked up in: with "/" or "\\" after
      it, or nothing. A name no folder has leads to 0. */
  lemma NameLeads(v: Volume, p: int, s: seq<byte>, rest: seq<byte>)
    requires |s| < 0x100 && s + rest != [] && 47 !in s && 92 !in s && (rest == [] || rest[0] == 47 || rest[0] == 92)
    ensures (forall j :: 1 <= j < TABLE_SIZE ==> !FolderPrinted(Dir(v, p)[j], s)) ==> Resolve(v, s + rest, p) == 0
    ensures forall i :: FirstFolder(Dir(v, p), i, s) ==>
              Resolve(v, s + rest, p) ==
              if |rest| % 0x100 == 0 then Dir(v, p)[i].First() else Resolve(v, rest[1..], Dir(v, p)[i].First())
  {
    var t := Dir(v, p);
    ResolveName(v, p, s, rest);
    forall j | 1 <= j < TABLE_SIZE ensures FolderNamed(t[j], s) <==> FolderPrinted(t[j], s) {
      ShortStringsEqual(s, NameString(t[j]));
    }
    forall i | FirstFolder(t, i, s) ensures FindFolder(t, 1, s) == i {
      assert FolderNamed(t[i], s);
    }
  }

  /** `cd name` in folder `p`: the name of one of its folders, with nothing after it, leads to it. */
  lemma NameAloneLeads(v: Volume, g: Shape, p: int, i: int)
    requires WellFormed(v, g) && CleanTree(v, g) && Slot(v, g, p, i) && Dir(v, p)[i].IsFolder()
    ensures Resolve(v, CString(Dir(v, p)[i].name), p) == Dir(v, p)[i].First()
  {
    var s := CString(Dir(v, p)[i].name);
    FindsOwnSlot(v, g, p, i);
    assert CleanName(Dir(v, p)[i].name);
    ResolveName(v, p, s, []);
    assert s + [] == s;
  }

  /** `cd ..` goes up one folder, from the root to the root; more may follow it. */
  lemma DotDotLeadsUp(v: Volume, g: Shape, d: int, rest: seq<byte>)
    requires WellFormed(v, g) && d in g.depth && (rest == [] || rest[0] == 47 || rest[0] == 92)
    ensures Resolve(v, [46, 46] + rest, d) == if |rest| % 0x100 == 0 then Up(v, d) else Resolve(v, rest[1..], Up(v, d))
  {
    assert FolderOK(v, d);
    NameStringOfDotDot(Dir(v, d)[1]);
    assert FirstFolder(Dir(v, d), 1, [46, 46]);
    NameLeads(v, d, [46, 46], rest);
  }

  /** A folder's own entry 0 prints the name its parent's entry has. */
  lemma PrintsOwnName(v: Volume, g: Shape, d: int) returns (i: int)
    requires WellFormed(v, g) && CleanTree(v, g) && d in g.depth && d != ROOT
    ensures Up(v, d) in g.depth && Slot(v, g, Up(v, d), i)
    ensures var e := Dir(v, Up(v, d))[i];
      e.First() == d && e.IsFolder() && NameString(Dir(v, d)[0]) == CString(e.name) && CleanName(e.name)
  {
    assert Up(v, d) in g.depth && Owned(v, g, d);
    var p, j :| Owns(v, g, p, j, d);
    OwnedFolder(v, g, p, j);
    assert SlotOK(v, g, p, Dir(v, p)[j]);
    NameStringOfName(Dir(v, d)[0]);
    i := j;
  }

  // ---- Resolving what was printed ----

  /** No separator among the first `n` bytes of the path stands a multiple of 256 bytes before
      its end, where a length kept in eight bits would take the path for its component. */
  predicate WrapFreeUpTo(path: seq<byte>, n: nat) {
    forall i :: 0 <= i < n && i < |path| && IsSeparator(path[i]) ==> (|path| - i) % 0x100 != 0
  }

  predicate WrapFree(path: seq<byte>) {
    WrapFreeUpTo(path, |path|)
  }

  lemma ShortPathsAreWrapFree(path: seq<byte>)
    requires |path| <= 0x100
    ensures WrapFree(path) <==> |path| < 0x100 || !IsSeparator(path[0])
  {
  }

  lemma WrapFreeStep(a: seq<byte>, s: seq<byte>, rest: seq<byte>)
    requires forall i :: 0 <= i < |s| ==> !IsSeparator(s[i])
    ensures var path := a + s + [SLASH] + rest;
      WrapFreeUpTo(path, |a| + |s| + 1) <==> WrapFreeUpTo(path, |a|) && (1 + |rest|) % 0x100 != 0
  {
    var path, n := a + s + [SLASH] + rest, |a| + |s|;
    assert path[n] == SLASH && |path| - n == 1 + |rest|;
    forall i | |a| <= i < n ensures !IsSeparator(path[i]) {
      assert path[i] == s[i - |a|];
    }
  }

  /** Resolving the printed path of folder `d` followed by more: the walk arrives at `d` with the
      rest still to go, or it stops at a folder on the way. */
  lemma {:induction false} ResolveTrail(v: Volume, g: Shape, d: int, rest: seq<byte>)
    requires WellFormed(v, g) && CleanTree(v, g) && d in g.depth
    ensures var path := Trail(v, g, d) + rest;
      if WrapFreeUpTo(path, |Trail(v, g, d)|) then Resolve(v, path, ROOT) == Resolve(v, rest, d)
      else Resolve(v, path, ROOT) in g.depth && g.depth[Resolve(v, path, ROOT)] <= g.depth[d]
    decreases g.depth[d]
  {
    if d == ROOT {
      assert Trail(v, g, d) + rest == rest;
    } else {
      var i := PrintsOwnName(v, g, d);
      var s := NameString(Dir(v, d)[0]);
      ResolveTrail(v, g, Up(v, d), s + [SLASH] + rest);
      Reassociate(Trail(v, g, Up(v, d)), s, [SLASH], rest);
      WrapFreeStep(Trail(v, g, Up(v, d)), s, rest);
      ResolveStep(v, g, Up(v, d), i, s, rest);
    }
  }

  lemma Reassociate(a: seq<byte>, b: seq<byte>, c: seq<byte>, d: seq<byte>)
    ensures a + b + c + d == a + (b + c + d)
  {
  }

  /** The printed path of a folder, resolved from the root, leads back to the folder if and only
      if no separator in it stands a multiple of 256 bytes before its end. */
  lemma ResolvePrinted(v: Volume, g: Shape, d: int)
    requires WellFormed(v, g) && CleanTree(v, g) && d in g.depth
    ensures Resolve(v, Trail(v, g, d), ROOT) == d <==> WrapFree(Trail(v, g, d))
  {
    var path := Trail(v, g, d);
    ResolveTrail(v, g, d, []);
    assert path + [] == path;
    if d != ROOT {
      StopsAbove(v, g, d);
    }
  }

  /** Without its final "/" the printed path of a folder leads where the whole one leads, if and
      only if no separator in it stands a multiple of 256 bytes before its end. */
  lemma ResolvePrintedUnslashed(v: Volume, g: Shape, d: int)
    requires WellFormed(v, g) && CleanTree(v, g) && d in g.depth && d != ROOT
    ensures Trail(v, g, d) != []
    ensures var path := Trail(v, g, d)[..|Trail(v, g, d)| - 1]; Resolve(v, path, ROOT) == d <==> WrapFree(path)
  {
    var i := PrintsOwnName(v, g, d);
    var a, s := Trail(v, g, Up(v, d)), NameString(Dir(v, d)[0]);
    assert (a + s + [SLASH])[..|a + s|] == a + s;
    ResolveTrail(v, g, Up(v, d), s);
    NameAloneLeads(v, g, Up(v, d), i);
    WrapFreeName(a, s);
  }

  lemma WrapFreeName(a: seq<byte>, s: seq<byte>)
    requires forall i :: 0 <= i < |s| ==> !IsSeparator(s[i])
    ensures WrapFree(a + s) <==> WrapFreeUpTo(a + s, |a|)
  {
    forall i | |a| <= i < |a + s| ensures !IsSeparator((a + s)[i]) {
      assert (a + s)[i] == s[i - |a|];
    }
  }

  /** Where the walk of a folder's printed path stops early it stops above the folder. */
  lemma StopsAbove(v: Volume, g: Shape, d: int)
    requires WellFormed(v, g) && CleanTree(v, g) && d in g.depth && d != ROOT
    ensures !WrapFree(Trail(v, g, d)) ==> Resolve(v, Trail(v, g, d), ROOT) != d
  {
    var i := PrintsOwnName(v, g, d);
    var a, s := Trail(v, g, Up(v, d)), NameString(Dir(v, d)[0]);
    ResolveTrail(v, g, Up(v, d), s + [SLASH]);
    WrapFreeLast(a, s);
  }

  lemma WrapFreeLast(a: seq<byte>, s: seq<byte>)
    requires forall i :: 0 <= i < |s| ==> !IsSeparator(s[i])
    ensures a + s + [SLASH] == a + (s + [SLASH])
    ensures WrapFree(a + s + [SLASH]) <==> WrapFreeUpTo(a + s + [SLASH], |a|)
  {
  }

  // ---- Different folders print differently ----

  /** A printed path is empty or ends in a separator. */
  predicate Ends(a: seq<byte>) {
    a == [] || a[|a| - 1] == SLASH
  }

  lemma LastComponent(a: seq<byte>, s: seq<byte>, b: seq<byte>, t: seq<byte>)
    requires Ends(a) && Ends(b) && a + s == b + t
    requires (forall i :: 0 <= i < |s| ==> !IsSeparator(s[i])) && (forall i :: 0 <= i < |t| ==> !IsSeparator(t[i]))
    ensures a == b && s == t
  {
    assert a != [] ==> (a + s)[|a| - 1] == SLASH;
    assert b != [] ==> (b + t)[|b| - 1] == SLASH;
    assert |a| == |b|;
    assert (a + s)[..|a|] == a && (b + t)[..|b|] == b && (a + s)[|a|..] == s && (b + t)[|b|..] == t;
  }

  /** Different folders print different paths, whatever their length. */
  lemma {:induction false} PrintedPathsDiffer(v: Volume, g: Shape, d: int, e: int)
    requires WellFormed(v, g) && CleanTree(v, g) && d in g.depth && e in g.depth
    requires Trail(v, g, d) == Trail(v, g, e)
    ensures d == e
    decreases g.depth[d]
  {
    if d != ROOT && e != ROOT {
      var i := PrintsOwnName(v, g, d);
      var j := PrintsOwnName(v, g, e);
      var a, s, b, t := Trail(v, g, Up(v, d)), NameString(Dir(v, d)[0]), Trail(v, g, Up(v, e)), NameString(Dir(v, e)[0]);
      assert a + s == (a + s + [SLASH])[..|a + s|] && b + t == (b + t + [SLASH])[..|b + t|];
      LastComponent(a, s, b, t);
      PrintedPathsDiffer(v, g, Up(v, d), Up(v, e));
      FindsOwnSlot(v, g, Up(v, d), i);
      FindsOwnSlot(v, g, Up(v, e), j);
    }
  }

  // ---- Printing what was resolved ----

  /** Every component of the path fits the ten-byte buffer with its NUL. */
  predicate ShortComponents(path: seq<byte>)
    decreases |path|
  {
    |Component(path)| < PARENT_BUFFER && (|Component(path)| < |path| ==> ShortComponents(path[|Component(path)| + 1..]))
  }

  /** A path as the shell prints them: components, none of them "..", each followed by "/". */
  predicate Printable(path: seq<byte>)
    decreases |path|
  {
    path == [] ||
    (var c := Component(path);
     |c| < |path| && path[|c|] == 47 && c != [46, 46] && Printable(path[|c| + 1..]))
  }

  /** A printable path that leads from folder `e` to some folder is how that folder prints,
      counted from `e`, if and only if it does not wrap. */
  lemma {:induction false} PrintResolvedFrom(v: Volume, g: Shape, path: seq<byte>, e: int)
    requires WellFormed(v, g) && CleanTree(v, g) && e in g.depth && Printable(path) && ShortComponents(path)
    requires Resolve(v, path, e) != 0
    ensures Resolve(v, path, e) in g.depth
    ensures Trail(v, g, Resolve(v, path, e)) == Trail(v, g, e) + path <==> WrapFree(path)
    decreases |path|
  {
    if path == [] {
      assert Trail(v, g, e) + path == Trail(v, g, e);
    } else {
      var c, rest, k := FirstStep(v, g, path, e);
      if (1 + |rest|) % 0x100 != 0 {
        PrintResolvedFrom(v, g, rest, k);
      }
      PrintStep(Trail(v, g, Resolve(v, path, e)), Trail(v, g, k), Trail(v, g, e), c, rest);
    }
  }

  /** One step of the walk in terms of what is printed: `x` for the folder the walk ends at, `y`
      for the child stepped to. */
  lemma PrintStep(x: seq<byte>, y: seq<byte>, a: seq<byte>, c: seq<byte>, rest: seq<byte>)
    requires y == a + c + [SLASH] && forall i :: 0 <= i < |c| ==> !IsSeparator(c[i])
    requires if (1 + |rest|) % 0x100 == 0 then x == y else x == y + rest <==> WrapFree(rest)
    ensures x == a + (c + [SLASH] + rest) <==> WrapFree(c + [SLASH] + rest)
  {
    WrapFreeRest(c, rest);
    Reassociate(a, c, [SLASH], rest);
  }

  lemma WrapFreeRest(c: seq<byte>, rest: seq<byte>)
    requires forall i :: 0 <= i < |c| ==> !IsSeparator(c[i])
    ensures WrapFree(c + [SLASH] + rest) <==> (1 + |rest|) % 0x100 != 0 && WrapFree(rest)
  {
    var path, n := c + [SLASH] + rest, |c| + 1;
    assert path == [] + c + [SLASH] + rest;
    WrapFreeStep([], c, rest);
    forall i | n <= i < |path| ensures path[i] == rest[i - n] && |path| - i == |rest| - (i - n) {}
    if WrapFree(path) {
      forall j | 0 <= j < |rest| && IsSeparator(rest[j]) ensures (|rest| - j) % 0x100 != 0 {
        assert path[n + j] == rest[j];
      }
    }
  }

  /** A printable path that leads somewhere splits into the name of a child and the rest. */
  lemma FirstStep(v: Volume, g: Shape, path: seq<byte>, e: int) returns (c: seq<byte>, rest: seq<byte>, k: int)
    requires WellFormed(v, g) && CleanTree(v, g) && e in g.depth && Printable(path) && ShortComponents(path)
    requires Resolve(v, path, e) != 0 && path != []
    ensures path == c + [SLASH] + rest && |rest| < |path| && Printable(rest) && ShortComponents(rest)
    ensures forall i :: 0 <= i < |c| ==> !IsSeparator(c[i])
    ensures k in g.depth && Trail(v, g, k) == Trail(v, g, e) + c + [SLASH]
    ensures Resolve(v, path, e) == if (1 + |rest|) % 0x100 == 0 then k else Resolve(v, rest, k)
  {
    SplitPath(path);
    c, rest := Component(path), path[|Component(path)| + 1..];
    var i := ResolveUnfolds(v, c, rest, e);
    k := Dir(v, e)[i].First();
    StepsToChild(v, g, e, i, c);
  }

  lemma SplitPath(path: seq<byte>)
    requires Printable(path) && path != []
    ensures var c := Component(path);
      && |c| < |path| && c != ['.' as int, '.' as int]
      && path == c + [SLASH] + path[|c| + 1..] && Printable(path[|c| + 1..])
  {
  }

  lemma ResolveUnfolds(v: Volume, c: seq<byte>, rest: seq<byte>, e: int) returns (i: nat)
    requires |c| < PARENT_BUFFER && (forall j :: 0 <= j < |c| ==> !IsSeparator(c[j])) && Resolve(v, c + [SLASH] + rest, e) != 0
    ensures 1 <= i < TABLE_SIZE && NameString(Dir(v, e)[i]) == c && Dir(v, e)[i].IsFolder()
    ensures Resolve(v, c + [SLASH] + rest, e) ==
            if (1 + |rest|) % 0x100 == 0 then Dir(v, e)[i].First() else Resolve(v, rest, Dir(v, e)[i].First())
  {
    i := FindFolder(Dir(v, e), 1, c);
    assert c + [SLASH] + rest == c + ([SLASH] + rest);
    ComponentOf(c, [SLASH] + rest);
    FindFolderName(Dir(v, e), c);
    ResolveAt(v, e, i, c, rest);
  }

  lemma FindFolderName(t: Table, c: seq<byte>)
    requires |c| < 0x100
    ensures var i := FindFolder(t, 1, c); i < TABLE_SIZE ==> NameString(t[i]) == c && t[i].IsFolder()
  {
    var i := FindFolder(t, 1, c);
    if i < TABLE_SIZE {
      ShortStringsEqual(c, NameString(t[i]));
    }
  }

  lemma StepsToChild(v: Volume, g: Shape, e: int, i: int, c: seq<byte>)
    requires WellFormed(v, g) && CleanTree(v, g) && e in g.depth
    requires 1 <= i < TABLE_SIZE && NameString(Dir(v, e)[i]) == c && Dir(v, e)[i].IsFolder() && c != ['.' as int, '.' as int]
    ensures Slot(v, g, e, i)
    ensures var k := Dir(v, e)[i].First(); k in g.depth && Trail(v, g, k) == Trail(v, g, e) + c + [SLASH]
  {
    assert FolderOK(v, e);
    if i == 1 {
      NameStringOfDotDot(Dir(v, e)[1]);
    }
    assert Slot(v, g, e, i);
    ChildPrints(v, g, e, i);
  }

  lemma ChildPrints(v: Volume, g: Shape, e: int, i: int)
    requires WellFormed(v, g) && CleanTree(v, g) && Slot(v, g, e, i) && Dir(v, e)[i].IsFolder()
    ensures var k := Dir(v, e)[i].First();
      k in g.depth && Trail(v, g, k) == Trail(v, g, e) + NameString(Dir(v, e)[i]) + [SLASH]
  {
    var k := Dir(v, e)[i].First();
    assert SlotOK(v, g, e, Dir(v, e)[i]);
    OwnedFolder(v, g, e, i);
    NameStringOfName(Dir(v, k)[0]);
    NameStringOfName(Dir(v, e)[i]);
  }

  /** A printable path from the root that leads to a folder is how the folder prints, if and
      only if no separator in it stands a multiple of 256 bytes before its end. */
  lemma PrintResolved(v: Volume, g: Shape, path: seq<byte>)
    requires WellFormed(v, g) && CleanTree(v, g) && Printable(path) && ShortComponents(path) && Resolve(v, path, ROOT) != 0
    ensures Resolve(v, path, ROOT) in g.depth
    ensures Trail(v, g, Resolve(v, path, ROOT)) == path <==> WrapFree(path)
  {
    PrintResolvedFrom(v, g, path, ROOT);
    assert Trail(v, g, ROOT) + path == path;
  }

  // ---- The shell's procedures ----

  /** get_parent: copies a path's first component into a zeroed ten-byte buffer. */
  method GetParent(path: seq<byte>, parent: array<byte>)
    requires parent.Length == PARENT_BUFFER && 0 !in path && |Component(path)| < PARENT_BUFFER
    requires forall i :: 0 <= i < PARENT_BUFFER ==> parent[i] == 0
    modifies parent
    ensures CString(parent[..]) == Component(path)
  {
    var i := 0;
    while i < |path| && path[i] != BACKSLASH && path[i] != SLASH
      invariant 0 <= i <= |Component(path)|
      invariant parent[..i] == path[..i]
      invariant forall j :: i <= j < PARENT_BUFFER ==> parent[j] == 0
    {
      parent[i] := path[i];
      i := i + 1;
    }
    var c := Component(path);
    assert i == |c|;
    assert parent[..] == c + Zeros(PARENT_BUFFER - i);
    CStringOfPadded(c, PARENT_BUFFER - i);
  }

  lemma {:induction false} CStringOfPadded(s: seq<byte>, n: nat)
    requires 0 !in s
    ensures CString(s + Zeros(n)) == s
  {
    if s == [] {
      assert s + Zeros(n) == Zeros(n);
    } else {
      assert (s + Zeros(n))[1..] == s[1..] + Zeros(n);
      CStringOfPadded(s[1..], n);
    }
  }

  /** get_deep_folder_cluster over a mounted file system. */
  method GetDeepFolderCluster(fs: FileSystem, path: seq<byte>, current: nat) returns (r: int)
    requires fs.Valid() && current in fs.shape.depth && 0 !in path && ShortComponents(path)
    ensures r == Resolve(fs.Vol(), path, current)
  {
    r := Descend(fs, path, current, fs.Vol(), fs.shape);
  }

  /** The recursion of get_deep_folder_cluster. */
  method Descend(fs: FileSystem, path: seq<byte>, current: nat, ghost v: Volume, ghost g: Shape) returns (r: int)
    requires fs.Sized() && fs.Vol() == v && WellFormed(v, g)
    requires current in g.depth && 0 !in path && ShortComponents(path)
    ensures r == Resolve(v, path, current)
    decreases |path|
  {
    if path == [] {
      return current;
    }
    FolderInUse(v, g, current);
    var t := fs.ReadTable(current);
    var parent := FirstComponent(path);
    var i := FindFolderSlot(t, parent);
    if i == TABLE_SIZE {
      return 0;
    }
    if IsStrEqual(path, parent) {
      return t[i].First();
    }
    RestIsShorter(path);
    FolderEntry(v, g, current, i);
    r := Descend(fs, path[|parent| + 1..], t[i].First(), v, g);
  }

  /** The zeroed buffer and the call of get_parent that fills it. */
  method FirstComponent(path: seq<byte>) returns (parent: seq<byte>)
    requires 0 !in path && |Component(path)| < PARENT_BUFFER
    ensures parent == Component(path)
  {
    var buffer := new byte[PARENT_BUFFER](_ => 0);
    GetParent(path, buffer);
    parent := CString(buffer[..]);
  }

  /** The loop over the entries of one folder. */
  method FindFolderSlot(t: Table, name: seq<byte>) returns (i: nat)
    ensures i == FindFolder(t, 1, name)
  {
    i := 1;
    while i < TABLE_SIZE
      invariant 1 <= i <= TABLE_SIZE
      invariant FindFolder(t, 1, name) == FindFolder(t, i, name)
    {
      if IsStrEqual(name, NameString(t[i])) && t[i].IsFolder() {
        return;
      }
      i := i + 1;
    }
  }

  /** Slot 1 and every folder entry of a folder name a folder of the tree. */
  lemma FolderEntry(v: Volume, g: Shape, d: int, i: int)
    requires WellFormed(v, g) && d in g.depth && 1 <= i < TABLE_SIZE && Dir(v, d)[i].IsFolder()
    ensures Dir(v, d)[i].First() in g.depth
  {
    assert FolderOK(v, d);
    if i == 1 {
      assert d != ROOT ==> Up(v, d) in g.depth;
      assert Up(v, d) == Dir(v, d)[1].First();
    } else {
      assert Slot(v, g, d, i);
      assert SlotOK(v, g, d, Dir(v, d)[i]);
    }
  }

  lemma RootText()
    ensures Ascii("root/") == [114, 111, 111, 116, 47]
  {
  }

  lemma PrintOneMore(a: seq<byte>, b: seq<byte>, c: seq<byte>, d: seq<byte>)
    ensures (a + b) + c + d == a + (b + c + d)
  {
  }

  /** print_path_from_root over a mounted file system; the text printed: "root/", then the path. */
  method PrintPathFromRoot(fs: FileSystem, cluster: nat) returns (text: seq<byte>)
    requires fs.Valid() && cluster in fs.shape.depth
    ensures text == [114, 111, 111, 116, 47] + Trail(fs.Vol(), fs.shape, cluster)
    decreases fs.shape.depth[cluster]
  {
    RootText();
    if cluster == ROOT {
      return Ascii("root/");
    }
    FolderInUse(fs.Vol(), fs.shape, cluster);
    var t := fs.ReadTable(cluster);
    assert Up(fs.Vol(), cluster) in fs.shape.depth;
    var above := PrintPathFromRoot(fs, t[1].First());
    text := above + NameString(t[0]) + [SLASH];
    PrintOneMore(Ascii("root/"), Trail(fs.Vol(), fs.shape, t[1].First()), NameString(t[0]), [SLASH]);
  }
}
