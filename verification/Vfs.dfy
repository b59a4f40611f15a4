/** Path resolution, creation, mounting and getcwd (kernel/fs/vfs.cc, kernel/fs/ram_fs.cc,
    kernel/syscalls.cc). */
module Vfs {
  import opened Sums

  // ----- paths -----

  // The length of the part that a path starts with.
  function PartLength(s: string): (n: nat)
    ensures n <= |s| && (forall i :: 0 <= i < n ==> s[i] != '/') && (n < |s| ==> s[n] == '/')
  {
    if s == "" || s[0] == '/' then 0 else 1 + PartLength(s[1..])
  }

  /** The names in a path; slashes only separate. */
  function Components(s: string): (r: seq<string>)
    decreases |s|
  {
    if s == "" then []
    else if s[0] == '/' then Components(s[1..])
    else [s[..PartLength(s)]] + Components(s[PartLength(s)..])
  }

  predicate PlainName(n: string) {
    n != "" && n != "." && n != ".." && forall i :: 0 <= i < |n| ==> n[i] != '/'
  }

  predicate PlainNames(names: seq<string>) { forall i :: 0 <= i < |names| ==> PlainName(names[i]) }

  // Every name with a slash before it.
  function Slashed(names: seq<string>): string {
    if names == [] then "" else "/" + names[0] + Slashed(names[1..])
  }

  function Joined(names: seq<string>): string {
    if names == [] then "/" else Slashed(names)
  }

  /** A joined path has the names that it was joined from. */
  lemma {:induction false} ComponentsSlashed(names: seq<string>)
    requires PlainNames(names)
    ensures Components(Slashed(names)) == names
  {
    hide Components;
    if names == [] {
      NoComponents();
    } else {
      var rest := Slashed(names[1..]);
      ComponentsSlashed(names[1..]);
      SlashSkipped(names[0] + rest);
      assert Slashed(names) == "/" + (names[0] + rest);
      NameThenRest(names[0], rest);
    }
  }

  lemma NoComponents()
    ensures Components("") == []
  {
  }

  lemma SlashSkipped(s: string)
    ensures Components("/" + s) == Components(s)
  {
    assert ("/" + s)[1..] == s;
  }

  lemma NameThenRest(name: string, rest: string)
    requires name != "" && (forall i :: 0 <= i < |name| ==> name[i] != '/') && (rest != "" ==> rest[0] == '/')
    ensures Components(name + rest) == [name] + Components(rest)
  {
    var s := name + rest;
    PartIs(s, |name|);
    assert s[..|name|] == name && s[|name|..] == rest;
  }

  lemma PartIs(s: string, n: nat)
    requires n <= |s| && (forall i :: 0 <= i < n ==> s[i] != '/') && (n < |s| ==> s[n] == '/')
    ensures PartLength(s) == n
  {
  }

  lemma ComponentsJoined(names: seq<string>)
    requires PlainNames(names)
    ensures Components(Joined(names)) == names
  {
    ComponentsSlashed(names);
    assert Components("/") == Components("/"[1..]);
  }

  /** The names in two paths with a slash between them are those of the one and then those of the other. */
  lemma {:induction false} ComponentsBeside(s: string, t: string)
    ensures Components(s + "/" + t) == Components(s) + Components(t)
    decreases |s|
  {
    hide Components;
    if s == "" {
      NoComponents();
      SlashSkipped(t);
      assert s + "/" + t == "/" + t;
    } else if s[0] == '/' {
      ComponentsBeside(s[1..], t);
      SlashSkipped(s[1..]);
      SlashSkipped(s[1..] + "/" + t);
      assert s == "/" + s[1..] && s + "/" + t == "/" + (s[1..] + "/" + t);
    } else {
      var n := PartLength(s);
      var name, rest := s[..n], s[n..];
      ComponentsBeside(rest, t);
      NameThenRest(name, rest);
      NameThenRest(name, rest + "/" + t);
      assert s == name + rest && s + "/" + t == name + (rest + "/" + t);
    }
  }

  /** The names in what is left after `part` has been read. */
  ghost function NamesLeft(part: string, rest: string): seq<string> {
    if part == "" then [] else if part[0] == '/' then Components(rest) else [part] + Components(rest)
  }

  // A part is a slash, a name that a slash or the end follows, or at the end nothing.
  ghost predicate PartOf(s: string, part: string, rest: string) {
    && s == part + rest && (part == "" <==> s == "")
    && (part != "" && part[0] == '/' ==> part == "/")
    && (part != "" && part[0] != '/' ==> rest == "" || rest[0] == '/')
    && Components(s) == NamesLeft(part, rest)
  }

  lemma SlashIsPart(s: string)
    requires s != "" && s[0] == '/'
    ensures PartOf(s, "/", s[1..])
  {
  }

  lemma NameIsPart(s: string, n: nat)
    requires 0 < n <= |s| && (forall i :: 0 <= i < n ==> s[i] != '/') && (n < |s| ==> s[n] == '/')
    ensures PartOf(s, s[..n], s[n..])
  {
    PartIs(s, n);
  }

  /** consume_part. */
  method ConsumePart(path: string, position: nat) returns (part: string, position': nat)
    requires position <= |path|
    ensures position <= position' <= |path| && (part != "" ==> position < position')
    ensures PartOf(path[position..], part, path[position'..])
  {
    position' := position;
    if position >= |path| {
      return "", position;
    }
    if path[position] == '/' {
      SlashIsPart(path[position..]);
      assert path[position..][1..] == path[position + 1..];
      return "/", position + 1;
    }
    var i := position;
    while i < |path| && path[i] != '/'
      invariant position <= i == position' <= |path|
      invariant forall k :: position <= k < i ==> path[k] != '/'
    {
      position' := position' + 1;
      i := i + 1;
    }
    part := path[position..position'];
    ghost var s := path[position..];
    NameIsPart(s, position' - position);
    assert s[..position' - position] == part && s[position' - position..] == path[position'..];
  }

  // ----- inodes -----

  datatype Kind = AnonymousFile | Directory | RegularFile

  class Inode {
    const parent: Inode?
    const kind: Kind
    const name: string
    var children: seq<Inode>

    constructor (parent: Inode?, kind: Kind, name: string)
      ensures this.parent == parent && this.kind == kind && this.name == name && children == []
    {
      this.parent, this.kind, this.name := parent, kind, name;
      children := [];
    }

    // The root of the root file system is its own parent.
    constructor Root()
      ensures parent == this && kind == Directory && name == "/" && children == []
    {
      parent, kind, name := this, Directory, "/";
      children := [];
    }
  }

  function FindChild(children: seq<Inode>, name: string): (r: Inode?)
    ensures r != null ==> r in children && r.name == name
    ensures r == null ==> forall c :: c in children ==> c.name != name
  {
    if children == [] then null
    else if children[0].name == name then children[0]
    else FindChild(children[1..], name)
  }

  datatype Mount = Mount(host: Inode, root: Inode)

  /** The file systems at one moment: the children that each inode lists, and the mounts. */
  datatype Files = Files(root: Inode, listing: map<Inode, seq<Inode>>, mounts: seq<Mount>)

  /** lookup on a directory. */
  ghost function Lookup(s: Files, d: Inode, name: string): Inode? {
    if name == "." then d
    else if name == ".." then d.parent
    else if d in s.listing then FindChild(s.listing[d], name)
    else null
  }

  /** What is seen at an inode: the root of the first file system mounted on it, or itself. */
  function Seen(mounts: seq<Mount>, x: Inode): Inode {
    if mounts == [] then x else if mounts[0].host == x then mounts[0].root else Seen(mounts[1..], x)
  }

  // Where a path leads; Stopped stands for a lookup in something that is not a directory.
  datatype Place = At(inode: Inode) | Missing | Stopped

  ghost function Step(s: Files, d: Inode, name: string): Place {
    if d.kind != Directory then Stopped
    else
      var c := Lookup(s, d, name);
      if c == null then Missing else At(Seen(s.mounts, c))
  }

  /** Where a list of names leads from a directory. */
  ghost function Walk(s: Files, d: Inode, names: seq<string>): Place {
    if names == [] then At(d)
    else
      var before := Walk(s, d, names[..|names| - 1]);
      if before.At? then Step(s, before.inode, names[|names| - 1]) else before
  }

  lemma WalkOne(s: Files, d: Inode, names: seq<string>, name: string)
    ensures var before := Walk(s, d, names);
      Walk(s, d, names + [name]) == if before.At? then Step(s, before.inode, name) else before
  {
    assert (names + [name])[..|names|] == names;
  }

  /** A walk that has failed stays failed. */
  lemma {:induction false} WalkStuck(s: Files, d: Inode, names: seq<string>, more: seq<string>)
    requires !Walk(s, d, names).At?
    ensures Walk(s, d, names + more) == Walk(s, d, names)
  {
    if more == [] {
      assert names + more == names;
    } else {
      var init, last := more[..|more| - 1], more[|more| - 1];
      WalkStuck(s, d, names, init);
      WalkOne(s, d, names + init, last);
      assert names + more == names + init + [last];
    }
  }

  /** A walk that goes on from where another led. */
  lemma {:induction false} WalkOn(s: Files, d: Inode, names: seq<string>, e: Inode, more: seq<string>)
    requires Walk(s, d, names) == At(e)
    ensures Walk(s, d, names + more) == Walk(s, e, more)
  {
    if more == [] {
      assert names + more == names;
    } else {
      var init, last := more[..|more| - 1], more[|more| - 1];
      WalkOn(s, d, names, e, init);
      WalkOne(s, d, names + init, last);
      assert names + more == names + init + [last];
    }
  }

  // From no directory at all nothing is found.
  ghost function WalkFrom(s: Files, start: Inode?, names: seq<string>): Place {
    if start == null then Missing else Walk(s, start, names)
  }

  ghost function Start(s: Files, path: string, base: Inode?): Inode? {
    if path != "" && path[0] == '/' then s.root else base
  }

  // ----- what the operations keep -----

  ghost predicate IsListed(s: Files, x: Inode) {
    x.parent != null && x.parent in s.listing && x in s.listing[x.parent]
  }

  ghost predicate InodesSound(s: Files) {
    && s.root in s.listing && s.root.parent == s.root && s.root.kind == Directory && s.root.name == "/"
    && forall d :: d in s.listing ==>
         && (d.parent != null ==> d.parent in s.listing) && (PlainName(d.name) || d.name == "/")
         && (d.kind != Directory ==> s.listing[d] == [])
  }

  ghost predicate ChildrenSound(s: Files) {
    forall d, c :: d in s.listing && c in s.listing[d] ==>
      c in s.listing && c.parent == d && c != s.root && PlainName(c.name)
  }

  ghost predicate NamesDiffer(s: Files) {
    forall d, i, j :: d in s.listing && 0 <= i < j < |s.listing[d]| ==> s.listing[d][i].name != s.listing[d][j].name
  }

  ghost predicate MountsSound(s: Files) {
    forall m :: m in s.mounts ==>
      && m.host in s.listing && m.root in s.listing && m.root != s.root && m.root.kind == Directory
      && !IsListed(s, m.root)
  }

  /** Directories list their own children, under plain names that are all different; nothing else has
      children, and what is mounted is nobody's child. */
  ghost predicate Sound(s: Files) {
    InodesSound(s) && ChildrenSound(s) && NamesDiffer(s) && MountsSound(s)
  }

  /** The parents of an inode spell these names on the way from the root. */
  ghost predicate Spells(root: Inode, d: Inode, names: seq<string>) {
    if names == [] then d == root
    else
      && d != root && d.name == names[|names| - 1]
      && d.parent != null && Spells(root, d.parent, names[..|names| - 1])
  }

  // The last name leads to something that stands in the directory before, under that name.
  ghost predicate Straight(s: Files, names: seq<string>) {
    Walk(s, s.root, names).At? && names != [] ==>
      var d := Walk(s, s.root, names).inode;
      && d != s.root && d.name == names[|names| - 1]
      && d.parent != null && Walk(s, s.root, names[..|names| - 1]) == At(d.parent)
  }

  ghost predicate Good(s: Files) { forall names: seq<string> :: PlainNames(names) ==> Straight(s, names) }

  /** Wherever plain names lead, its parents spell these names. */
  lemma {:induction false} Spelled(s: Files, names: seq<string>)
    requires Good(s) && PlainNames(names) && Walk(s, s.root, names).At?
    ensures Spells(s.root, Walk(s, s.root, names).inode, names)
  {
    if names != [] {
      assert Straight(s, names);
      Spelled(s, names[..|names| - 1]);
    }
  }

  /** The walk up the parents ends, and the path that it spells leads back. */
  ghost predicate ComesBack(s: Files, d: Inode) {
    exists names: seq<string> :: Spells(s.root, d, names) && Walk(s, s.root, Components(Joined(names))) == At(d)
  }

  /** resolve(getcwd(d)) is d for every directory that plain names lead to. */
  ghost predicate RoundTrips(s: Files) {
    forall names: seq<string> :: PlainNames(names) && Walk(s, s.root, names).At? ==>
      var d := Walk(s, s.root, names).inode;
      d.kind == Directory ==> ComesBack(s, d)
  }

  lemma GoodRoundTrips(s: Files)
    requires Good(s)
    ensures RoundTrips(s)
  {
    forall names: seq<string> | PlainNames(names) && Walk(s, s.root, names).At?
      ensures ComesBack(s, Walk(s, s.root, names).inode)
    {
      Spelled(s, names);
      ComponentsJoined(names);
    }
  }

  lemma {:induction false} SpellsOnce(root: Inode, d: Inode, names: seq<string>, other: seq<string>)
    requires Spells(root, d, names) && Spells(root, d, other)
    ensures names == other
  {
    if names != [] {
      SpellsOnce(root, d.parent, names[..|names| - 1], other[..|other| - 1]);
      assert names == names[..|names| - 1] + [d.name];
      assert other == other[..|other| - 1] + [d.name];
    }
  }

  lemma SpellsMore(root: Inode, d: Inode, names: seq<string>)
    requires d != root && d.parent != null && Spells(root, d.parent, names)
    ensures Spells(root, d, names + [d.name])
  {
    assert (names + [d.name])[..|names|] == names;
  }

  lemma {:induction false} SeenInside(s: Files, ms: seq<Mount>, x: Inode)
    requires Sound(s) && x in s.listing && forall m :: m in ms ==> m in s.mounts
    ensures Seen(ms, x) in s.listing && (Seen(ms, x) == x || exists m :: m in ms && Seen(ms, x) == m.root)
  {
    if ms != [] {
      if ms[0].host != x {
        SeenInside(s, ms[1..], x);
      } else {
        assert ms[0] in ms;
      }
    }
  }

  lemma StaysInside(s: Files, d: Inode, name: string)
    requires Sound(s) && d in s.listing
    ensures var c := Lookup(s, d, name); c != null ==> c in s.listing && Seen(s.mounts, c) in s.listing
  {
    var c := Lookup(s, d, name);
    if c != null {
      SeenInside(s, s.mounts, c);
    }
  }

  lemma {:induction false} WalkInside(s: Files, d: Inode, names: seq<string>)
    requires Sound(s) && d in s.listing
    ensures var place := Walk(s, d, names); place.At? ==> place.inode in s.listing
  {
    hide Sound, Lookup, Seen;
    if names != [] {
      var init, last := names[..|names| - 1], names[|names| - 1];
      WalkInside(s, d, init);
      var before := Walk(s, d, init);
      if before.At? {
        StaysInside(s, before.inode, last);
      }
    }
  }

  // ----- a new child -----

  // One file system with one more inode in a directory.
  ghost predicate Grown(s: Files, t: Files, child: Inode) {
    && child !in s.listing && child.parent != null && child.parent in s.listing && child.parent.kind == Directory
    && t == Files(s.root, s.listing[child.parent := s.listing[child.parent] + [child]][child := []], s.mounts)
  }

  // And its name is a plain one, and new.
  ghost predicate ChildAdded(s: Files, t: Files, child: Inode) {
    && Grown(s, t, child) && PlainName(child.name)
    && forall c :: c in s.listing[child.parent] ==> c.name != child.name
  }

  lemma AddKeepsSound(s: Files, t: Files, child: Inode)
    requires Sound(s) && ChildAdded(s, t, child)
    ensures Sound(t)
  {
    hide InodesSound, ChildrenSound, NamesDiffer, MountsSound, ChildAdded;
    AddKeepsInodes(s, t, child);
    AddKeepsChildren(s, t, child);
    AddKeepsNames(s, t, child);
    AddKeepsMounts(s, t, child);
  }

  lemma AddKeepsInodes(s: Files, t: Files, child: Inode)
    requires Sound(s) && ChildAdded(s, t, child)
    ensures InodesSound(t)
  {
    hide ChildrenSound, NamesDiffer, MountsSound, PlainName;
  }

  lemma AddKeepsMounts(s: Files, t: Files, child: Inode)
    requires Sound(s) && ChildAdded(s, t, child)
    ensures MountsSound(t)
  {
    hide InodesSound, ChildrenSound, NamesDiffer, PlainName;
  }

  lemma AddKeepsChildren(s: Files, t: Files, child: Inode)
    requires Sound(s) && ChildAdded(s, t, child)
    ensures ChildrenSound(t)
  {
    hide NamesDiffer, MountsSound, PlainName;
    forall d, c | d in t.listing && c in t.listing[d]
      ensures c in t.listing && c.parent == d && c != t.root && PlainName(c.name)
    {
      if c != child {
        assert d in s.listing && c in s.listing[d];
      }
    }
  }

  lemma AddKeepsNames(s: Files, t: Files, child: Inode)
    requires Sound(s) && ChildAdded(s, t, child)
    ensures NamesDiffer(t)
  {
    hide InodesSound, ChildrenSound, MountsSound, PlainName;
    forall d, i, j | d in t.listing && 0 <= i < j < |t.listing[d]|
      ensures t.listing[d][i].name != t.listing[d][j].name
    {
      assert t.listing[d][i] in s.listing[d];
    }
  }

  lemma {:induction false} FindAdded(children: seq<Inode>, child: Inode, name: string)
    ensures FindChild(children + [child], name) ==
      if FindChild(children, name) == null && child.name == name then child else FindChild(children, name)
  {
    if children == [] {
      assert FindChild([child][1..], name) == null;
    } else {
      assert (children + [child])[1..] == children[1..] + [child];
      FindAdded(children[1..], child, name);
    }
  }

  lemma {:induction false} SeenSelf(mounts: seq<Mount>, x: Inode)
    requires forall m :: m in mounts ==> m.host != x
    ensures Seen(mounts, x) == x
  {
    if mounts != [] {
      SeenSelf(mounts[1..], x);
    }
  }

  // Plain names lead where they led before, or to the child.
  lemma {:induction false} WalkWithChild(s: Files, t: Files, child: Inode, names: seq<string>)
    requires Sound(s) && ChildAdded(s, t, child) && PlainNames(names) && Walk(t, t.root, names).At?
    ensures var d := Walk(t, t.root, names).inode;
      if d == child then
        names != [] && names[|names| - 1] == child.name && Walk(s, s.root, names[..|names| - 1]) == At(child.parent)
      else Walk(s, s.root, names) == At(d)
  {
    hide Sound;
    if names != [] {
      var init, last := names[..|names| - 1], names[|names| - 1];
      WalkWithChild(s, t, child, init);
      WalkInside(s, s.root, init) by { RootInside(s); }
      StepWithChild(s, t, child, Walk(t, t.root, init).inode, last);
    } else {
      RootInside(s);
    }
  }

  lemma RootInside(s: Files)
    requires Sound(s)
    ensures s.root in s.listing
  {
  }

  lemma StepWithChild(s: Files, t: Files, child: Inode, d: Inode, name: string)
    requires Sound(s) && ChildAdded(s, t, child) && PlainName(name) && Step(t, d, name).At?
    requires d == child || d in s.listing
    ensures d != child
    ensures if Step(t, d, name).inode == child then d == child.parent && name == child.name
            else Step(s, d, name) == Step(t, d, name)
  {
    if d == child.parent {
      FindAdded(s.listing[d], child, name);
    }
    SeenSelf(s.mounts, child);
    StaysInside(s, d, name);
  }

  lemma StraightWithChild(s: Files, t: Files, child: Inode, names: seq<string>)
    requires Sound(s) && ChildAdded(s, t, child) && Good(s)
    requires PlainNames(names) && names != [] && Walk(t, t.root, names).At?
    ensures Straight(t, names)
  {
    hide Sound;
    RootInside(s);
    var init := names[..|names| - 1];
    WalkWithChild(s, t, child, names);
    WalkWithChild(s, t, child, init);
    assert Straight(s, names);
    WalkInside(s, s.root, init);
    StepWithChild(s, t, child, Walk(t, t.root, init).inode, names[|names| - 1]);
  }

  lemma AddKeepsGood(s: Files, t: Files, child: Inode)
    requires Sound(s) && ChildAdded(s, t, child) && Good(s)
    ensures Good(t)
  {
    hide Sound;
    RootInside(s);
    forall names: seq<string> | PlainNames(names) ensures Straight(t, names) {
      if Walk(t, t.root, names).At? && names != [] {
        StraightWithChild(s, t, child, names);
      }
    }
  }

  // ----- a new mount -----

  ghost predicate Unmounted(s: Files, x: Inode) { forall m :: m in s.mounts ==> m.host != x }

  // A file system whose root takes the host's name and the directory that the host was found in.
  ghost predicate Mounted(s: Files, t: Files, host: Inode, parent: Inode?, top: Inode) {
    && top !in s.listing && host in s.listing && (parent != null ==> parent in s.listing)
    && top.parent == parent && top.kind == Directory && top.name == host.name
    && t == Files(s.root, s.listing[top := []], s.mounts + [Mount(host, top)])
  }

  lemma MountKeepsSound(s: Files, t: Files, host: Inode, parent: Inode?, top: Inode)
    requires Sound(s) && Mounted(s, t, host, parent, top)
    ensures Sound(t)
  {
  }

  lemma {:induction false} SeenNew(mounts: seq<Mount>, host: Inode, top: Inode, x: Inode)
    ensures Seen(mounts + [Mount(host, top)], x) ==
      if x == host && (forall m :: m in mounts ==> m.host != host) then top else Seen(mounts, x)
  {
    if mounts == [] {
      assert Seen([Mount(host, top)][1..], x) == x;
    } else {
      assert (mounts + [Mount(host, top)])[1..] == mounts[1..] + [Mount(host, top)];
      SeenNew(mounts[1..], host, top, x);
    }
  }

  // One plain name further, after the mount.
  lemma StepWithMount(s: Files, t: Files, host: Inode, top: Inode, d: Inode, name: string)
    requires Sound(s) && Mounted(s, t, host, top.parent, top) && PlainName(name)
    requires d == top || d in s.listing
    ensures d == top ==> Step(t, d, name) == Missing
    ensures d != top ==>
      Step(t, d, name) ==
      if d.kind == Directory && Lookup(s, d, name) == host && Unmounted(s, host) then At(top) else Step(s, d, name)
    ensures d != top && Step(s, d, name).At? ==> Step(s, d, name).inode in s.listing
    ensures d != top && Lookup(s, d, name) == host ==>
      d == host.parent && name == host.name && IsListed(s, host)
  {
    if d != top {
      StaysInside(s, d, name);
      var c := Lookup(s, d, name);
      if c != null {
        SeenNew(s.mounts, host, top, c);
      }
    }
  }

  /** The host is in the listing of a directory that plain names lead to, and nothing was mounted on it. */
  ghost predicate Exposed(s: Files, host: Inode) {
    && Unmounted(s, host) && IsListed(s, host)
    && exists names: seq<string> :: PlainNames(names) && Walk(s, s.root, names) == At(host.parent)
  }

  // Plain names lead where they led before, or to the new root.
  lemma {:induction false} WalkWithMount(s: Files, t: Files, host: Inode, top: Inode, names: seq<string>)
    requires Sound(s) && Mounted(s, t, host, top.parent, top) && PlainNames(names) && Walk(t, t.root, names).At?
    ensures var d := Walk(t, t.root, names).inode;
      if d == top then
        && Exposed(s, host) && names != [] && names[|names| - 1] == host.name
        && Walk(s, s.root, names[..|names| - 1]) == At(host.parent)
      else d in s.listing && Walk(s, s.root, names) == At(d)
  {
    hide Sound, Step, Lookup;
    RootInside(s);
    if names != [] {
      var init, last := names[..|names| - 1], names[|names| - 1];
      WalkWithMount(s, t, host, top, init);
      StepWithMount(s, t, host, top, Walk(t, t.root, init).inode, last);
    }
  }

  // If plain names do not come past the host, they lead where they led before.
  lemma {:induction false} WalkPastMount(s: Files, t: Files, host: Inode, top: Inode, names: seq<string>)
    requires Sound(s) && Mounted(s, t, host, top.parent, top) && PlainNames(names) && Walk(s, s.root, names).At?
    requires forall k :: 0 < k <= |names| ==> Walk(s, s.root, names[..k]) != At(host)
    ensures Walk(t, t.root, names) == Walk(s, s.root, names) && Walk(s, s.root, names).inode in s.listing
  {
    hide Sound, Step, Lookup;
    RootInside(s);
    if names != [] {
      var n := |names| - 1;
      assert forall k :: 0 < k <= n ==> names[..n][..k] == names[..k];
      WalkPastMount(s, t, host, top, names[..n]);
      var d := Walk(s, s.root, names[..n]).inode;
      StepWithMount(s, t, host, top, d, names[n]);
      assert names[..n + 1] == names;
      if Lookup(s, d, names[n]) == host && Unmounted(s, host) {
        LookedUp(s, d, names[n], host);
        assert false;
      }
    }
  }

  lemma LookedUp(s: Files, d: Inode, name: string, c: Inode)
    requires Lookup(s, d, name) == c && Unmounted(s, c) && Step(s, d, name).At?
    ensures Step(s, d, name) == At(c)
  {
    SeenSelf(s.mounts, c);
  }

  // Plain names that lead to one inode are the same.
  lemma SameNames(s: Files, names: seq<string>, other: seq<string>)
    requires Good(s) && PlainNames(names) && PlainNames(other)
    requires Walk(s, s.root, names).At? && Walk(s, s.root, names) == Walk(s, s.root, other)
    ensures names == other
  {
    Spelled(s, names);
    Spelled(s, other);
    SpellsOnce(s.root, Walk(s, s.root, names).inode, names, other);
  }

  /** After a mount on a path of plain names, this path leads to the new root exactly when nothing had
      been mounted on the inode that its last name stands for. */
  lemma PlainPathLeadsToMount(s: Files, t: Files, host: Inode, top: Inode, names: seq<string>, name: string)
    requires Sound(s) && Good(s) && Mounted(s, t, host, top.parent, top) && PlainNames(names + [name])
    requires top.parent != null && Walk(s, s.root, names) == At(top.parent) && Step(s, top.parent, name) == At(host)
    ensures var found := Lookup(s, top.parent, name);
      found != null && (Walk(t, t.root, names + [name]) == At(top) <==> Unmounted(s, found))
  {
    hide Sound, Lookup, Good;
    var p, all := top.parent, names + [name];
    WalkOne(s, s.root, names, name);
    WalkOne(t, t.root, names, name);
    assert PlainName(all[|names|]);
    assert forall i :: 0 <= i < |names| ==> all[i] == names[i];
    forall k | 0 < k <= |names| ensures Walk(s, s.root, names[..k]) != At(host) {
      if Walk(s, s.root, names[..k]) == At(host) {
        SameNames(s, names[..k], all);
        assert false;
      }
    }
    WalkPastMount(s, t, host, top, names);
    StepWithMount(s, t, host, top, p, name);
    var found := Lookup(s, p, name);
    if Unmounted(s, found) {
      SeenSelf(s.mounts, found);
    }
    StaysInside(s, p, name);
  }

  lemma StraightWithMount(s: Files, t: Files, host: Inode, top: Inode, names: seq<string>)
    requires Sound(s) && Good(s) && Mounted(s, t, host, top.parent, top)
    requires Exposed(s, host) ==> host.parent == top.parent
    requires PlainNames(names) && names != [] && Walk(t, t.root, names).At?
    ensures Straight(t, names)
  {
    hide Sound, Exposed, Step, Lookup;
    RootInside(s);
    var init := names[..|names| - 1];
    WalkWithMount(s, t, host, top, names);
    WalkWithMount(s, t, host, top, init);
    assert Straight(s, names);
    StepWithMount(s, t, host, top, Walk(t, t.root, init).inode, names[|names| - 1]);
  }

  lemma MountKeepsGood(s: Files, t: Files, host: Inode, top: Inode)
    requires Sound(s) && Good(s) && Mounted(s, t, host, top.parent, top)
    requires Exposed(s, host) ==> host.parent == top.parent
    ensures Good(t)
  {
    hide Sound, Exposed;
    RootInside(s);
    forall names: seq<string> | PlainNames(names) ensures Straight(t, names) {
      if Walk(t, t.root, names).At? && names != [] {
        StraightWithMount(s, t, host, top, names);
      }
    }
  }

  // The names that are left when the spelled path is read again.
  ghost function Kept(names: seq<string>): seq<string> {
    if names == [] then []
    else Kept(names[..|names| - 1]) + if names[|names| - 1] == "/" then [] else [names[|names| - 1]]
  }

  lemma KeptOne(names: seq<string>, name: string)
    ensures Kept(names + [name]) == Kept(names) + if name == "/" then [] else [name]
  {
    assert (names + [name])[..|names|] == names;
  }

  lemma {:induction false} KeptPlain(names: seq<string>)
    requires PlainNames(names)
    ensures Kept(names) == names
  {
    if names != [] {
      KeptPlain(names[..|names| - 1]);
      assert PlainName(names[|names| - 1]);
      assert names == names[..|names| - 1] + [names[|names| - 1]];
    }
  }

  ghost predicate InodeNames(names: seq<string>) {
    forall i :: 0 <= i < |names| ==> PlainName(names[i]) || names[i] == "/"
  }

  lemma {:induction false} KeptFirst(name: string, names: seq<string>)
    ensures Kept([name] + names) == (if name == "/" then [] else [name]) + Kept(names)
  {
    if names == [] {
      KeptOne([], name);
      assert [] + [name] == [name] + names;
    } else {
      var n := |names| - 1;
      KeptFirst(name, names[..n]);
      KeptOne([name] + names[..n], names[n]);
      assert [name] + names == [name] + names[..n] + [names[n]];
    }
  }

  lemma {:induction false} ComponentsKept(names: seq<string>)
    requires InodeNames(names)
    ensures Components(Slashed(names)) == Kept(names)
  {
    hide Components, Kept;
    if names == [] {
      NoComponents();
      KeptPlain([]);
    } else {
      var rest := Slashed(names[1..]);
      assert names == [names[0]] + names[1..];
      ComponentsKept(names[1..]);
      KeptFirst(names[0], names[1..]);
      assert Slashed(names) == "/" + (names[0] + rest);
      SlashSkipped(names[0] + rest);
      if names[0] == "/" {
        SlashSkipped(rest);
      } else {
        NameThenRest(names[0], rest);
      }
    }
  }

  lemma ReadAgain(names: seq<string>)
    requires InodeNames(names)
    ensures Components(Joined(names)) == Kept(names)
  {
    ComponentsKept(names);
    assert Components("/") == Components("/"[1..]);
  }

  lemma {:induction false} SpelledNames(s: Files, d: Inode, names: seq<string>)
    requires Sound(s) && d in s.listing && Spells(s.root, d, names)
    ensures InodeNames(names)
  {
    if names != [] {
      SpelledNames(s, d.parent, names[..|names| - 1]);
    }
  }

  // A host that is somebody's child, seen from the directory that it was found in.
  lemma HowFound(s: Files, host: Inode, parent: Inode, name: string)
    requires Sound(s) && parent in s.listing && Step(s, parent, name) == At(host)
    requires IsListed(s, host)
    ensures Lookup(s, parent, name) == host && host != s.root
    ensures name != "." && name != ".." ==> host.parent == parent
  {
    StaysInside(s, parent, name);
    SeenInside(s, s.mounts, Lookup(s, parent, name));
  }

  /** The parents of the new root would have to spell a longer path than the one that leads to it. */
  lemma LongerThanPath(s: Files, host: Inode, top: Inode, name: string, names: seq<string>, spelled: seq<string>)
    requires Sound(s) && top.parent in s.listing && Step(s, top.parent, name) == At(host)
    requires IsListed(s, host) && host.parent != top.parent
    requires Spells(s.root, host.parent, names) && PlainNames(names) && PlainName(host.name)
    requires Spells(s.root, top.parent, spelled)
    ensures Kept(spelled) != names
  {
    hide Sound, Step, Kept;
    var parent := top.parent;
    HowFound(s, host, parent, name);
    SpellsMore(s.root, host, names);
    var toHost := names + [host.name];
    KeptPlain(toHost);
    if name == "." {
      SpellsOnce(s.root, host, toHost, spelled);
    } else {
      assert name == ".." && host == parent.parent;
      if spelled == [] {
        RootsParent(s);
        assert false;
      }
      var n := |spelled| - 1;
      SpellsOnce(s.root, host, toHost, spelled[..n]);
      KeptOne(spelled[..n], spelled[n]);
      assert spelled == spelled[..n] + [spelled[n]];
    }
  }

  lemma RootsParent(s: Files)
    requires Sound(s)
    ensures s.root.parent == s.root
  {
  }

  /** A mount whose root stands elsewhere than its host, where plain names lead to it. */
  lemma MisplacedMountBreaks(s: Files, t: Files, host: Inode, top: Inode, name: string)
    requires Sound(s) && Good(s) && Mounted(s, t, host, top.parent, top)
    requires top.parent != null && Step(s, top.parent, name) == At(host)
    requires Exposed(s, host) && host.parent != top.parent
    ensures !RoundTrips(t)
  {
    hide Sound, Step, Lookup, Kept, Components, Joined, Spells;
    RootInside(s);
    assert PlainName(host.name) by { ChildName(s, host); }
    var names: seq<string> :| PlainNames(names) && Walk(s, s.root, names) == At(host.parent);
    Spelled(s, names);
    NamesToTop(s, t, host, top, names);
    if ComesBack(t, top) {
      var spelled: seq<string> :|
        Spells(t.root, top, spelled) && Walk(t, t.root, Components(Joined(spelled))) == At(top);
      SpelledToTop(s, t, host, top, names, spelled);
      LongerThanPath(s, host, top, name, names, spelled[..|spelled| - 1]);
      assert false;
    }
  }

  lemma ChildName(s: Files, c: Inode)
    requires Sound(s) && IsListed(s, c)
    ensures PlainName(c.name) && c.parent.kind == Directory && Lookup(s, c.parent, c.name) == c
  {
    var found := FindChild(s.listing[c.parent], c.name);
    assert found != null && found.name == c.name;
  }

  // The path of the host leads to the new root.
  lemma NamesToTop(s: Files, t: Files, host: Inode, top: Inode, names: seq<string>)
    requires Sound(s) && Good(s) && Mounted(s, t, host, top.parent, top) && Exposed(s, host)
    requires PlainNames(names) && Walk(s, s.root, names) == At(host.parent)
    ensures PlainNames(names + [host.name]) && Walk(t, t.root, names + [host.name]) == At(top)
  {
    hide Sound, Step, Lookup, Spells;
    ChildName(s, host);
    forall k | 0 < k <= |names| ensures Walk(s, s.root, names[..k]) != At(host) {
      if Walk(s, s.root, names[..k]) == At(host) {
        HostTwice(s, host, names, k);
        assert false;
      }
    }
    WalkPastMount(s, t, host, top, names);
    WalkOne(t, t.root, names, host.name);
    assert host.parent != top;
    StepWithMount(s, t, host, top, host.parent, host.name);
  }

  lemma HostTwice(s: Files, host: Inode, names: seq<string>, k: nat)
    requires Good(s) && PlainNames(names) && 0 < k <= |names|
    requires host.parent != null && Walk(s, s.root, names) == At(host.parent)
    ensures Walk(s, s.root, names[..k]) != At(host)
  {
    if Walk(s, s.root, names[..k]) == At(host) {
      assert Straight(s, names[..k]);
      SameNames(s, names[..k][..k - 1], names);
    }
  }

  // If what the parents of the new root spell leads back, it is the host's path.
  lemma SpelledToTop(s: Files, t: Files, host: Inode, top: Inode, names: seq<string>, spelled: seq<string>)
    requires Sound(s) && Good(s) && Mounted(s, t, host, top.parent, top) && PlainName(host.name)
    requires host.parent != null && Spells(s.root, host.parent, names)
    requires Spells(t.root, top, spelled) && Walk(t, t.root, Components(Joined(spelled))) == At(top)
    ensures spelled != [] && top.parent != null && Spells(s.root, top.parent, spelled[..|spelled| - 1])
    ensures Kept(spelled[..|spelled| - 1]) == names
  {
    hide Sound, Components, Joined, Kept, Exposed, Walk, InodeNames, Good, PlainNames, Spells;
    TopSpelling(s, t, host, top, spelled);
    var up := spelled[..|spelled| - 1];
    SpelledNames(s, top.parent, up);
    ReadTop(up, host.name);
    WalkWithMount(s, t, host, top, Kept(up) + [host.name]);
    assert (Kept(up) + [host.name])[..|Kept(up)|] == Kept(up);
    SpelledIs(s, host.parent, Kept(up), names);
  }

  lemma TopSpelling(s: Files, t: Files, host: Inode, top: Inode, spelled: seq<string>)
    requires Sound(s) && Mounted(s, t, host, top.parent, top) && Spells(t.root, top, spelled)
    ensures spelled != [] && top.parent != null && Spells(s.root, top.parent, spelled[..|spelled| - 1])
    ensures spelled == spelled[..|spelled| - 1] + [host.name]
  {
    RootInside(s);
  }

  // Names of inodes with a plain one after them, read again.
  lemma ReadTop(names: seq<string>, name: string)
    requires InodeNames(names) && PlainName(name)
    ensures Components(Joined(names + [name])) == Kept(names) + [name] && PlainNames(Kept(names))
    ensures PlainNames(Kept(names) + [name])
  {
    hide Components, Joined, Kept;
    MoreNames(names, name);
    ReadAgain(names + [name]);
    KeptOne(names, name);
    KeptIsPlain(names);
  }

  lemma SpelledIs(s: Files, d: Inode, path: seq<string>, names: seq<string>)
    requires Good(s) && PlainNames(path) && Walk(s, s.root, path) == At(d) && Spells(s.root, d, names)
    ensures path == names
  {
    Spelled(s, path);
    SpellsOnce(s.root, d, path, names);
  }

  lemma MoreNames(names: seq<string>, name: string)
    requires InodeNames(names) && PlainName(name)
    ensures InodeNames(names + [name]) && name != "/"
  {
  }

  lemma {:induction false} KeptIsPlain(names: seq<string>)
    requires InodeNames(names)
    ensures PlainNames(Kept(names))
  {
    if names != [] {
      KeptIsPlain(names[..|names| - 1]);
    }
  }

  /** How a path leads to a host: to the root by no names at all, and then there is no directory that it was
      found in. */
  ghost predicate FoundBy(s: Files, names: seq<string>, host: Inode, parent: Inode?) {
    if names == [] then host == s.root && parent == null
    else
      && parent != null && Walk(s, s.root, names[..|names| - 1]) == At(parent)
      && Step(s, parent, names[|names| - 1]) == At(host)
  }

  /** A mount keeps every round trip exactly when its host is not exposed, or was found in the directory
      that lists it. */
  lemma MountKeepsRoundTripsIff(s: Files, t: Files, host: Inode, top: Inode, names: seq<string>)
    requires Sound(s) && Good(s) && Mounted(s, t, host, top.parent, top) && FoundBy(s, names, host, top.parent)
    ensures RoundTrips(t) <==> (Exposed(s, host) ==> host.parent == top.parent)
    ensures Good(t) <==> RoundTrips(t)
  {
    RootUnlisted(s);
    hide Sound, Good, RoundTrips, Mounted;
    if Exposed(s, host) && host.parent != top.parent {
      MisplacedMountBreaks(s, t, host, top, names[|names| - 1]);
      if Good(t) {
        GoodRoundTrips(t);
      }
    } else {
      MountKeepsGood(s, t, host, top);
      GoodRoundTrips(t);
    }
  }

  lemma RootUnlisted(s: Files)
    requires Sound(s)
    ensures !IsListed(s, s.root)
  {
  }

  // ----- paths with dots -----

  ghost predicate HostsListed(s: Files) { forall m :: m in s.mounts ==> IsListed(s, m.host) }

  /** resolve(getcwd(d)) is d for every directory that any path leads to. */
  ghost predicate AllRoundTrips(s: Files) {
    forall names: seq<string> :: Walk(s, s.root, names).At? ==>
      var d := Walk(s, s.root, names).inode;
      d.kind == Directory ==> ComesBack(s, d)
  }

  // Where plain names lead nothing is mounted: what is mounted has been stepped to already.
  lemma NothingOnTop(s: Files, names: seq<string>)
    requires Sound(s) && Good(s) && HostsListed(s) && PlainNames(names) && Walk(s, s.root, names).At?
    ensures var d := Walk(s, s.root, names).inode; d in s.listing && Seen(s.mounts, d) == d
  {
    var d := Walk(s, s.root, names).inode;
    WalkInside(s, s.root, names);
    if !Unmounted(s, d) {
      assert IsListed(s, d);
      var init := names[..|names| - 1];
      WalkInside(s, s.root, init);
      HowFound(s, d, Walk(s, s.root, init).inode, names[|names| - 1]);
      SeenOther(s.mounts, d);
    } else {
      SeenSelf(s.mounts, d);
    }
  }

  lemma {:induction false} SeenOther(mounts: seq<Mount>, x: Inode)
    requires exists m :: m in mounts && m.host == x
    ensures exists m :: m in mounts && Seen(mounts, x) == m.root
  {
    if mounts[0].host != x {
      SeenOther(mounts[1..], x);
    } else {
      assert mounts[0] in mounts;
    }
  }

  /** Wherever a path leads, plain names lead too. */
  lemma {:induction false} EveryPathPlain(s: Files, names: seq<string>) returns (plain: seq<string>)
    requires Sound(s) && Good(s) && HostsListed(s) && Walk(s, s.root, names).At?
    ensures PlainNames(plain) && Walk(s, s.root, plain) == Walk(s, s.root, names)
  {
    hide Sound, HostsListed, Good;
    plain := [];
    if names != [] {
      var last := names[|names| - 1];
      var before := EveryPathPlain(s, names[..|names| - 1]);
      plain := PlainInstead(s, before, last);
    }
  }

  lemma PlainInstead(s: Files, before: seq<string>, last: string) returns (plain: seq<string>)
    requires Sound(s) && Good(s) && HostsListed(s) && PlainNames(before) && Walk(s, s.root, before).At?
    requires Step(s, Walk(s, s.root, before).inode, last).At?
    ensures PlainNames(plain) && Walk(s, s.root, plain) == Step(s, Walk(s, s.root, before).inode, last)
  {
    NothingOnTop(s, before);
    if last == "." {
      plain := before;
    } else if last == ".." {
      plain := if before == [] then [] else before[..|before| - 1];
      assert Straight(s, before);
      assert Walk(s, s.root, plain) == At(Walk(s, s.root, before).inode.parent);
      NothingOnTop(s, plain);
    } else {
      plain := before + [last];
      WalkOne(s, s.root, before, last);
    }
  }

  /** With every host in a listing, the round trip holds for all paths. */
  lemma GoodAllRoundTrips(s: Files)
    requires Sound(s) && Good(s) && HostsListed(s)
    ensures AllRoundTrips(s)
  {
    hide Sound, HostsListed, ComesBack, Good;
    GoodRoundTrips(s);
    forall names: seq<string> | Walk(s, s.root, names).At? && Walk(s, s.root, names).inode.kind == Directory
      ensures ComesBack(s, Walk(s, s.root, names).inode)
    {
      var plain := EveryPathPlain(s, names);
      assert Walk(s, s.root, plain).At?;
    }
  }

  // Where the host of a mount stands, before it.
  lemma ListedIsExposed(s: Files, host: Inode, parent: Inode, names: seq<string>, name: string)
    requires Sound(s) && Good(s) && HostsListed(s) && IsListed(s, host)
    requires Walk(s, s.root, names) == At(parent) && Step(s, parent, name) == At(host)
    ensures Exposed(s, host)
  {
    var plain := EveryPathPlain(s, names);
    plain := PlainInstead(s, plain, name);
    WalkInside(s, s.root, plain);
    assert Straight(s, plain);
    NothingOnTop(s, plain);
    if !Unmounted(s, host) {
      SeenOther(s.mounts, host);
    }
    var init := if plain == [] then [] else plain[..|plain| - 1];
    assert PlainNames(init) && Walk(s, s.root, init) == At(host.parent);
  }

  // A host that is nobody's child: a path that ends with a dot leads to what is mounted there.
  lemma {:induction false} WalkBesideMount(s: Files, t: Files, host: Inode, top: Inode, names: seq<string>)
    requires Sound(s) && Mounted(s, t, host, top.parent, top) && !IsListed(s, host)
    requires PlainNames(names) && Walk(s, s.root, names).At?
    ensures Walk(t, t.root, names) == Walk(s, s.root, names) && Walk(s, s.root, names).inode in s.listing
  {
    hide Sound, Step, Lookup;
    RootInside(s);
    if names != [] {
      var n := |names| - 1;
      WalkBesideMount(s, t, host, top, names[..n]);
      StepWithMount(s, t, host, top, Walk(s, s.root, names[..n]).inode, names[n]);
    }
  }

  // Besides children there are only the roots.
  lemma UnlistedIsDirectory(s: Files, host: Inode, plain: seq<string>)
    requires Sound(s) && !IsListed(s, host) && PlainNames(plain) && Walk(s, s.root, plain) == At(host)
    ensures host.kind == Directory
  {
    if plain != [] {
      var init := plain[..|plain| - 1];
      WalkInside(s, s.root, init);
      var c := Lookup(s, Walk(s, s.root, init).inode, plain[|plain| - 1]);
      SeenInside(s, s.mounts, c);
    }
  }

  lemma UnlistedMountBreaks(s: Files, t: Files, host: Inode, top: Inode, plain: seq<string>)
    requires Sound(s) && Good(s) && HostsListed(s) && Mounted(s, t, host, top.parent, top) && !IsListed(s, host)
    requires PlainNames(plain) && Walk(s, s.root, plain) == At(host)
    ensures !AllRoundTrips(t)
  {
    hide Sound, Step, Components, Joined;
    UnlistedIsDirectory(s, host, plain);
    WalkBesideMount(s, t, host, top, plain);
    WalkOne(t, t.root, plain, ".");
    SeenNew(s.mounts, host, top, host);
    assert Walk(t, t.root, plain + ["."]) == At(top) by { StepDot(t, host); }
    if ComesBack(t, top) {
      var spelled: seq<string> :|
        Spells(t.root, top, spelled) && Walk(t, t.root, Components(Joined(spelled))) == At(top);
      NeverPlain(s, t, host, top, spelled);
    }
  }

  lemma StepDot(t: Files, d: Inode)
    requires d.kind == Directory
    ensures Step(t, d, ".") == At(Seen(t.mounts, d))
  {
  }

  lemma NeverPlain(s: Files, t: Files, host: Inode, top: Inode, spelled: seq<string>)
    requires Sound(s) && Mounted(s, t, host, top.parent, top) && !IsListed(s, host)
    requires Spells(t.root, top, spelled)
    ensures Walk(t, t.root, Components(Joined(spelled))) != At(top)
  {
    hide Components, Joined, Kept;
    MountKeepsSound(s, t, host, top.parent, top);
    SpelledNames(t, top, spelled);
    ReadAgain(spelled);
    KeptIsPlain(spelled);
    if Walk(t, t.root, Kept(spelled)) == At(top) {
      WalkWithMount(s, t, host, top, Kept(spelled));
    }
  }

  /** For paths of all kinds: a mount keeps every round trip exactly when its host was found in the
      directory that lists it. */
  lemma MountKeepsAllRoundTripsIff(s: Files, t: Files, host: Inode, top: Inode, names: seq<string>)
    requires Sound(s) && Good(s) && HostsListed(s) && Mounted(s, t, host, top.parent, top)
    requires FoundBy(s, names, host, top.parent)
    ensures AllRoundTrips(t) <==> IsListed(s, host) && host.parent == top.parent
    ensures AllRoundTrips(t) ==> Good(t) && HostsListed(t)
  {
    RootUnlisted(s);
    hide Sound, Good, RoundTrips, AllRoundTrips, Exposed, Step, Walk, IsListed, HostsListed;
    if IsListed(s, host) {
      ListedIsExposed(s, host, top.parent, names[..|names| - 1], names[|names| - 1]);
      MountKeepsRoundTripsIff(s, t, host, top, names);
      if host.parent == top.parent {
        MountKeepsSound(s, t, host, top.parent, top);
        HostsStayListed(s, t, host, top);
        GoodAllRoundTrips(t);
      } else if AllRoundTrips(t) {
        AllIncludesPlain(t);
      }
    } else {
      var plain := HostPlain(s, names, host, top.parent);
      UnlistedMountBreaks(s, t, host, top, plain);
    }
  }

  lemma HostsStayListed(s: Files, t: Files, host: Inode, top: Inode)
    requires HostsListed(s) && Mounted(s, t, host, top.parent, top) && IsListed(s, host)
    ensures HostsListed(t)
  {
  }

  lemma HostPlain(s: Files, names: seq<string>, host: Inode, parent: Inode?) returns (plain: seq<string>)
    requires Sound(s) && Good(s) && HostsListed(s) && FoundBy(s, names, host, parent)
    ensures PlainNames(plain) && Walk(s, s.root, plain) == At(host)
  {
    hide Sound, Good, Step, HostsListed;
    plain := [];
    if names != [] {
      plain := EveryPathPlain(s, names[..|names| - 1]);
      plain := PlainInstead(s, plain, names[|names| - 1]);
    }
  }

  lemma AllIncludesPlain(s: Files)
    requires AllRoundTrips(s)
    ensures RoundTrips(s)
  {
  }

  // ----- the operations -----

  /** What resolve_path gives besides the place: the directory and the name of the last part; no
      directory when an earlier part is missing. */
  ghost predicate Resolved(s: Files, start: Inode?, names: seq<string>, place: Place, parent: Inode?, name: string) {
    && place == WalkFrom(s, start, names)
    && (names != [] && !place.Stopped? ==>
          var before := WalkFrom(s, start, names[..|names| - 1]);
          parent == (if before.At? then before.inode else null) && (before.At? ==> name == names[|names| - 1]))
    && (names == [] ==> parent == null)
  }

  datatype Outcome = Created(inode: Inode) | AlreadyExists | NonExistent | Invalid | Halted

  class FileSystems {
    var root: Inode
    var mounts: seq<Mount>
    ghost var inodes: set<Inode>

    ghost function State(): Files
      reads this, inodes
    {
      Files(root, map d | d in inodes :: d.children, mounts)
    }

    ghost predicate Valid()
      reads this, inodes
    {
      Sound(State()) && Good(State())
    }

    // Vfs::initialise and mount_root.
    constructor ()
      ensures Valid() && HostsListed(State()) && fresh(inodes)
      ensures mounts == [] && root.children == [] && inodes == {root}
    {
      root := new Inode.Root();
      mounts := [];
      inodes := {root};
      new;
      EmptyGood(State());
    }

    // find_mount, and the step to the root of what it finds.
    method FindMount(host: Inode) returns (r: Inode)
      ensures r == Seen(State().mounts, host)
    {
      for i := 0 to |mounts|
        invariant Seen(mounts, host) == Seen(mounts[i..], host)
      {
        if mounts[i].host == host {
          return mounts[i].root;
        }
      }
      return host;
    }

    method LookupIn(d: Inode, name: string) returns (r: Inode?)
      requires d in State().listing
      ensures r == Lookup(State(), d, name)
    {
      if name == "." {
        return d;
      }
      if name == ".." {
        return d.parent;
      }
      for i := 0 to |d.children|
        invariant FindChild(d.children, name) == FindChild(d.children[i..], name)
      {
        if d.children[i].name == name {
          return d.children[i];
        }
      }
      return null;
    }

    // One part of a path: the lookup and the mount on what it finds.
    method Follow(d: Inode, name: string, ghost s: Files) returns (next: Inode?)
      requires s == State() && Sound(s) && d in s.listing && d.kind == Directory
      ensures Step(s, d, name) == (if next == null then Missing else At(next)) && (next != null ==> next in s.listing)
    {
      StaysInside(s, d, name);
      next := LookupIn(d, name);
      if next != null {
        next := FindMount(next);
      }
    }

    /** resolve_path. */
    method ResolvePath(path: string, base: Inode?) returns (place: Place, parent: Inode?, name: string)
      requires Sound(State()) && (base != null ==> base in inodes)
      ensures Resolved(State(), Start(State(), path, base), Components(path), place, parent, name)
    {
      var start := if path != "" && path[0] == '/' then root else base;
      place, parent, name := FollowParts(path, start, State());
    }

    // The walk along the names in the path. After a missing part the rest of the path can only start with
    // a slash, so the test for anything else never succeeds.
    method FollowParts(path: string, start: Inode?, ghost s: Files)
      returns (place: Place, parent: Inode?, name: string)
      requires s == State() && Sound(s) && (start != null ==> start in s.listing)
      ensures Resolved(s, start, Components(path), place, parent, name)
    {
      hide State, Components, NamesLeft, PartOf, Walk, WalkFrom, Step, Resolved, Sound;
      var current := start;
      ghost var done := [];
      parent, name := null, "";
      ResolvedNone(s, start, name);
      var part, position := ConsumePart(path, 0);
      ghost var rest := path[position..];
      PartNames(path[0..], part, rest);
      assert path[0..] == path;
      while part != ""
        invariant position <= |path| && rest == path[position..]
        invariant part != "" && part[0] != '/' ==> rest == "" || rest[0] == '/'
        invariant Components(path) == done + NamesLeft(part, rest)
        invariant WalkFrom(s, start, done) == if current == null then Missing else At(current)
        invariant Resolved(s, start, done, if current == null then Missing else At(current), parent, name)
        invariant current != null ==> current in s.listing
        decreases |path| - position, part != ""
      {
        LeftCases(part, rest);
        if part[0] != '/' {
          parent := current;
          if current == null {
            FailedStays(s, start, done, [part] + Components(rest), name);
            return Missing, null, name;
          }
          if current.kind != Directory {
            StoppedStays(s, start, done, current, part, Components(rest), parent, name);
            return Stopped, parent, name;
          }
          StepOn(s, start, done, current, part);
          Regroup(done, part, Components(rest));
          current := Follow(current, part, s);
          name := part;
          done := done + [part];
          if current == null {
            var remaining, next := ConsumePart(path, position);
            PartNames(rest, remaining, path[next..]);
            if remaining != "" && remaining[0] != '/' {
              assert false;
            }
            LeftCases(remaining, path[next..]);
            position, rest := next, path[next..];
          }
        }
        part, position := ConsumePart(path, position);
        PartNames(rest, part, path[position..]);
        rest := path[position..];
      }
      LeftCases(part, rest);
      assert done + [] == done;
      place := if current == null then Missing else At(current);
    }

    /** create. A new inode stands in the directory that the path leads to without its last name. The name is
        plain and new there, unless it is ".." in a directory without a parent, which create takes for a
        missing name; then and only then is the tree no longer sound. */
    method Create(path: string, base: Inode?, kind: Kind) returns (r: Outcome)
      requires Sound(State()) && (base != null ==> base in inodes)
      modifies this`inodes, inodes`children
      ensures Sound(State()) <==> !(r.Created? && r.inode.name == "..")
      ensures Sound(State()) && old(Valid()) ==> Valid()
      ensures old(HostsListed(State())) ==> HostsListed(State())
      ensures var names, start, s := Components(path), old(Start(State(), path, base)), old(State());
        && r != Invalid
        && (r == AlreadyExists <==> WalkFrom(s, start, names).At?)
        && (r == Halted <==> WalkFrom(s, start, names) == Stopped)
        && (r == NonExistent ==> names == [] || !WalkFrom(s, start, names[..|names| - 1]).At?)
        && (r.Created? ==>
              && fresh(r.inode) && r.inode.kind == kind && names != [] && r.inode.name == names[|names| - 1]
              && Grown(s, State(), r.inode) && WalkFrom(s, start, names[..|names| - 1]) == At(r.inode.parent)
              && (if r.inode.name == ".." then r.inode.parent.parent == null else ChildAdded(s, State(), r.inode)))
        && (!r.Created? ==> State() == s)
    {
      ghost var s := State();
      hide Walk, Components, Sound, Good, HostsListed;
      var place, parent, name := ResolvePath(path, base);
      if place.At? {
        return AlreadyExists;
      }
      if place.Stopped? {
        return Halted;
      }
      if parent == null {
        return NonExistent;
      }
      RootInside(s);
      MissingName(s, Start(s, path, base), path, parent, name);
      if name == "" {
        assert false;
      }
      var child := AddChild(parent, kind, name);
      AddKeepsHosts(s, State(), child);
      if name == ".." {
        DotDotUnsound(s, State(), child);
      } else {
        AddKeepsSound(s, State(), child);
        if Good(s) {
          AddKeepsGood(s, State(), child);
        }
      }
      return Created(child);
    }

    method AddChild(parent: Inode, kind: Kind, name: string) returns (child: Inode)
      requires parent in inodes && parent.kind == Directory
      modifies this`inodes, parent`children
      ensures fresh(child) && child.parent == parent && child.kind == kind && child.name == name
      ensures Grown(old(State()), State(), child)
    {
      child := new Inode(parent, kind, name);
      parent.children := parent.children + [child];
      inodes := inodes + {child};
    }

    /** mount, on any path. On "/" the new root has no parent, and this path goes on leading to the old one. */
    method MountAt(path: string) returns (r: Option<Inode>, halted: bool)
      requires Sound(State())
      modifies this`mounts, this`inodes
      ensures Sound(State())
      ensures var names, start, s, t := Components(path), Start(old(State()), path, null), old(State()), State();
        var place := WalkFrom(s, start, names);
        && (halted <==> place.Stopped?) && (r.Some? <==> place.At?) && (r.None? ==> t == s)
        && (r.Some? ==>
              var host, top := place.inode, r.value;
              && fresh(top) && start == s.root
              && Mounted(s, t, host, top.parent, top) && FoundBy(s, names, host, top.parent)
              && (names == [] ==> top.parent == null && WalkFrom(t, start, names) == At(s.root))
              && (Good(s) ==>
                    && (RoundTrips(t) <==> (Exposed(s, host) ==> host.parent == top.parent))
                    && (Good(t) <==> RoundTrips(t))
                    && (PlainNames(names) && names != [] ==>
                          var found := Lookup(s, top.parent, names[|names| - 1]);
                          found != null && (WalkFrom(t, start, names) == At(top) <==> Unmounted(s, found))))
              && (Good(s) && HostsListed(s) ==>
                    && (AllRoundTrips(t) <==> IsListed(s, host) && host.parent == top.parent)
                    && (AllRoundTrips(t) ==> HostsListed(t))))
    {
      ghost var s := State();
      hide Walk, Components, Sound, Good, RoundTrips, AllRoundTrips, HostsListed, Exposed, IsListed, FoundBy;
      var place, parent, _ := ResolvePath(path, null);
      halted := place.Stopped?;
      if !place.At? {
        return None, halted;
      }
      HostFound(s, path, place.inode, parent);
      var top := AddMount(place.inode, parent);
      MountEffects(s, State(), place.inode, top, Components(path));
      r := Some(top);
    }

    // The file system's root takes the host's name and the directory that the host was found in.
    method AddMount(host: Inode, parent: Inode?) returns (top: Inode)
      requires host in inodes && (parent != null ==> parent in inodes)
      modifies this`mounts, this`inodes
      ensures fresh(top) && top.parent == parent && Mounted(old(State()), State(), host, parent, top)
    {
      top := new Inode(parent, Directory, host.name);
      mounts := mounts + [Mount(host, top)];
      inodes := inodes + {top};
    }

    /** getcwd, for an inode whose parents lead to the root: it gives back the names that they spell. */
    method GetCwd(cwd: Inode, ghost names: seq<string>) returns (path: string)
      requires Spells(root, cwd, names)
      ensures path == Joined(names)
    {
      var inodes: seq<Inode> := [];
      var inode: Inode := cwd;
      ghost var k := |names|;
      assert names[..k] == names;
      while inode != root
        invariant 0 <= k <= |names| && Spells(root, inode, names[..k]) && |inodes| == |names| - k
        invariant forall i :: 0 <= i < |inodes| ==> inodes[i].name == names[|names| - 1 - i]
        decreases k
      {
        assert names[..k][..k - 1] == names[..k - 1];
        inodes := inodes + [inode];
        inode := inode.parent;
        k := k - 1;
      }
      path := "";
      var i := |inodes|;
      while i != 0
        invariant 0 <= i <= |inodes| == |names|
        invariant path == Slashed(names[..|names| - i])
      {
        i := i - 1;
        SlashedNext(names, |names| - i - 1);
        path := path + "/" + inodes[i].name;
      }
      assert names[..|names|] == names;
      if path == "" {
        path := "/";
      }
    }

    /** getcwd and resolve_path, for a directory that plain names lead to: back to the directory, whatever
        the base. */
    method ResolveCwd(cwd: Inode, base: Inode?, ghost names: seq<string>) returns (path: string, place: Place)
      requires Valid() && PlainNames(names) && Walk(State(), root, names) == At(cwd)
      requires base != null ==> base in inodes
      ensures path == Joined(names) && place == At(cwd)
    {
      hide Walk, Components, Sound, Good;
      Spelled(State(), names);
      path := GetCwd(cwd, names);
      ComponentsJoined(names);
      var parent, name;
      place, parent, name := ResolvePath(path, base);
    }

    /** A relative path means the same as the path that getcwd gives with a slash and the relative path
        behind it, whatever the base of that: the same place and, unless the walk stops at something that
        is not a directory, the same directory and the same last name in it. */
    method ResolveRelative(cwd: Inode, path: string, base: Inode?, ghost names: seq<string>)
      returns (relative: (Place, Inode?, string), absolute: (Place, Inode?, string))
      requires Valid() && PlainNames(names) && Walk(State(), root, names) == At(cwd)
      requires path != "" && path[0] != '/' && (base != null ==> base in inodes)
      ensures relative.0 == absolute.0
      ensures !relative.0.Stopped? ==> relative.1 == absolute.1 && (relative.1 != null ==> relative.2 == absolute.2)
    {
      hide Walk, Components, Sound, Good;
      ghost var s := State();
      Spelled(s, names);
      RootInside(s);
      WalkInside(s, root, names);
      var place, parent, name := ResolvePath(path, cwd);
      relative := (place, parent, name);
      var whole := GetCwd(cwd, names);
      ComponentsJoined(names);
      ComponentsBeside(whole, path);
      place, parent, name := ResolvePath(whole + "/" + path, base);
      absolute := (place, parent, name);
      HasName(path);
      RelativeResolves(s, cwd, names, Components(path), place, parent, name);
    }

    /** A path that begins with a slash means the same from everywhere. */
    method ResolveAbsolute(path: string, base: Inode?, other: Inode?)
      returns (here: (Place, Inode?, string), there: (Place, Inode?, string))
      requires Sound(State()) && path != "" && path[0] == '/'
      requires (base != null ==> base in inodes) && (other != null ==> other in inodes)
      ensures here.0 == there.0 && here.0 == Walk(State(), root, Components(path))
      ensures !here.0.Stopped? ==> here.1 == there.1 && (here.1 != null ==> here.2 == there.2)
    {
      hide Walk, Components, Sound;
      var place, parent, name := ResolvePath(path, base);
      here := (place, parent, name);
      place, parent, name := ResolvePath(path, other);
      there := (place, parent, name);
    }
  }

  // A path that is not empty and does not begin with a slash has a name.
  lemma HasName(path: string)
    requires path != "" && path[0] != '/'
    ensures Components(path) != []
  {
  }

  lemma RelativeResolves(s: Files, cwd: Inode, names: seq<string>, rest: seq<string>, place: Place, parent: Inode?,
                         name: string)
    requires Walk(s, s.root, names) == At(cwd) && rest != []
    requires Resolved(s, s.root, names + rest, place, parent, name)
    ensures Resolved(s, cwd, rest, place, parent, name)
  {
    WalkOn(s, s.root, names, cwd, rest);
    WalkOn(s, s.root, names, cwd, rest[..|rest| - 1]);
    assert (names + rest)[..|names + rest| - 1] == names + rest[..|rest| - 1];
  }

  lemma EmptyGood(s: Files)
    requires Sound(s) && s.mounts == [] && s.listing[s.root] == []
    ensures Good(s) && HostsListed(s)
  {
    forall names: seq<string> | PlainNames(names) && names != [] ensures Straight(s, names) {
      NoChildren(s, names);
    }
  }

  lemma {:induction false} NoChildren(s: Files, names: seq<string>)
    requires Sound(s) && s.listing[s.root] == [] && PlainNames(names) && names != []
    ensures Walk(s, s.root, names) == Missing
  {
    if |names| > 1 {
      NoChildren(s, names[..|names| - 1]);
    }
  }

  lemma AddKeepsHosts(s: Files, t: Files, child: Inode)
    requires Sound(s) && Grown(s, t, child)
    ensures HostsListed(s) ==> HostsListed(t)
  {
  }

  lemma DotDotUnsound(s: Files, t: Files, child: Inode)
    requires Grown(s, t, child) && child.name == ".."
    ensures !Sound(t)
  {
    assert child in t.listing[child.parent];
  }

  // A part that is missing in a directory is a plain name, and a new one; or ".." where there is no parent.
  lemma MissingName(s: Files, start: Inode?, path: string, parent: Inode, name: string)
    requires Sound(s) && (start != null ==> start in s.listing)
    requires Resolved(s, start, Components(path), Missing, parent, name)
    ensures parent in s.listing && parent.kind == Directory && name != ""
    ensures if name == ".." then parent.parent == null
            else PlainName(name) && forall c :: c in s.listing[parent] ==> c.name != name
    ensures Components(path) != [] && name == Components(path)[|Components(path)| - 1]
  {
    var names := Components(path);
    assert start != null && names != [];
    WalkInside(s, start, names[..|names| - 1]);
    ComponentNames(path);
  }

  lemma HostFound(s: Files, path: string, host: Inode, parent: Inode?)
    requires Sound(s)
    requires exists name :: Resolved(s, Start(s, path, null), Components(path), At(host), parent, name)
    ensures host in s.listing && (parent != null ==> parent in s.listing) && Start(s, path, null) == s.root
    ensures FoundBy(s, Components(path), host, parent) && (Components(path) == [] ==> parent == null)
  {
    var names := Components(path);
    WalkInside(s, s.root, names);
    if names != [] {
      WalkInside(s, s.root, names[..|names| - 1]);
    }
  }

  lemma MountEffects(s: Files, t: Files, host: Inode, top: Inode, names: seq<string>)
    requires Sound(s) && Mounted(s, t, host, top.parent, top) && FoundBy(s, names, host, top.parent)
    ensures Sound(t) && (names == [] ==> Walk(t, t.root, names) == At(s.root))
    ensures Good(s) ==>
      && (RoundTrips(t) <==> (Exposed(s, host) ==> host.parent == top.parent)) && (Good(t) <==> RoundTrips(t))
    ensures Good(s) && PlainNames(names) && names != [] ==>
      top.parent != null &&
      var found := Lookup(s, top.parent, names[|names| - 1]);
      found != null && (Walk(t, t.root, names) == At(top) <==> Unmounted(s, found))
    ensures Good(s) && HostsListed(s) ==>
      && (AllRoundTrips(t) <==> IsListed(s, host) && host.parent == top.parent)
      && (AllRoundTrips(t) ==> HostsListed(t))
  {
    MountKeepsSound(s, t, host, top.parent, top);
    hide Sound, Good, RoundTrips, AllRoundTrips, Exposed, IsListed, HostsListed;
    if Good(s) {
      MountKeepsRoundTripsIff(s, t, host, top, names);
      if PlainNames(names) && names != [] {
        assert names == names[..|names| - 1] + [names[|names| - 1]];
        PlainPathLeadsToMount(s, t, host, top, names[..|names| - 1], names[|names| - 1]);
      }
      if HostsListed(s) {
        MountKeepsAllRoundTripsIff(s, t, host, top, names);
      }
    }
  }

  lemma SlashedNext(names: seq<string>, k: nat)
    requires k < |names|
    ensures Slashed(names[..k + 1]) == Slashed(names[..k]) + "/" + names[k]
    ensures k == 0 ==> Slashed(names[..k]) == ""
  {
    SlashedConcat(names[..k], names[k]);
    assert names[..k + 1] == names[..k] + [names[k]];
  }

  lemma {:induction false} SlashedConcat(names: seq<string>, name: string)
    ensures Slashed(names + [name]) == Slashed(names) + "/" + name
  {
    if names == [] {
      assert Slashed([name]) == "/" + name + Slashed([]);
    } else {
      SlashedConcat(names[1..], name);
      assert (names + [name])[1..] == names[1..] + [name];
    }
  }

  /** The names in a path are not empty and have no slash. */
  lemma {:induction false} ComponentNames(s: string)
    ensures forall i :: 0 <= i < |Components(s)| ==> Components(s)[i] != "" && '/' !in Components(s)[i]
    decreases |s|
  {
    if s != "" {
      if s[0] == '/' {
        ComponentNames(s[1..]);
      } else {
        ComponentNames(s[PartLength(s)..]);
      }
    }
  }

  lemma PartNames(s: string, part: string, rest: string)
    requires PartOf(s, part, rest)
    ensures Components(s) == NamesLeft(part, rest) && (part == "" <==> s == "")
    ensures part != "" && part[0] != '/' ==> rest == "" || rest[0] == '/'
    ensures part != "" ==> s != "" && s[0] == part[0]
  {
  }

  lemma LeftCases(part: string, rest: string)
    ensures part == "" ==> NamesLeft(part, rest) == []
    ensures part != "" && part[0] == '/' ==> NamesLeft(part, rest) == Components(rest)
    ensures part != "" && part[0] != '/' ==> NamesLeft(part, rest) == [part] + Components(rest)
    ensures rest == "" ==> Components(rest) == []
  {
  }

  lemma ResolvedNone(s: Files, start: Inode?, name: string)
    ensures WalkFrom(s, start, []) == if start == null then Missing else At(start)
    ensures Resolved(s, start, [], if start == null then Missing else At(start), null, name)
  {
  }

  // One more name.
  lemma StepOn(s: Files, start: Inode?, done: seq<string>, current: Inode, part: string)
    requires WalkFrom(s, start, done) == At(current)
    ensures WalkFrom(s, start, done + [part]) == Step(s, current, part)
    ensures Resolved(s, start, done + [part], Step(s, current, part), current, part)
  {
    WalkOne(s, start, done, part);
    assert (done + [part])[..|done|] == done;
  }

  lemma Regroup(done: seq<string>, part: string, more: seq<string>)
    ensures done + ([part] + more) == done + [part] + more && done + [part] + [] == done + [part]
  {
  }

  lemma FailedStays(s: Files, start: Inode?, done: seq<string>, more: seq<string>, name: string)
    requires WalkFrom(s, start, done) == Missing && more != []
    ensures Resolved(s, start, done + more, Missing, null, name)
  {
    if start != null {
      WalkStuck(s, start, done, more);
      WalkStuck(s, start, done, more[..|more| - 1]);
      assert (done + more)[..|done + more| - 1] == done + more[..|more| - 1];
    }
  }

  lemma StoppedStays(s: Files, start: Inode?, done: seq<string>, current: Inode, part: string, more: seq<string>,
                     parent: Inode?, name: string)
    requires WalkFrom(s, start, done) == At(current) && current.kind != Directory
    ensures Resolved(s, start, done + ([part] + more), Stopped, parent, name)
  {
    WalkOne(s, start, done, part);
    WalkStuck(s, start, done + [part], more);
    assert done + ([part] + more) == done + [part] + more;
  }

  // ----- concrete mounts -----

  /** A mount on "/a/.": "a" leads to the new root, its parents spell "a" twice, and that leads nowhere. */
  lemma DotMountBreaks(root: Inode, a: Inode, top: Inode, s: Files, t: Files)
    requires root != a && root != top && a != top && root.kind == a.kind == Directory
    requires a.parent == root && a.name == "a"
    requires s == Files(root, map[root := [a], a := []], []) && Mounted(s, t, a, a, top)
    ensures Walk(s, root, ["a", "."]) == At(a)
    ensures Walk(t, root, ["a"]) == At(top) && Spells(root, top, ["a", "a"]) && Walk(t, root, ["a", "a"]) == Missing
  {
    hide Walk, Spells;
    assert [] + ["a"] == ["a"] && ["a"] + ["a"] == ["a", "a"] && ["a"] + ["."] == ["a", "."];
    assert FindChild([a], "a") == a;
    WalkNone(s, root);
    WalkNone(t, root);
    WalkOne(s, root, [], "a");
    WalkOne(s, root, ["a"], ".");
    SeenNew(s.mounts, a, top, a);
    WalkOne(t, root, [], "a");
    WalkOne(t, root, ["a"], "a");
    assert Spells(root, root, []) by { SpellsRoot(root); }
    SpellsMore(root, a, []);
    SpellsMore(root, top, ["a"]);
  }

  lemma SpellsRoot(root: Inode)
    ensures Spells(root, root, [])
  {
  }

  /** A mount on "/": the path itself goes on leading to the old root, "/." leads to the new one, which has
      no parent, so that nothing spells its path and ".." is missing in it. */
  lemma RootMountBreaks(root: Inode, top: Inode, s: Files, t: Files)
    requires root.kind == Directory && root.parent == root
    requires s == Files(root, map[root := []], []) && Mounted(s, t, root, null, top)
    ensures Walk(t, root, []) == At(root) && Walk(t, root, ["."]) == At(top)
    ensures (forall names: seq<string> :: !Spells(root, top, names)) && Walk(t, root, [".", ".."]) == Missing
  {
    hide Walk;
    assert [] + ["."] == ["."] && ["."] + [".."] == [".", ".."];
    WalkNone(t, root);
    SeenNew(s.mounts, root, top, root);
    WalkOne(t, root, [], ".");
    WalkOne(t, root, ["."], "..");
  }

  // The root, a directory x in it, a directory y in x, and the root of another file system beside x.
  ghost predicate FourDirectories(root: Inode, x: Inode, y: Inode, top: Inode) {
    && root != x && root != y && root != top && x != y && x != top && y != top
    && root.kind == x.kind == y.kind == top.kind == Directory
    && root.parent == root && x.parent == root && y.parent == x && top.parent == root
    && x.name == "x" && y.name == "y" && top.name == "x"
  }

  /** A mount on "/x/y/../../x", on which nothing was mounted: the path led to the host, and leads nowhere
      after. */
  lemma DetourMountLost(root: Inode, x: Inode, y: Inode, top: Inode, s: Files, t: Files)
    requires FourDirectories(root, x, y, top)
    requires s == Files(root, map[root := [x], x := [y], y := []], []) && Mounted(s, t, x, root, top)
    ensures var names := ["x", "y", "..", "..", "x"];
      Unmounted(s, x) && Walk(s, root, names) == At(x) && Walk(t, root, names) == Missing
  {
    hide Walk;
    var n1, n2, n3, n4 := ["x"], ["x", "y"], ["x", "y", ".."], ["x", "y", "..", ".."];
    assert [] + ["x"] == n1 && n1 + ["y"] == n2 && n2 + [".."] == n3 && n3 + [".."] == n4;
    assert n4 + ["x"] == n2 + ["..", "..", "x"] == ["x", "y", "..", "..", "x"];
    assert FindChild([x], "x") == x && FindChild([y], "y") == y;
    WalkNone(s, root);
    WalkNone(t, root);
    WalkOne(s, root, [], "x");
    WalkOne(s, root, n1, "y");
    WalkOne(s, root, n2, "..");
    WalkOne(s, root, n3, "..");
    WalkOne(s, root, n4, "x");
    WalkOne(t, root, [], "x");
    SeenNew(s.mounts, x, top, x);
    WalkOne(t, root, n1, "y");
    WalkStuck(t, root, n2, ["..", "..", "x"]);
  }

  lemma WalkNone(s: Files, d: Inode)
    ensures Walk(s, d, []) == At(d)
  {
  }
}
