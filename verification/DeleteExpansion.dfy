/** Names and paths reported by the flight controller. */
module DevicePaths {
  const REMOTE_BASENAME_MAX_LENGTH := 100
  const FTP_MAX_PATH_BYTES := 200

  predicate HasControl(s: string) {
    exists i :: 0 <= i < |s| && (s[i] < ' ' || s[i] == '\U{00007F}')
  }

  predicate IsSafeRemoteBasename(name: string) {
    && 0 < |name| <= REMOTE_BASENAME_MAX_LENGTH
    && name != "." && name != ".."
    && '/' !in name && '\\' !in name
    && !HasControl(name)
  }

  /** `segment` stands between slashes or an end of the path at position `i`. */
  predicate SegmentAt(path: string, segment: string, i: nat) {
    && i + |segment| <= |path| && path[i..i + |segment|] == segment
    && (i == 0 || path[i - 1] == '/')
    && (i + |segment| == |path| || path[i + |segment|] == '/')
  }

  predicate IsSafeDevicePath(path: string) {
    && 0 < |path| <= FTP_MAX_PATH_BYTES && path[0] == '/' && !HasControl(path)
    && forall i :: 0 <= i < |path| ==> !SegmentAt(path, "..", i)
  }

  /** The directory path with its closing slash. */
  function Inside(dir: string): string {
    if |dir| > 0 && dir[|dir| - 1] == '/' then dir else dir + "/"
  }

  function JoinDevicePath(dir: string, name: string): string {
    Inside(dir) + name
  }

  predicate Beneath(path: string, dir: string) {
    Inside(dir) <= path && path != Inside(dir)
  }

  /** Which names keep a path safe: a name without a slash, joined to a safe directory, gives a safe path if and only if it is not
      the way up, has no control character, and leaves the path short enough. */
  lemma JoinSafeExactly(dir: string, name: string)
    requires IsSafeDevicePath(dir) && name != "" && '/' !in name
    ensures IsSafeDevicePath(JoinDevicePath(dir, name))
            <==> name != ".." && |Inside(dir)| + |name| <= 200 && forall i :: 0 <= i < |name| ==> name[i] >= ' ' && name[i] as int != 127
  {
    var base, path := Inside(dir), JoinDevicePath(dir, name);
    assert base[|base| - 1] == '/' && base[0] == '/';
    assert forall i :: 0 <= i < |base| ==> path[i] == base[i];
    assert forall i :: 0 <= i < |name| ==> path[|base| + i] == name[i];
    assert HasControl(path) <==> HasControl(name) by {
      ControlsJoin(dir, name);
    }
    UpAtName(dir, name);
    forall i | 0 <= i < |path| && i != |base| ensures !SegmentAt(path, "..", i) {
      NoOtherUp(dir, name, i);
    }
  }

  lemma ControlsJoin(dir: string, name: string)
    requires !HasControl(dir)
    ensures HasControl(JoinDevicePath(dir, name)) <==> HasControl(name)
  {
    var base, path := Inside(dir), JoinDevicePath(dir, name);
    assert forall i :: 0 <= i < |base| ==> path[i] == base[i];
    assert forall i :: 0 <= i < |name| ==> path[|base| + i] == name[i];
    assert !HasControl(base) by {
      assert forall i :: 0 <= i < |dir| ==> base[i] == dir[i];
    }
    if i :| 0 <= i < |name| && (name[i] < ' ' || name[i] == '\U{00007F}') {
      assert path[|base| + i] == name[i];
    }
    if i :| 0 <= i < |path| && (path[i] < ' ' || path[i] == '\U{00007F}') {
      assert if i < |base| then base[i] == path[i] else name[i - |base|] == path[i];
    }
  }

  lemma UpAtName(dir: string, name: string)
    requires name != "" && '/' !in name
    ensures |Inside(dir)| < |JoinDevicePath(dir, name)|
    ensures SegmentAt(JoinDevicePath(dir, name), "..", |Inside(dir)|) <==> name == ".."
  {
    var base, path := Inside(dir), JoinDevicePath(dir, name);
    assert path[|base|..] == name;
    if |name| >= 2 {
      assert path[|base|..|base| + 2] == name[..2];
      if |name| > 2 {
        assert path[|base| + 2] == name[2];
      }
    }
  }

  /** A way up elsewhere in the joined path would have been in the directory path already. */
  lemma NoOtherUp(dir: string, name: string, i: nat)
    requires IsSafeDevicePath(dir) && '/' !in name
    requires i < |JoinDevicePath(dir, name)| && i != |Inside(dir)|
    ensures !SegmentAt(JoinDevicePath(dir, name), "..", i)
  {
    var base, path := Inside(dir), JoinDevicePath(dir, name);
    if i > |base| {
      assert path[i - 1] == name[i - 1 - |base|] && name[i - 1 - |base|] in name;
    } else if i + 2 >= |base| {
      assert path[|base| - 1] == '/';
      assert i + 2 <= |path| ==> path[i..i + 2][|base| - 1 - i] == '/';
    } else {
      assert path[i..i + 2] == dir[i..i + 2];
      assert i > 0 ==> path[i - 1] == dir[i - 1];
      assert i + 2 < |dir| ==> path[i + 2] == dir[i + 2];
      assert !SegmentAt(dir, "..", i);
    }
  }

  lemma BeneathSelfOrDeeper(path: string, dir: string, name: string)
    requires IsSafeRemoteBasename(name)
    requires path == JoinDevicePath(dir, name) || Beneath(path, JoinDevicePath(dir, name))
    ensures Beneath(path, dir) && Inside(dir) + name <= path
    ensures |path| == |Inside(dir) + name| || path[|Inside(dir) + name|] == '/'
  {
    var child := JoinDevicePath(dir, name);
    assert child[|child| - 1] == name[|name| - 1] != '/';
    assert child <= child + "/";
  }

  /** What lies under one name does not lie under another. */
  lemma SiblingsApart(path: string, dir: string, name: string, other: string)
    requires IsSafeRemoteBasename(name) && IsSafeRemoteBasename(other) && name != other
    requires path == JoinDevicePath(dir, name) || Beneath(path, JoinDevicePath(dir, name))
    ensures path != JoinDevicePath(dir, other) && !Beneath(path, JoinDevicePath(dir, other))
  {
    BeneathSelfOrDeeper(path, dir, name);
    if path == JoinDevicePath(dir, other) || Beneath(path, JoinDevicePath(dir, other)) {
      BeneathSelfOrDeeper(path, dir, other);
      var base := Inside(dir);
      SameName(base, path, name, other);
    }
  }

  lemma SameName(base: string, path: string, name: string, other: string)
    requires base + name <= path && base + other <= path
    requires '/' !in name && '/' !in other
    requires |path| == |base + name| || path[|base + name|] == '/'
    requires |path| == |base + other| || path[|base + other|] == '/'
    ensures name == other
  {
    forall k | 0 <= k < |name| && k < |other| ensures name[k] == other[k] {
      assert path[|base| + k] == (base + name)[|base| + k] == (base + other)[|base| + k];
    }
    NextChar(base, path, name, other);
    NextChar(base, path, other, name);
  }

  lemma NextChar(base: string, path: string, name: string, other: string)
    requires base + name <= path && base + other <= path
    ensures |name| < |other| ==> path[|base + name|] == other[|name|]
  {
    if |name| < |other| {
      assert path[|base + name|] == (base + other)[|base| + |name|];
    }
  }
}

/** Turning the selected entries into the ordered list of files and directories to remove. */
module DeleteExpansion {
  import opened Bytes
  import opened DevicePaths

  const LIST_MAX_ENTRIES := 2000
  const LIST_MAX_WIRE_RECORDS := 8000
  const LIST_MAX_PAGES := 1000
  const DELETE_MAX_DEPTH := 6
  const DELETE_MAX_ITEMS := 512

  datatype Kind = File | Dir
  datatype Child = Child(name: string, kind: Kind)
  datatype Target = Target(path: string, kind: Kind)

  datatype Verdict = Usable(child: Child) | Unsafe(name: string) | Ignored

  function LastTab(s: string, n: nat): (i: nat)
    requires n <= |s|
    ensures i <= n && '\t' !in s[i..n]
    ensures i == 0 || s[i - 1] == '\t'
  {
    if n == 0 || s[n - 1] == '\t' then n
    else
      var i := LastTab(s, n - 1);
      assert s[i..n] == s[i..n - 1] + [s[n - 1]];
      i
  }

  /** Text before the last tab, or all of it. */
  function BeforeSize(rest: string): string {
    var i := LastTab(rest, |rest|);
    if i == 0 then rest else rest[..i - 1]
  }

  /** One record of a directory listing. */
  function Judge(record: string): (v: Verdict)
    requires record != ""
    ensures v.Usable? ==> IsSafeRemoteBasename(v.child.name)
  {
    var rest := record[1..];
    if record[0] == 'D' then
      if rest == "." || rest == ".." then Ignored
      else if !IsSafeRemoteBasename(rest) then (if rest == "" then Ignored else Unsafe(rest))
      else Usable(Child(rest, Dir))
    else if record[0] == 'F' then
      var name := BeforeSize(rest);
      if !IsSafeRemoteBasename(name) then (if name == "" then Ignored else Unsafe(name))
      else Usable(Child(name, File))
    else Ignored
  }

  /** A single name that cannot lead anywhere else. */
  ghost predicate Harmless(name: string) {
    && 1 <= |name| <= 100 && name !in {".", ".."}
    && forall c :: c in name ==> c != '/' && c != '\\' && c >= ' ' && c as int != 127
  }

  /** How the records of a listing read: a directory by its name, a file by its name before the last tab; the two relative
      directories and records of other kinds are passed over, and names that could lead elsewhere are told apart. */
  lemma JudgeReads(name: string, size: string)
    requires '\t' !in size
    ensures Judge("D" + name)
            == if name in {"", ".", ".."} then Ignored else if Harmless(name) then Usable(Child(name, Dir)) else Unsafe(name)
    ensures Judge("F" + name + "\t" + size)
            == if name == "" then Ignored else if Harmless(name) then Usable(Child(name, File)) else Unsafe(name)
    ensures '\t' !in name ==>
              Judge("F" + name) == if name == "" then Ignored else if Harmless(name) then Usable(Child(name, File)) else Unsafe(name)
    ensures forall kind: char :: kind != 'D' && kind != 'F' ==> Judge([kind] + name) == Ignored
  {
    HarmlessIsSafe(name);
    assert ("D" + name)[1..] == name && ("F" + name)[1..] == name;
    var record, rest := "F" + name + "\t" + size, name + "\t" + size;
    assert record[0] == 'F' && record[1..] == rest;
    TabBeforeSize(name, size);
    if '\t' !in name {
      TabAbsent(name);
    }
  }

  lemma HarmlessIsSafe(name: string)
    ensures Harmless(name) <==> IsSafeRemoteBasename(name)
  {
    assert HasControl(name) <==> exists c :: c in name && (c < ' ' || c as int == 127) by {
      if c :| c in name && (c < ' ' || c as int == 127) {
        var i :| 0 <= i < |name| && name[i] == c;
      }
      if i :| 0 <= i < |name| && (name[i] < ' ' || name[i] == '\U{00007F}') {
        assert name[i] in name;
      }
    }
  }

  lemma {:induction false} LastTabAt(s: string, n: nat, k: nat)
    requires k < n <= |s| && s[k] == '\t' && '\t' !in s[k + 1..n]
    ensures LastTab(s, n) == k + 1
  {
    if n > k + 1 {
      assert s[k + 1..n] == s[k + 1..n - 1] + [s[n - 1]];
      LastTabAt(s, n - 1, k);
    }
  }

  lemma {:induction false} NoLastTab(s: string, n: nat)
    requires n <= |s| && '\t' !in s[..n]
    ensures LastTab(s, n) == 0
  {
    if n > 0 {
      assert s[..n] == s[..n - 1] + [s[n - 1]];
      NoLastTab(s, n - 1);
    }
  }

  lemma TabBeforeSize(name: string, size: string)
    requires '\t' !in size
    ensures BeforeSize(name + "\t" + size) == name
  {
    var rest := name + "\t" + size;
    assert rest[|name| + 1..|rest|] == size;
    LastTabAt(rest, |rest|, |name|);
  }

  lemma TabAbsent(name: string)
    requires '\t' !in name
    ensures BeforeSize(name) == name
  {
    assert name[..|name|] == name;
    NoLastTab(name, |name|);
  }

  type Records = rs: seq<string> | forall i :: 0 <= i < |rs| ==> rs[i] != ""

  function Children(records: Records): (cs: seq<Child>)
    ensures forall i :: 0 <= i < |cs| ==> IsSafeRemoteBasename(cs[i].name)
    ensures |cs| <= |records|
  {
    if records == [] then []
    else
      var v := Judge(records[0]);
      (if v.Usable? then [v.child] else []) + Children(records[1..])
  }

  lemma {:induction false} ChildrenConcat(a: Records, b: Records)
    ensures Children(a + b) == Children(a) + Children(b)
  {
    if a == [] {
      assert a + b == b;
    } else {
      assert (a + b)[1..] == a[1..] + b;
      ChildrenConcat(a[1..], b);
    }
  }

  /** The names of a listing that must not be used. */
  function UnsafeNames(records: Records): (names: seq<string>)
    ensures forall name :: name in names ==> !IsSafeRemoteBasename(name)
  {
    if records == [] then []
    else
      var v := Judge(records[0]);
      (if v.Unsafe? then [v.name] else []) + UnsafeNames(records[1..])
  }

  lemma {:induction false} UnsafeConcat(a: Records, b: Records)
    ensures UnsafeNames(a + b) == UnsafeNames(a) + UnsafeNames(b)
  {
    hide IsSafeRemoteBasename;
    if a == [] {
      assert a + b == b;
    } else {
      assert (a + b)[1..] == a[1..] + b;
      UnsafeConcat(a[1..], b);
    }
  }

  // ---------------------------------------------------------------------------------------------------
  // What should be removed, and in which order
  // ---------------------------------------------------------------------------------------------------

  /** The remote tree: for every directory path, the records of its full listing. */
  type World = string -> Records

  /** Everything under a target, contents before their directory, at most `levels` directories deep. */
  ghost function Traversal(w: World, path: string, kind: Kind, levels: nat): seq<Target>
    decreases levels, 1, 0
  {
    if kind.File? || levels == 0 then [Target(path, kind)]
    else AllUnder(w, path, Children(w(path)), levels - 1) + [Target(path, Dir)]
  }

  ghost function AllUnder(w: World, dir: string, children: seq<Child>, levels: nat): seq<Target>
    decreases levels, 2, |children|
  {
    if children == [] then []
    else
      Traversal(w, JoinDevicePath(dir, children[0].name), children[0].kind, levels)
      + AllUnder(w, dir, children[1..], levels)
  }

  /** The names passed over on the way, each directory's own before those of its children. */
  ghost function Skipped(w: World, path: string, kind: Kind, levels: nat): seq<string>
    decreases levels, 1, 0
  {
    if kind.File? || levels == 0 then []
    else UnsafeNames(w(path)) + SkippedUnder(w, path, Children(w(path)), levels - 1)
  }

  ghost function SkippedUnder(w: World, dir: string, children: seq<Child>, levels: nat): seq<string>
    decreases levels, 2, |children|
  {
    if children == [] then []
    else
      Skipped(w, JoinDevicePath(dir, children[0].name), children[0].kind, levels)
      + SkippedUnder(w, dir, children[1..], levels)
  }

  lemma {:induction false} SkippedUnderSnoc(w: World, dir: string, children: seq<Child>, c: Child, levels: nat)
    ensures SkippedUnder(w, dir, children + [c], levels)
            == SkippedUnder(w, dir, children, levels) + Skipped(w, JoinDevicePath(dir, c.name), c.kind, levels)
    decreases |children|
  {
    hide Skipped;
    if children == [] {
      assert children + [c] == [c] && [c][1..] == [];
      assert SkippedUnder(w, dir, [], levels) == [];
    } else {
      assert (children + [c])[1..] == children[1..] + [c];
      SkippedUnderSnoc(w, dir, children[1..], c, levels);
    }
  }

  /** No directory lies below the depth limit. */
  ghost predicate Shallow(w: World, path: string, kind: Kind, levels: nat)
    decreases levels, 0
  {
    kind.File? || (levels > 0 && AllShallow(w, path, Children(w(path)), levels - 1))
  }

  ghost predicate AllShallow(w: World, dir: string, children: seq<Child>, levels: nat)
    decreases levels, 1
  {
    forall i :: 0 <= i < |children| ==> Shallow(w, JoinDevicePath(dir, children[i].name), children[i].kind, levels)
  }

  lemma {:induction false} AllUnderSnoc(w: World, dir: string, children: seq<Child>, c: Child, levels: nat)
    ensures AllUnder(w, dir, children + [c], levels)
            == AllUnder(w, dir, children, levels) + Traversal(w, JoinDevicePath(dir, c.name), c.kind, levels)
    decreases |children|
  {
    hide Traversal;
    if children == [] {
      assert children + [c] == [c] && [c][1..] == [];
      assert AllUnder(w, dir, [], levels) == [];
    } else {
      assert (children + [c])[1..] == children[1..] + [c];
      AllUnderSnoc(w, dir, children[1..], c, levels);
    }
  }

  /** Nothing outside the selected target is touched. */
  lemma {:induction false} StaysUnderRoot(w: World, path: string, kind: Kind, levels: nat)
    ensures forall t :: t in Traversal(w, path, kind, levels) ==> t.path == path || Beneath(t.path, path)
    ensures |Traversal(w, path, kind, levels)| > 0
    decreases levels, 1, 0
  {
    hide Children;
    if kind.Dir? && levels > 0 {
      AllStayUnder(w, path, Children(w(path)), levels - 1);
    }
  }

  ghost predicate UnderSome(path: string, dir: string, children: seq<Child>) {
    exists i :: 0 <= i < |children| && UnderChild(path, dir, children[i])
  }

  ghost predicate UnderChild(path: string, dir: string, c: Child) {
    path == JoinDevicePath(dir, c.name) || Beneath(path, JoinDevicePath(dir, c.name))
  }

  ghost predicate SafeNames(children: seq<Child>) {
    forall i :: 0 <= i < |children| ==> IsSafeRemoteBasename(children[i].name)
  }

  lemma {:induction false} AllStayUnder(w: World, dir: string, children: seq<Child>, levels: nat)
    requires SafeNames(children)
    ensures forall t :: t in AllUnder(w, dir, children, levels) ==> UnderSome(t.path, dir, children) && Beneath(t.path, dir)
    ensures |AllUnder(w, dir, children, levels)| >= |children|
    decreases levels, 2, |children|
  {
    hide Traversal, Beneath, JoinDevicePath, IsSafeRemoteBasename;
    if children != [] {
      var first := JoinDevicePath(dir, children[0].name);
      StaysUnderRoot(w, first, children[0].kind, levels);
      AllStayUnder(w, dir, children[1..], levels);
      forall t | t in AllUnder(w, dir, children, levels)
        ensures UnderSome(t.path, dir, children) && Beneath(t.path, dir)
      {
        if t in Traversal(w, first, children[0].kind, levels) {
          BeneathSelfOrDeeper(t.path, dir, children[0].name);
          assert UnderChild(t.path, dir, children[0]);
        } else {
          var i :| 0 <= i < |children[1..]| && UnderChild(t.path, dir, children[1..][i]);
          assert children[1..][i] == children[i + 1];
        }
      }
    }
  }

  /** Within a directory no two usable entries share a name. */
  ghost predicate NamesDiffer(children: seq<Child>) {
    forall i, j :: 0 <= i < j < |children| ==> children[i].name != children[j].name
  }

  ghost predicate ProperTree(w: World) {
    forall path :: NamesDiffer(Children(w(path)))
  }

  /** Nothing inside a directory comes after the directory itself, so it is empty when its turn comes. */
  ghost predicate ContentsFirst(ts: seq<Target>) {
    forall i, j :: 0 <= i < j < |ts| && ts[i].kind.Dir? ==> !Beneath(ts[j].path, ts[i].path)
  }

  lemma {:induction false} ContentsComeFirst(w: World, path: string, kind: Kind, levels: nat)
    requires ProperTree(w)
    ensures ContentsFirst(Traversal(w, path, kind, levels))
    decreases levels, 1, 0
  {
    hide Children, Beneath, AllUnder;
    if kind.Dir? && levels > 0 {
      var cs := Children(w(path));
      AllContentsFirst(w, path, cs, levels - 1);
      AllStayUnder(w, path, cs, levels - 1);
      var inner := AllUnder(w, path, cs, levels - 1);
      forall i | 0 <= i < |inner| ensures !Beneath(path, inner[i].path) {
        assert inner[i] in inner;
        NotBothWays(path, inner[i].path);
      }
    }
  }

  lemma NotBothWays(a: string, b: string)
    requires Beneath(b, a)
    ensures !Beneath(a, b)
  {
  }

  lemma {:induction false} AllContentsFirst(w: World, dir: string, children: seq<Child>, levels: nat)
    requires ProperTree(w) && SafeNames(children) && NamesDiffer(children)
    ensures ContentsFirst(AllUnder(w, dir, children, levels))
    decreases levels, 2, |children|
  {
    hide Traversal, Beneath, JoinDevicePath, IsSafeRemoteBasename;
    if children != [] {
      var first := JoinDevicePath(dir, children[0].name);
      var front := Traversal(w, first, children[0].kind, levels);
      var back := AllUnder(w, dir, children[1..], levels);
      ContentsComeFirst(w, first, children[0].kind, levels);
      StaysUnderRoot(w, first, children[0].kind, levels);
      AllContentsFirst(w, dir, children[1..], levels);
      AllStayUnder(w, dir, children[1..], levels);
      forall i, j | 0 <= i < |front| && 0 <= j < |back| ensures !Beneath(back[j].path, front[i].path) {
        assert front[i] in front && back[j] in back;
        var k :| 0 <= k < |children[1..]| && UnderChild(back[j].path, dir, children[1..][k]);
        assert children[1..][k] == children[k + 1];
        NotUnderOther(back[j].path, front[i].path, dir, children[k + 1].name, children[0].name);
      }
      FrontThenBack(front, back);
    }
  }

  lemma NotUnderOther(path: string, target: string, dir: string, name: string, other: string)
    requires IsSafeRemoteBasename(name) && IsSafeRemoteBasename(other) && name != other
    requires path == JoinDevicePath(dir, name) || Beneath(path, JoinDevicePath(dir, name))
    requires target == JoinDevicePath(dir, other) || Beneath(target, JoinDevicePath(dir, other))
    ensures !Beneath(path, target)
  {
    SiblingsApart(path, dir, name, other);
    if Beneath(path, target) {
      BeneathChains(path, target, JoinDevicePath(dir, other));
    }
  }

  lemma BeneathChains(a: string, b: string, c: string)
    requires Beneath(a, b) && (b == c || Beneath(b, c))
    ensures Beneath(a, c)
  {
    assert b <= Inside(b);
  }

  lemma FrontThenBack(front: seq<Target>, back: seq<Target>)
    requires ContentsFirst(front) && ContentsFirst(back)
    requires forall i, j :: 0 <= i < |front| && 0 <= j < |back| ==> !Beneath(back[j].path, front[i].path)
    ensures ContentsFirst(front + back)
  {
    hide Beneath;
  }

  // ---------------------------------------------------------------------------------------------------
  // When an expansion succeeds
  // ---------------------------------------------------------------------------------------------------

  /** Nothing stands in the way of expanding a target onto a list of `before` entries: at every entry the list is below
      the limit and the path is safe, and no directory is too deep. */
  ghost predicate Expandable(w: World, path: string, kind: Kind, levels: nat, before: nat)
    decreases levels, 1, 0
  {
    && before < DELETE_MAX_ITEMS && IsSafeDevicePath(path)
    && (kind.Dir? ==> levels > 0 && AllExpandable(w, path, Children(w(path)), levels - 1, before))
  }

  ghost predicate AllExpandable(w: World, dir: string, children: seq<Child>, levels: nat, before: nat)
    decreases levels, 2, |children|
  {
    children == []
    || var path := JoinDevicePath(dir, children[0].name);
       && Expandable(w, path, children[0].kind, levels, before)
       && AllExpandable(w, dir, children[1..], levels, before + |Traversal(w, path, children[0].kind, levels)|)
  }

  /** Every path below a target is safe, and no directory lies below the depth limit. */
  ghost predicate Permitted(w: World, path: string, kind: Kind, levels: nat)
    decreases levels, 1, 0
  {
    IsSafeDevicePath(path) && (kind.Dir? ==> levels > 0 && AllPermitted(w, path, Children(w(path)), levels - 1))
  }

  ghost predicate AllPermitted(w: World, dir: string, children: seq<Child>, levels: nat)
    decreases levels, 2, |children|
  {
    children == []
    || (Permitted(w, JoinDevicePath(dir, children[0].name), children[0].kind, levels) && AllPermitted(w, dir, children[1..], levels))
  }

  /** The place of the last leaf, a file or an empty directory, in the traversal of a target. */
  ghost function LastLeaf(w: World, path: string, kind: Kind, levels: nat): nat
    decreases levels, 1, 0
  {
    if kind.File? || levels == 0 || Children(w(path)) == [] then 0 else LastLeafUnder(w, path, Children(w(path)), levels - 1)
  }

  ghost function LastLeafUnder(w: World, dir: string, children: seq<Child>, levels: nat): nat
    requires children != []
    decreases levels, 2, |children|
  {
    var path := JoinDevicePath(dir, children[0].name);
    if |children| == 1 then LastLeaf(w, path, children[0].kind, levels)
    else |Traversal(w, path, children[0].kind, levels)| + LastLeafUnder(w, dir, children[1..], levels)
  }

  lemma {:induction false} LeafIsInside(w: World, path: string, kind: Kind, levels: nat)
    ensures LastLeaf(w, path, kind, levels) < |Traversal(w, path, kind, levels)|
    decreases levels, 1, 0
  {
    hide Children, JoinDevicePath;
    if kind.Dir? && levels > 0 && Children(w(path)) != [] {
      LeafIsUnder(w, path, Children(w(path)), levels - 1);
    }
  }

  lemma {:induction false} LeafIsUnder(w: World, dir: string, children: seq<Child>, levels: nat)
    requires children != []
    ensures LastLeafUnder(w, dir, children, levels) < |AllUnder(w, dir, children, levels)|
    decreases levels, 2, |children|
  {
    hide JoinDevicePath, Traversal, LastLeaf;
    LeafIsInside(w, JoinDevicePath(dir, children[0].name), children[0].kind, levels);
    if |children| > 1 {
      LeafIsUnder(w, dir, children[1..], levels);
    }
  }

  /** An expansion succeeds exactly if everything below the target is permitted and the last leaf gets a place below the
      limit; the directories that enclose it follow whether there is room or not. */
  lemma {:induction false} ExpandableExactly(w: World, path: string, kind: Kind, levels: nat, before: nat)
    ensures Expandable(w, path, kind, levels, before)
            <==> Permitted(w, path, kind, levels) && before + LastLeaf(w, path, kind, levels) < DELETE_MAX_ITEMS
    decreases levels, 1, 0
  {
    hide Children, JoinDevicePath, IsSafeDevicePath;
    if kind.Dir? && levels > 0 && Children(w(path)) != [] {
      AllExpandableExactly(w, path, Children(w(path)), levels - 1, before);
    }
  }

  lemma {:induction false} AllExpandableExactly(w: World, dir: string, children: seq<Child>, levels: nat, before: nat)
    requires children != []
    ensures AllExpandable(w, dir, children, levels, before)
            <==> AllPermitted(w, dir, children, levels) && before + LastLeafUnder(w, dir, children, levels) < DELETE_MAX_ITEMS
    decreases levels, 2, |children|
  {
    hide JoinDevicePath, Expandable, Permitted, LastLeaf, Traversal;
    var path := JoinDevicePath(dir, children[0].name);
    ExpandableExactly(w, path, children[0].kind, levels, before);
    LeafIsInside(w, path, children[0].kind, levels);
    if |children| > 1 {
      AllExpandableExactly(w, dir, children[1..], levels, before + |Traversal(w, path, children[0].kind, levels)|);
    }
  }

  lemma {:induction false} AllExpandableSplit(w: World, dir: string, children: seq<Child>, i: nat, levels: nat, before: nat)
    requires i < |children|
    ensures var path := JoinDevicePath(dir, children[i].name);
            AllExpandable(w, dir, children[i..], levels, before)
            <==> Expandable(w, path, children[i].kind, levels, before)
                 && AllExpandable(w, dir, children[i + 1..], levels, before + |Traversal(w, path, children[i].kind, levels)|)
  {
    hide JoinDevicePath, Expandable, Traversal;
    assert children[i..][1..] == children[i + 1..];
  }

  // ---------------------------------------------------------------------------------------------------
  // Building the list by asking
  // ---------------------------------------------------------------------------------------------------

  /** What becomes of one listing request, all its retransmissions included. */
  datatype ListReply = Page(records: Records) | Nak(eof: bool) | NoReply

  /** The flight controller: given the number of the request, the directory and the record offset. */
  type Lister = (nat, string, nat) -> ListReply

  datatype DeleteError = TooMany | BadPath | TooDeep | ListOverflow | ListRefused | Timeout

  /** The answer is a non-empty run of the records due at this offset, or says that there are none. */
  ghost predicate TruePage(reply: ListReply, records: Records, offset: nat) {
    if offset < |records| then reply.Page? && reply.records != [] && reply.records <= records[offset..]
    else reply == Nak(true) || reply == Page([])
  }

  ghost predicate Truthful(ask: Lister, w: World) {
    forall n: nat, path: string, offset: nat :: TruePage(ask(n, path, offset), w(path), offset)
  }

  /** No directory has so many records that listing it could take too many pages. */
  ghost predicate Modest(w: World) {
    forall path :: |w(path)| < LIST_MAX_PAGES
  }

  lemma ModestDirectory(w: World, path: string)
    requires Modest(w)
    ensures |w(path)| < LIST_MAX_PAGES && |Children(w(path))| < LIST_MAX_ENTRIES
  {
  }

  class DeletePlan {
    const ask: Lister
    var requests: nat
    var work: seq<Target>
    var skippedUnsafe: seq<string>
    ghost const world: World

    constructor (ask: Lister, ghost world: World)
      ensures this.ask == ask && this.world == world && work == [] && skippedUnsafe == [] && requests == 0
    {
      this.ask, this.world := ask, world;
      work, skippedUnsafe, requests := [], [], 0;
    }

    /** Sort one page into usable entries and names that must not be used. */
    static method ParseListChunk(records: Records) returns (parsed: seq<Child>, wireCount: nat, unsafeNames: seq<string>)
      ensures parsed == Children(records) && wireCount == |records| && unsafeNames == UnsafeNames(records)
    {
      hide Judge, IsSafeRemoteBasename;
      parsed, wireCount, unsafeNames := [], 0, [];
      while wireCount < |records|
        invariant wireCount <= |records| && parsed == Children(records[..wireCount])
        invariant unsafeNames == UnsafeNames(records[..wireCount])
      {
        var record := records[wireCount];
        ChildrenSnoc(records[..wireCount], record);
        UnsafeSnoc(records[..wireCount], record);
        assert records[..wireCount + 1] == records[..wireCount] + [record];
        match Judge(record) {
          case Usable(child) => parsed := parsed + [child];
          case Unsafe(name) => unsafeNames := unsafeNames + [name];
          case Ignored =>
        }
        wireCount := wireCount + 1;
      }
      assert records[..|records|] == records;
    }

    /** Page through one directory. From a truthful peer the result is everything in it, usable and not, unless there
        are at least as many usable entries as the cap, in which case it may be cut there. */
    method CollectDirectory(path: string)
      returns (children: seq<Child>, unsafeNames: seq<string>, error: Option<DeleteError>)
      modifies `requests
      ensures SafeNames(children)
      ensures error in {None, Some(ListOverflow), Some(ListRefused), Some(Timeout)}
      ensures Truthful(ask, world) && error.None? ==>
                (children == Children(world(path)) && unsafeNames == UnsafeNames(world(path))) || |children| >= LIST_MAX_ENTRIES
      ensures Truthful(ask, world) && error.None? ==> |children| <= |Children(world(path))|
      ensures Truthful(ask, world) && |world(path)| < LIST_MAX_PAGES ==> error.None?
    {
      hide Children, UnsafeNames, TruePage, Truthful, IsSafeRemoteBasename;
      children, unsafeNames := [], [];
      var offset: nat, wireRecords: nat, pages: nat := 0, 0, 0;
      ChildrenOfNone();
      ghost var due := world(path);
      while true
        invariant SafeNames(children) && pages <= LIST_MAX_PAGES && wireRecords == offset
        invariant Truthful(ask, world) ==>
                    && offset <= |due| && pages <= offset
                    && children == Children(due[..offset]) && unsafeNames == UnsafeNames(due[..offset])
        decreases LIST_MAX_PAGES - pages
      {
        pages := pages + 1;
        if pages > LIST_MAX_PAGES {
          return children, unsafeNames, Some(ListOverflow);
        }
        var reply := ask(requests, path, offset);
        requests := requests + 1;
        if Truthful(ask, world) {
          TruePageMeans(ask, world, requests - 1, path, offset);
        }
        assert offset == |due| ==> due[..offset] == due;
        match reply {
          case NoReply => return children, unsafeNames, Some(Timeout);
          case Nak(eof) => return children, unsafeNames, if eof then None else Some(ListRefused);
          case Page(records) =>
            var parsed, wireCount, pageUnsafe := ParseListChunk(records);
            if wireCount == 0 {
              return children, unsafeNames, None;
            }
            if Truthful(ask, world) {
              NextPage(due, offset, records);
              NoMoreThanAll(due, offset + wireCount);
            }
            SafeParsed(records);
            children := children + parsed;
            unsafeNames := unsafeNames + pageUnsafe;
            offset := offset + wireCount;
            wireRecords := wireRecords + wireCount;
            if wireRecords > LIST_MAX_WIRE_RECORDS {
              return children, unsafeNames, Some(ListOverflow);
            }
            if |children| >= LIST_MAX_ENTRIES {
              return children, unsafeNames, None;
            }
        }
      }
    }

    /** Append a target and everything in it. Against a truthful peer a success appends exactly the traversal, so the
        listing cap never hides an entry; and the list grows past the limit by no more than one entry per level. */
    method ExpandDeleteTarget(path: string, kind: Kind, depth: nat) returns (error: Option<DeleteError>)
      requires depth <= DELETE_MAX_DEPTH
      modifies this
      ensures |work| >= |old(work)| && work[..|old(work)|] == old(work)
      ensures error.None? ==> IsSafeDevicePath(path) && |old(work)| < DELETE_MAX_ITEMS
      ensures error == Some(TooMany) ==> |work| >= DELETE_MAX_ITEMS
      ensures error.None? ==>
                |old(work)| < |work| <= DELETE_MAX_ITEMS + if kind.File? then 0 else DELETE_MAX_DEPTH - depth
      ensures error.None? && Truthful(ask, world) ==>
                && work == old(work) + Traversal(world, path, kind, DELETE_MAX_DEPTH - depth)
                && skippedUnsafe == old(skippedUnsafe) + Skipped(world, path, kind, DELETE_MAX_DEPTH - depth)
                && Shallow(world, path, kind, DELETE_MAX_DEPTH - depth)
      ensures Truthful(ask, world) && Modest(world) ==>
                (error.None? <==> Expandable(world, path, kind, DELETE_MAX_DEPTH - depth, |old(work)|))
      decreases DELETE_MAX_DEPTH - depth, 2
    {
      hide IsSafeDevicePath, Truthful, Children, UnsafeNames, JoinDevicePath, AllUnder, SkippedUnder, AllShallow, Modest,
           AllExpandable;
      if Modest(world) {
        ModestDirectory(world, path);
      }
      if |work| >= DELETE_MAX_ITEMS {
        return Some(TooMany);
      }
      if !IsSafeDevicePath(path) {
        return Some(BadPath);
      }
      if kind.File? {
        work := work + [Target(path, File)];
        return None;
      }
      if depth >= DELETE_MAX_DEPTH {
        return Some(TooDeep);
      }
      var children;
      var unsafeNames;
      children, unsafeNames, error := CollectDirectory(path);
      if error.Some? {
        return;
      }
      skippedUnsafe := skippedUnsafe + unsafeNames;
      error := ExpandAll(path, children, depth + 1);
      if error.Some? {
        return;
      }
      work := work + [Target(path, Dir)];
    }

    /** The children of one directory in turn. */
    method ExpandAll(path: string, children: seq<Child>, depth: nat) returns (error: Option<DeleteError>)
      requires depth <= DELETE_MAX_DEPTH && |work| < DELETE_MAX_ITEMS
      modifies this
      ensures |work| >= |old(work)| && work[..|old(work)|] == old(work)
      ensures error == Some(TooMany) ==> |work| >= DELETE_MAX_ITEMS
      ensures error.None? ==> |children| <= DELETE_MAX_ITEMS && |work| <= DELETE_MAX_ITEMS + (DELETE_MAX_DEPTH - depth)
      ensures error.None? && Truthful(ask, world) ==>
                && work == old(work) + AllUnder(world, path, children, DELETE_MAX_DEPTH - depth)
                && skippedUnsafe == old(skippedUnsafe) + SkippedUnder(world, path, children, DELETE_MAX_DEPTH - depth)
                && AllShallow(world, path, children, DELETE_MAX_DEPTH - depth)
      ensures Truthful(ask, world) && Modest(world) ==>
                (error.None? <==> AllExpandable(world, path, children, DELETE_MAX_DEPTH - depth, |old(work)|))
      decreases DELETE_MAX_DEPTH - depth, 3
    {
      hide IsSafeDevicePath, Truthful, JoinDevicePath, Shallow, Traversal, Skipped, Modest, Expandable, AllExpandable;
      assert children[0..] == children;
      var levels := DELETE_MAX_DEPTH - depth;
      error := None;
      var i := 0;
      while i < |children|
        invariant i <= |children| && error.None?
        invariant |work| >= |old(work)| + i && work[..|old(work)|] == old(work)
        invariant |work| <= DELETE_MAX_ITEMS + levels && i <= DELETE_MAX_ITEMS
        invariant Truthful(ask, world) ==> work == old(work) + AllUnder(world, path, children[..i], levels)
        invariant Truthful(ask, world) ==> skippedUnsafe == old(skippedUnsafe) + SkippedUnder(world, path, children[..i], levels)
        invariant Truthful(ask, world) ==> AllShallow(world, path, children[..i], levels)
        invariant Truthful(ask, world) && Modest(world) ==>
                    (AllExpandable(world, path, children, levels, |old(work)|)
                     <==> AllExpandable(world, path, children[i..], levels, |work|))
      {
        AllExpandableSplit(world, path, children, i, levels, |work|);
        ghost var before := work;
        error := ExpandDeleteTarget(JoinDevicePath(path, children[i].name), children[i].kind, depth);
        assert work[..|old(work)|] == work[..|before|][..|old(work)|];
        if error.Some? {
          return;
        }
        AllUnderSnoc(world, path, children[..i], children[i], levels);
        SkippedUnderSnoc(world, path, children[..i], children[i], levels);
        assert children[..i + 1] == children[..i] + [children[i]];
        i := i + 1;
      }
      assert children[..i] == children && children[i..] == [];
      NothingToExpand(world, path, levels, |work|);
    }

    /** The whole selection. A plan that succeeds against a truthful peer is exactly the traversals of the selected
        entries, has at most six entries more than the limit, and names nothing outside the selection. */
    method ExpandSelection(entries: seq<Target>) returns (error: Option<DeleteError>)
      requires work == [] && skippedUnsafe == []
      modifies this
      ensures error.None? ==> |work| <= DELETE_MAX_ITEMS + DELETE_MAX_DEPTH
      ensures error.None? && Truthful(ask, world) ==>
                && work == AllTraversals(world, entries) && skippedUnsafe == AllSkipped(world, entries)
                && forall t :: t in work ==> UnderSelection(t.path, entries)
      ensures Truthful(ask, world) && Modest(world) ==>
                (error.None? <==> forall i :: 0 <= i < |entries| ==> HasPlace(world, entries, i))
    {
      hide IsSafeDevicePath, Truthful, Traversal, Skipped, Shallow, UnderSelection, Modest, Expandable, Permitted, LastLeaf;
      error := None;
      var i := 0;
      while i < |entries|
        invariant i <= |entries| && error.None? && |work| <= DELETE_MAX_ITEMS + DELETE_MAX_DEPTH
        invariant Truthful(ask, world) ==> work == AllTraversals(world, entries[..i]) && skippedUnsafe == AllSkipped(world, entries[..i])
        invariant Truthful(ask, world) && Modest(world) ==> forall k :: 0 <= k < i ==> HasPlace(world, entries, k)
      {
        ExpandableExactly(world, entries[i].path, entries[i].kind, DELETE_MAX_DEPTH, |work|);
        error := ExpandDeleteTarget(entries[i].path, entries[i].kind, 0);
        if error.Some? {
          assert Truthful(ask, world) && Modest(world) ==> !HasPlace(world, entries, i);
          return;
        }
        AllTraversalsSnoc(world, entries[..i], entries[i]);
        AllSkippedSnoc(world, entries[..i], entries[i]);
        assert entries[..i + 1] == entries[..i] + [entries[i]];
        i := i + 1;
      }
      assert entries[..i] == entries;
      PlanStaysUnder(world, entries);
    }
  }

  /** Everything below entry `i` of a selection is permitted, and its last leaf gets a place below the limit. */
  ghost predicate HasPlace(w: World, entries: seq<Target>, i: nat)
    requires i < |entries|
  {
    && Permitted(w, entries[i].path, entries[i].kind, DELETE_MAX_DEPTH)
    && |AllTraversals(w, entries[..i])| + LastLeaf(w, entries[i].path, entries[i].kind, DELETE_MAX_DEPTH) < DELETE_MAX_ITEMS
  }

  lemma NothingToExpand(w: World, dir: string, levels: nat, before: nat)
    ensures AllExpandable(w, dir, [], levels, before)
  {
  }

  ghost function AllTraversals(w: World, entries: seq<Target>): seq<Target> {
    if entries == [] then []
    else Traversal(w, entries[0].path, entries[0].kind, DELETE_MAX_DEPTH) + AllTraversals(w, entries[1..])
  }

  ghost function AllSkipped(w: World, entries: seq<Target>): seq<string> {
    if entries == [] then []
    else Skipped(w, entries[0].path, entries[0].kind, DELETE_MAX_DEPTH) + AllSkipped(w, entries[1..])
  }

  lemma {:induction false} AllSkippedSnoc(w: World, entries: seq<Target>, e: Target)
    ensures AllSkipped(w, entries + [e]) == AllSkipped(w, entries) + Skipped(w, e.path, e.kind, DELETE_MAX_DEPTH)
  {
    hide Skipped;
    if entries == [] {
      assert entries + [e] == [e] && [e][1..] == [];
      assert AllSkipped(w, []) == [];
    } else {
      assert (entries + [e])[1..] == entries[1..] + [e];
      AllSkippedSnoc(w, entries[1..], e);
    }
  }

  ghost predicate UnderSelection(path: string, entries: seq<Target>) {
    exists i :: 0 <= i < |entries| && (path == entries[i].path || Beneath(path, entries[i].path))
  }

  lemma {:induction false} AllTraversalsSnoc(w: World, entries: seq<Target>, e: Target)
    ensures AllTraversals(w, entries + [e]) == AllTraversals(w, entries) + Traversal(w, e.path, e.kind, DELETE_MAX_DEPTH)
  {
    hide Traversal;
    if entries == [] {
      assert entries + [e] == [e] && [e][1..] == [];
      assert AllTraversals(w, []) == [];
    } else {
      assert (entries + [e])[1..] == entries[1..] + [e];
      AllTraversalsSnoc(w, entries[1..], e);
    }
  }

  lemma {:induction false} PlanStaysUnder(w: World, entries: seq<Target>)
    ensures forall t :: t in AllTraversals(w, entries) ==> UnderSelection(t.path, entries)
  {
    hide Traversal, Beneath;
    if entries != [] {
      StaysUnderRoot(w, entries[0].path, entries[0].kind, DELETE_MAX_DEPTH);
      PlanStaysUnder(w, entries[1..]);
      forall t | t in AllTraversals(w, entries) ensures UnderSelection(t.path, entries) {
        if t !in Traversal(w, entries[0].path, entries[0].kind, DELETE_MAX_DEPTH) {
          var i :| 0 <= i < |entries[1..]| && (t.path == entries[1..][i].path || Beneath(t.path, entries[1..][i].path));
          assert entries[1..][i] == entries[i + 1];
        }
      }
    }
  }

  lemma ChildrenSnoc(rs: Records, r: string)
    requires r != ""
    ensures Children(rs + [r]) == Children(rs) + if Judge(r).Usable? then [Judge(r).child] else []
  {
    hide Judge;
    ChildrenConcat(rs, [r]);
    assert [r][1..] == [];
    assert Children([r]) == (if Judge(r).Usable? then [Judge(r).child] else []) + Children([]);
  }

  lemma UnsafeSnoc(rs: Records, r: string)
    requires r != ""
    ensures UnsafeNames(rs + [r]) == UnsafeNames(rs) + if Judge(r).Unsafe? then [Judge(r).name] else []
  {
    hide Judge, IsSafeRemoteBasename;
    UnsafeConcat(rs, [r]);
    assert [r][1..] == [];
    assert UnsafeNames([r]) == (if Judge(r).Unsafe? then [Judge(r).name] else []) + UnsafeNames([]);
  }

  lemma NoMoreThanAll(due: Records, n: nat)
    requires n <= |due|
    ensures |Children(due[..n])| <= |Children(due)|
  {
    var front: Records, back: Records := due[..n], due[n..];
    assert due == front + back;
    ChildrenConcat(front, back);
  }

  lemma ChildrenOfNone()
    ensures Children([]) == [] && UnsafeNames([]) == []
  {
  }

  lemma SafeParsed(rs: Records)
    ensures SafeNames(Children(rs))
  {
  }

  lemma TruePageMeans(ask: Lister, w: World, n: nat, path: string, offset: nat)
    requires Truthful(ask, w)
    ensures var reply, due := ask(n, path, offset), w(path);
            && !reply.NoReply? && (reply.Nak? ==> reply.eof && offset >= |due|)
            && (reply.Page? ==> if offset < |due| then reply.records != [] && reply.records <= due[offset..] else reply.records == [])
  {
    assert TruePage(ask(n, path, offset), w(path), offset);
  }

  lemma NextPage(due: Records, offset: nat, page: Records)
    requires offset < |due| && page <= due[offset..]
    ensures offset + |page| <= |due| && Children(due[..offset + |page|]) == Children(due[..offset]) + Children(page)
    ensures UnsafeNames(due[..offset + |page|]) == UnsafeNames(due[..offset]) + UnsafeNames(page)
  {
    hide Children, UnsafeNames;
    var front: Records := due[..offset];
    FrontAndPage(due, offset, page);
    ChildrenConcat(front, page);
    UnsafeConcat(front, page);
  }

  lemma FrontAndPage(due: seq<string>, offset: nat, page: seq<string>)
    requires offset < |due| && page <= due[offset..]
    ensures offset + |page| <= |due| && due[..offset + |page|] == due[..offset] + page
  {
  }

  // ---------------------------------------------------------------------------------------------------
  // A plan beyond the limit
  // ---------------------------------------------------------------------------------------------------

  function FileName(i: nat): string
    requires i < 511
  {
    [(97 + i / 26) as char, (97 + i % 26) as char]
  }

  function FileRecord(i: nat): string
    requires i < 511
  {
    "F" + FileName(i)
  }

  function ManyFiles(n: nat): (rs: Records)
    requires n <= 511
    ensures |rs| == n
  {
    if n == 0 then [] else ManyFiles(n - 1) + [FileRecord(n - 1)]
  }

  /** 511 files and a directory; in it, five levels down, one more file. */
  function FullWorld(path: string): Records {
    if path == "/a" then ManyFiles(511) + ["Dd"]
    else if path == "/a/d" || path == "/a/d/d" || path == "/a/d/d/d" || path == "/a/d/d/d/d" then ["Dd"]
    else if path == "/a/d/d/d/d/d" then ["Fz"]
    else []
  }

  lemma FileRecordMeans(i: nat)
    requires i < 511
    ensures Judge(FileRecord(i)) == Usable(Child(FileName(i), File))
  {
    var name := FileName(i);
    assert FileRecord(i)[1..] == name;
    assert forall k :: 0 <= k < 2 ==> 'a' <= name[k] <= 'z';
    TabAbsent(name);
  }

  lemma OneRecord(r: string, c: Child)
    requires r != "" && Judge(r) == Usable(c)
    ensures Children([r]) == [c]
  {
    hide Judge, IsSafeRemoteBasename;
    ChildrenSnoc([], r);
    ChildrenOfNone();
    var none: Records := [];
    assert none + [r] == [r];
  }

  lemma DirectoryD()
    ensures Judge("Dd") == Usable(Child("d", Dir)) && Judge("Fz") == Usable(Child("z", File))
  {
    assert "Dd"[1..] == "d" && "Fz"[1..] == "z";
    assert LastTab("z", 0) == 0 && LastTab("z", 1) == 0;
  }

  /** What `n` files with safe paths in a directory contribute. */
  lemma {:induction false} ManyFilesMean(w: World, n: nat, levels: nat)
    requires n <= 511
    ensures var cs := Children(ManyFiles(n));
            && |cs| == n && (forall i :: 0 <= i < n ==> cs[i] == Child(FileName(i), File))
            && |AllUnder(w, "/a", cs, levels)| == n
  {
    hide Judge, JoinDevicePath, IsSafeRemoteBasename, Children, FileName;
    if n == 0 {
      ChildrenOfNone();
    } else {
      ManyFilesMean(w, n - 1, levels);
      FileRecordMeans(n - 1);
      ChildrenSnoc(ManyFiles(n - 1), FileRecord(n - 1));
      AllUnderSnoc(w, "/a", Children(ManyFiles(n - 1)), Child(FileName(n - 1), File), levels);
    }
  }

  /** The path `k` levels below the root of that world. */
  function Deep(k: nat): string
    requires k <= 5
  {
    if k == 0 then "/a" else JoinDevicePath(Deep(k - 1), "d")
  }

  lemma DeepPaths()
    ensures Deep(0) == "/a" && Deep(1) == "/a/d" && Deep(2) == "/a/d/d" && Deep(3) == "/a/d/d/d" && Deep(4) == "/a/d/d/d/d"
            && Deep(5) == "/a/d/d/d/d/d"
  {
    assert Inside("/a") == "/a/" && Inside("/a/d") == "/a/d/" && Inside("/a/d/d") == "/a/d/d/" && Inside("/a/d/d/d") == "/a/d/d/d/";
  }

  lemma DeepChildren(k: nat)
    requires 1 <= k <= 5
    ensures Children(FullWorld(Deep(k))) == [if k < 5 then Child("d", Dir) else Child("z", File)]
  {
    hide Judge, IsSafeRemoteBasename;
    DeepPaths();
    DirectoryD();
    OneRecord("Dd", Child("d", Dir));
    OneRecord("Fz", Child("z", File));
  }

  /** A directory with one child. */
  lemma OnlyChild(w: World, dir: string, c: Child, levels: nat)
    requires Children(w(dir)) == [c]
    ensures var path := JoinDevicePath(dir, c.name);
            && |Traversal(w, dir, Dir, levels + 1)| == |Traversal(w, path, c.kind, levels)| + 1
            && LastLeaf(w, dir, Dir, levels + 1) == LastLeaf(w, path, c.kind, levels)
            && (Permitted(w, dir, Dir, levels + 1) <==> IsSafeDevicePath(dir) && Permitted(w, path, c.kind, levels))
  {
    hide Children, JoinDevicePath, IsSafeDevicePath;
    assert [c][1..] == [];
    assert AllUnder(w, dir, [], levels) == [] && AllPermitted(w, dir, [], levels);
    assert AllUnder(w, dir, [c], levels) == Traversal(w, JoinDevicePath(dir, c.name), c.kind, levels) + AllUnder(w, dir, [], levels);
  }

  /** Below the root: a chain with the leaf first. */
  lemma {:induction false} ChainMeans(k: nat)
    requires 1 <= k <= 5
    ensures |Traversal(FullWorld, Deep(k), Dir, 6 - k)| == 7 - k && LastLeaf(FullWorld, Deep(k), Dir, 6 - k) == 0
    ensures Permitted(FullWorld, Deep(k), Dir, 6 - k)
    decreases 5 - k
  {
    hide JoinDevicePath, Children, FullWorld, IsSafeDevicePath;
    DeepChildren(k);
    DeepIsSafe(k);
    if k < 5 {
      OnlyChild(FullWorld, Deep(k), Child("d", Dir), 5 - k);
      ChainMeans(k + 1);
      assert Deep(k + 1) == JoinDevicePath(Deep(k), "d");
    } else {
      OnlyChild(FullWorld, Deep(k), Child("z", File), 0);
      assert Permitted(FullWorld, JoinDevicePath(Deep(5), "z"), File, 0);
    }
  }

  predicate Plain(path: string) {
    0 < |path| <= 20 && path[0] == '/' && forall i :: 0 <= i < |path| ==> path[i] == '/' || 'a' <= path[i] <= 'z'
  }

  lemma PlainIsSafe(path: string)
    requires Plain(path)
    ensures IsSafeDevicePath(path)
  {
    forall i | 0 <= i < |path| ensures !SegmentAt(path, "..", i) {
      assert path[i] != '.';
      if i + 2 <= |path| {
        assert path[i..i + 2][0] == path[i];
      }
    }
  }

  lemma DeepIsSafe(k: nat)
    requires k <= 5
    ensures IsSafeDevicePath(Deep(k)) && IsSafeDevicePath(JoinDevicePath(Deep(5), "z"))
  {
    hide IsSafeDevicePath;
    DeepPaths();
    assert JoinDevicePath(Deep(5), "z") == "/a/d/d/d/d/d/z";
    PlainIsSafe(Deep(k));
    PlainIsSafe("/a/d/d/d/d/d/z");
  }

  lemma {:induction false} AllPermittedSnoc(w: World, dir: string, children: seq<Child>, c: Child, levels: nat)
    ensures AllPermitted(w, dir, children + [c], levels)
            <==> AllPermitted(w, dir, children, levels) && Permitted(w, JoinDevicePath(dir, c.name), c.kind, levels)
    decreases |children|
  {
    hide Permitted, JoinDevicePath;
    if children == [] {
      assert children + [c] == [c] && [c][1..] == [];
      assert AllPermitted(w, dir, [], levels);
    } else {
      assert (children + [c])[1..] == children[1..] + [c];
      AllPermittedSnoc(w, dir, children[1..], c, levels);
    }
  }

  lemma {:induction false} ManyFilesPermitted(w: World, n: nat, levels: nat)
    requires n <= 511
    ensures AllPermitted(w, "/a", Children(ManyFiles(n)), levels)
  {
    hide Judge, JoinDevicePath, IsSafeRemoteBasename, IsSafeDevicePath;
    if n == 0 {
      ChildrenOfNone();
    } else {
      ManyFilesPermitted(w, n - 1, levels);
      FileRecordMeans(n - 1);
      ChildrenSnoc(ManyFiles(n - 1), FileRecord(n - 1));
      AllPermittedSnoc(w, "/a", Children(ManyFiles(n - 1)), Child(FileName(n - 1), File), levels);
      FilePathIsSafe(n - 1);
    }
  }

  lemma FilePathIsSafe(i: nat)
    requires i < 511
    ensures IsSafeDevicePath(JoinDevicePath("/a", FileName(i)))
  {
    hide IsSafeDevicePath;
    assert Inside("/a") == "/a/";
    PlainIsSafe(JoinDevicePath("/a", FileName(i)));
  }

  lemma {:induction false} LastLeafBehind(w: World, dir: string, front: seq<Child>, c: Child, levels: nat)
    ensures LastLeafUnder(w, dir, front + [c], levels)
            == |AllUnder(w, dir, front, levels)| + LastLeaf(w, JoinDevicePath(dir, c.name), c.kind, levels)
    decreases |front|
  {
    hide Traversal, LastLeaf, JoinDevicePath;
    if front == [] {
      assert front + [c] == [c];
    } else {
      assert (front + [c])[1..] == front[1..] + [c];
      LastLeafBehind(w, dir, front[1..], c, levels);
    }
  }

  /** A directory whose last child is `c`. */
  lemma LastChild(w: World, dir: string, front: seq<Child>, c: Child, levels: nat)
    requires Children(w(dir)) == front + [c]
    ensures var path := JoinDevicePath(dir, c.name);
            && |Traversal(w, dir, Dir, levels + 1)| == |AllUnder(w, dir, front, levels)| + |Traversal(w, path, c.kind, levels)| + 1
            && LastLeaf(w, dir, Dir, levels + 1) == |AllUnder(w, dir, front, levels)| + LastLeaf(w, path, c.kind, levels)
            && (Permitted(w, dir, Dir, levels + 1)
                <==> IsSafeDevicePath(dir) && AllPermitted(w, dir, front, levels) && Permitted(w, path, c.kind, levels))
  {
    hide Children, JoinDevicePath, IsSafeDevicePath;
    AllUnderSnoc(w, dir, front, c, levels);
    LastLeafBehind(w, dir, front, c, levels);
    AllPermittedSnoc(w, dir, front, c, levels);
  }

  lemma RootChildren()
    ensures Children(FullWorld("/a")) == Children(ManyFiles(511)) + [Child("d", Dir)]
  {
    hide Judge, IsSafeRemoteBasename;
    DirectoryD();
    ChildrenSnoc(ManyFiles(511), "Dd");
  }

  /** In that world a plan for the root is expandable and has 518 entries: the last leaf has number 511, just below the
      limit, and the six directories that enclose it follow. */
  lemma PlanBeyondLimit()
    ensures Modest(FullWorld) && Expandable(FullWorld, "/a", Dir, DELETE_MAX_DEPTH, 0)
    ensures |Traversal(FullWorld, "/a", Dir, DELETE_MAX_DEPTH)| == 518 && LastLeaf(FullWorld, "/a", Dir, DELETE_MAX_DEPTH) == 511
  {
    hide JoinDevicePath, Children, IsSafeDevicePath, Traversal, LastLeaf, Permitted, Expandable;
    ManyFilesMean(FullWorld, 511, 5);
    ManyFilesPermitted(FullWorld, 511, 5);
    RootChildren();
    DeepPaths();
    DeepIsSafe(0);
    assert Deep(1) == JoinDevicePath("/a", "d");
    ChainMeans(1);
    LastChild(FullWorld, "/a", Children(ManyFiles(511)), Child("d", Dir), 5);
    ExpandableExactly(FullWorld, "/a", Dir, DELETE_MAX_DEPTH, 0);
  }
}
