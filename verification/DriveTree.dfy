/**
 * Folder trees addressed by id, as Google Drive and Box address them: the walk down that
 * derives paths, and the walk back from a path to an id.
 */
module DriveTree {
  import opened Outcomes
  import opened Sequences
  import opened Text

  datatype File = File(id: string, name: string)

  datatype Tree = Tree(id: string, name: string, files: seq<File>, folders: seq<Tree>)

  datatype Child = Child(id: string, name: string)

  /** A folder's own name and first parent, as a metadata request answers them. */
  datatype Meta = Meta(name: string, parent: Option<string>)

  /** The remote service: listings come in pages; an id it does not know is an error. */
  datatype Api = Api(folders: map<string, seq<seq<Child>>>, files: map<string, seq<seq<File>>>, meta: map<string, Meta>)

  function ChildrenOf(t: Tree): seq<Child> {
    seq(|t.folders|, i requires 0 <= i < |t.folders| => Child(t.folders[i].id, t.folders[i].name))
  }

  /** The service holds the tree `t`: its listings, page after page, and its folders' metadata. */
  predicate Hosts(api: Api, t: Tree) {
    && t.id in api.folders && Flatten(api.folders[t.id]) == ChildrenOf(t)
    && t.id in api.files && Flatten(api.files[t.id]) == t.files
    && forall i :: 0 <= i < |t.folders| ==>
         && t.folders[i].id in api.meta
         && api.meta[t.folders[i].id] == Meta(t.folders[i].name, Some(t.id))
         && Hosts(api, t.folders[i])
  }

  /** A name a path can be made of. */
  predicate GoodName(name: string) {
    name != "" && '/' !in name
  }

  /** Every name is good, and siblings of a kind have different names. */
  predicate WellNamed(t: Tree) {
    && (forall i :: 0 <= i < |t.folders| ==> GoodName(t.folders[i].name) && WellNamed(t.folders[i]))
    && (forall i, j :: 0 <= i < j < |t.folders| ==> t.folders[i].name != t.folders[j].name)
    && (forall i :: 0 <= i < |t.files| ==> GoodName(t.files[i].name))
    && (forall i, j :: 0 <= i < j < |t.files| ==> t.files[i].name != t.files[j].name)
  }

  // ----- going down by names -----

  /** The first of `folders` with this name, by position. */
  function FindChild(folders: seq<Tree>, name: string): (r: Option<nat>)
    ensures r.Some? ==> r.value < |folders| && folders[r.value].name == name
    ensures r.None? ==> forall i :: 0 <= i < |folders| ==> folders[i].name != name
  {
    if folders == [] then None
    else if folders[0].name == name then Some(0)
    else
      var r := FindChild(folders[1..], name);
      if r.None? then None else Some(r.value + 1)
  }

  function Descend(t: Tree, names: seq<string>): Option<Tree>
    decreases |names|
  {
    if names == [] then Some(t)
    else
      var k := FindChild(t.folders, names[0]);
      if k.None? then None else Descend(t.folders[k.value], names[1..])
  }

  // ----- the walk down -----

  /** One composition for the path-shaped key. */
  function ChildPath(folderPath: string, name: string): string {
    if folderPath != "" then folderPath + "/" + name else name
  }

  datatype Folder = Folder(path: string, id: string)

  /** Depth first, parents before children: what `listFolders` answers below `prefix`. */
  function Down(folders: seq<Tree>, prefix: string): seq<Folder>
    decreases folders
  {
    if folders == [] then []
    else
      var n := |folders| - 1;
      var path := ChildPath(prefix, folders[n].name);
      Down(folders[..n], prefix) + [Folder(path, folders[n].id)] + Down(folders[n].folders, path)
  }

  /** The same walk, by the names on the way instead of the path. */
  function Ways(folders: seq<Tree>): seq<seq<string>>
    decreases folders
  {
    if folders == [] then []
    else
      var n := |folders| - 1;
      Ways(folders[..n]) + [[folders[n].name]] + Under(folders[n].name, Ways(folders[n].folders))
  }

  function Under(name: string, ways: seq<seq<string>>): seq<seq<string>> {
    seq(|ways|, i requires 0 <= i < |ways| => [name] + ways[i])
  }

  predicate WellNamedAll(folders: seq<Tree>) {
    && (forall i :: 0 <= i < |folders| ==> GoodName(folders[i].name) && WellNamed(folders[i]))
    && (forall i, j :: 0 <= i < j < |folders| ==> folders[i].name != folders[j].name)
  }

  function DescendAll(folders: seq<Tree>, names: seq<string>): Option<Tree>
    requires names != []
  {
    var k := FindChild(folders, names[0]);
    if k.None? then None else Descend(folders[k.value], names[1..])
  }

  lemma FoundAt(folders: seq<Tree>, i: nat)
    requires WellNamedAll(folders) && i < |folders|
    ensures FindChild(folders, folders[i].name) == Some(i)
  {
  }

  /** Below the prefix, a folder's path is its names joined. */
  function PathBelow(prefix: string, names: seq<string>): string
    requires names != []
  {
    ChildPath(prefix, Join(names, '/'))
  }

  lemma PathStep(prefix: string, name: string, names: seq<string>)
    requires GoodName(name) && names != []
    ensures PathBelow(ChildPath(prefix, name), names) == PathBelow(prefix, [name] + names)
  {
    assert ([name] + names)[1..] == names;
    var rest := Join(names, '/');
    assert Join([name] + names, '/') == name + "/" + rest;
    if prefix != "" {
      assert (prefix + "/" + name) + "/" + rest == prefix + "/" + (name + "/" + rest);
    }
  }

  lemma WellNamedParts(folders: seq<Tree>)
    requires WellNamedAll(folders) && folders != []
    ensures WellNamedAll(folders[..|folders| - 1])
    ensures WellNamedAll(folders[|folders| - 1].folders) && GoodName(folders[|folders| - 1].name)
  {
    assert WellNamed(folders[|folders| - 1]);
  }

  /** Entry by entry: path, id, and the names that lead there. */
  lemma {:induction false} DownIsWays(folders: seq<Tree>, prefix: string)
    requires WellNamedAll(folders)
    ensures |Down(folders, prefix)| == |Ways(folders)|
    ensures forall i :: 0 <= i < |Ways(folders)| ==>
              && Ways(folders)[i] != []
              && Down(folders, prefix)[i].path == PathBelow(prefix, Ways(folders)[i])
    decreases folders
  {
    if folders != [] {
      WellNamedParts(folders);
      WaysParts(folders, prefix);
      hide ChildPath, WellNamed, WellNamedAll, GoodName, PathBelow, Ways, Down;
      var n := |folders| - 1;
      var name, path := folders[n].name, ChildPath(prefix, folders[n].name);
      DownIsWays(folders[..n], prefix);
      DownIsWays(folders[n].folders, path);
      OnePath(prefix, name);
      var a, b := Ways(folders[..n]), Ways(folders[n].folders);
      var da, db := Down(folders[..n], prefix), Down(folders[n].folders, path);
      PathsUnder(prefix, name, b, db);
      PathsJoin(prefix, a + [[name]], da + [Folder(path, folders[n].id)], Under(name, b), db);
    }
  }

  lemma PathsJoin(prefix: string, a: seq<seq<string>>, da: seq<Folder>, b: seq<seq<string>>, db: seq<Folder>)
    requires |a| == |da| && |b| == |db|
    requires forall i :: 0 <= i < |a| ==> a[i] != [] && da[i].path == PathBelow(prefix, a[i])
    requires forall i :: 0 <= i < |b| ==> b[i] != [] && db[i].path == PathBelow(prefix, b[i])
    ensures forall i :: 0 <= i < |a + b| ==> (a + b)[i] != [] && (da + db)[i].path == PathBelow(prefix, (a + b)[i])
  {
    hide PathBelow;
  }

  lemma PathsUnder(prefix: string, name: string, ways: seq<seq<string>>, below: seq<Folder>)
    requires GoodName(name) && |below| == |ways|
    requires forall i :: 0 <= i < |ways| ==> ways[i] != [] && below[i].path == PathBelow(ChildPath(prefix, name), ways[i])
    ensures forall i :: 0 <= i < |ways| ==>
              Under(name, ways)[i] != [] && below[i].path == PathBelow(prefix, Under(name, ways)[i])
  {
    forall i | 0 <= i < |ways| ensures below[i].path == PathBelow(prefix, Under(name, ways)[i]) {
      PathStep(prefix, name, ways[i]);
    }
  }

  lemma OnePath(prefix: string, name: string)
    ensures PathBelow(prefix, [name]) == ChildPath(prefix, name)
  {
  }

  /** The ways are exactly the name lists that lead to a folder, and the ids are the ids they lead to. */
  lemma {:induction false} WayLeads(folders: seq<Tree>, prefix: string, i: nat)
    requires WellNamedAll(folders) && i < |Ways(folders)|
    requires |Down(folders, prefix)| == |Ways(folders)|
    ensures Ways(folders)[i] != []
    ensures DescendAll(folders, Ways(folders)[i]).Some?
    ensures Down(folders, prefix)[i].id == DescendAll(folders, Ways(folders)[i]).value.id
    decreases folders
  {
    hide Ways, Down, WellNamedAll, WellNamed, GoodName, ChildPath, DescendAll, Descend, FindChild;
    NoFoldersNoWays(folders);
    var n := |folders| - 1;
    WellNamedParts(folders);
    WayIs(folders, prefix, i);
    var path, before := ChildPath(prefix, folders[n].name), |Ways(folders[..n])|;
    var way, entry := Ways(folders)[i], Down(folders, prefix)[i];
    if i < before {
      assert way == Ways(folders[..n])[i] && entry == Down(folders[..n], prefix)[i];
      WayLeads(folders[..n], prefix, i);
      LeadsInPrefix(folders, n, way);
    } else if i > before {
      var rest := Ways(folders[n].folders)[i - before - 1];
      assert way == [folders[n].name] + rest && entry == Down(folders[n].folders, path)[i - before - 1];
      WayLeads(folders[n].folders, path, i - before - 1);
      LeadsInLast(folders, rest);
    } else {
      LastLeads(folders);
    }
  }

  lemma NoFoldersNoWays(folders: seq<Tree>)
    ensures folders == [] ==> Ways(folders) == []
  {
  }

  /** Where the entry and the way number `i` come from. */
  lemma WayIs(folders: seq<Tree>, prefix: string, i: nat)
    requires WellNamedAll(folders) && folders != [] && i < |Ways(folders)|
    ensures var n := |folders| - 1;
            var path := ChildPath(prefix, folders[n].name);
            var a, b := Ways(folders[..n]), Ways(folders[n].folders);
            var down, below := Down(folders[..n], prefix), Down(folders[n].folders, path);
            && |Down(folders, prefix)| == |Ways(folders)| == |a| + 1 + |b| && |down| == |a| && |below| == |b|
            && Ways(folders)[i] == Part(a, [folders[n].name], Under(folders[n].name, b), i)
            && Down(folders, prefix)[i] == Part(down, Folder(path, folders[n].id), below, i)
  {
    var n := |folders| - 1;
    var path := ChildPath(prefix, folders[n].name);
    WellNamedParts(folders);
    DownIsWays(folders[..n], prefix);
    DownIsWays(folders[n].folders, path);
    WaysParts(folders, prefix);
    hide ChildPath, WellNamed, WellNamedAll, GoodName, PathBelow, Ways, Down;
    InParts(Ways(folders[..n]), [folders[n].name], Under(folders[n].name, Ways(folders[n].folders)), i);
    InParts(Down(folders[..n], prefix), Folder(path, folders[n].id), Down(folders[n].folders, path), i);
  }

  /** The element at `i` of one sequence, an element and another sequence. */
  function Part<T>(a: seq<T>, x: T, b: seq<T>, i: nat): T
    requires i < |a| + 1 + |b|
  {
    if i < |a| then a[i] else if i == |a| then x else b[i - |a| - 1]
  }

  lemma InParts<T>(a: seq<T>, x: T, b: seq<T>, i: nat)
    requires i < |a| + 1 + |b|
    ensures (a + [x] + b)[i] == Part(a, x, b, i)
  {
  }

  lemma LastLeads(folders: seq<Tree>)
    requires WellNamedAll(folders) && folders != []
    ensures DescendAll(folders, [folders[|folders| - 1].name]) == Some(folders[|folders| - 1])
  {
    FoundAt(folders, |folders| - 1);
  }

  lemma LeadsInPrefix(folders: seq<Tree>, n: nat, names: seq<string>)
    requires n <= |folders| && names != [] && DescendAll(folders[..n], names).Some?
    ensures DescendAll(folders, names) == DescendAll(folders[..n], names)
  {
    FoundInPrefix(folders, n, names[0]);
  }

  lemma LeadsInLast(folders: seq<Tree>, rest: seq<string>)
    requires WellNamedAll(folders) && folders != [] && rest != []
    ensures DescendAll(folders, [folders[|folders| - 1].name] + rest) == DescendAll(folders[|folders| - 1].folders, rest)
  {
    var n := |folders| - 1;
    FoundAt(folders, n);
    assert ([folders[n].name] + rest)[1..] == rest;
    assert Descend(folders[n], rest) == DescendAll(folders[n].folders, rest);
  }

  lemma WaysParts(folders: seq<Tree>, prefix: string)
    requires folders != []
    ensures var n := |folders| - 1;
            var name, path := folders[n].name, ChildPath(prefix, folders[n].name);
            var a, b := Ways(folders[..n]), Ways(folders[n].folders);
            var down, below := Down(folders[..n], prefix), Down(folders[n].folders, path);
            && Ways(folders) == a + [[name]] + Under(name, b)
            && Down(folders, prefix) == down + [Folder(path, folders[n].id)] + below
  {
  }

  lemma {:induction false} FoundInPrefix(folders: seq<Tree>, n: nat, name: string)
    requires n <= |folders| && FindChild(folders[..n], name).Some?
    ensures FindChild(folders, name) == FindChild(folders[..n], name)
    decreases n
  {
    if folders[0].name != name {
      assert folders[..n][1..] == folders[1..][..n - 1];
      FoundInPrefix(folders[1..], n - 1, name);
    }
  }

  lemma {:induction false} EveryWay(folders: seq<Tree>, names: seq<string>) returns (i: nat)
    requires WellNamedAll(folders) && names != [] && DescendAll(folders, names).Some?
    ensures i < |Ways(folders)| && Ways(folders)[i] == names
    decreases folders
  {
    var n := |folders| - 1;
    var k := FindChild(folders, names[0]).value;
    WellNamedParts(folders);
    hide WellNamed, GoodName;
    var a := Ways(folders[..n]);
    if k < n {
      FoundAt(folders[..n], k);
      i := EveryWay(folders[..n], names);
    } else if |names| == 1 {
      assert names == [folders[n].name];
      i := |a|;
    } else {
      assert Descend(folders[n], names[1..]) == DescendAll(folders[n].folders, names[1..]);
      var j := EveryWay(folders[n].folders, names[1..]);
      i := |a| + 1 + j;
      assert Ways(folders)[i] == [folders[n].name] + names[1..];
      assert names == [names[0]] + names[1..];
    }
  }

  /** No folder is walked twice. */
  lemma {:induction false} WaysDiffer(folders: seq<Tree>, i: nat, j: nat)
    requires WellNamedAll(folders) && i < j < |Ways(folders)|
    ensures Ways(folders)[i] != Ways(folders)[j]
    decreases folders
  {
    var n := |folders| - 1;
    var name := folders[n].name;
    WellNamedParts(folders);
    var a, b := Ways(folders[..n]), Ways(folders[n].folders);
    hide WellNamed, GoodName;
    assert Ways(folders) == a + [[name]] + Under(name, b);
    if j < |a| {
      WaysDiffer(folders[..n], i, j);
    } else if i < |a| {
      FirstNameIsSibling(folders[..n], i);
    } else if i == |a| {
      DownIsWays(folders[n].folders, "");
      assert Ways(folders)[j] == [name] + b[j - |a| - 1];
    } else {
      WaysDiffer(folders[n].folders, i - |a| - 1, j - |a| - 1);
      assert ([name] + b[i - |a| - 1])[1..] == b[i - |a| - 1];
      assert ([name] + b[j - |a| - 1])[1..] == b[j - |a| - 1];
    }
  }

  lemma {:induction false} FirstNameIsSibling(folders: seq<Tree>, i: nat)
    requires i < |Ways(folders)|
    ensures Ways(folders)[i] != []
    ensures exists k :: 0 <= k < |folders| && folders[k].name == Ways(folders)[i][0]
    decreases folders
  {
    var n := |folders| - 1;
    var a := Ways(folders[..n]);
    if i < |a| {
      FirstNameIsSibling(folders[..n], i);
      assert exists k :: 0 <= k < n && folders[..n][k].name == a[i][0];
    } else {
      assert folders[n].name == Ways(folders)[i][0];
    }
  }

  lemma {:induction false} WayNamesGood(folders: seq<Tree>, names: seq<string>)
    requires WellNamedAll(folders) && names != [] && DescendAll(folders, names).Some?
    ensures forall i :: 0 <= i < |names| ==> GoodName(names[i])
    decreases |names|
  {
    var k := FindChild(folders, names[0]).value;
    assert WellNamed(folders[k]);
    if |names| > 1 {
      WayNamesGood(folders[k].folders, names[1..]);
    }
  }

  // ----- the enumeration as a whole -----

  /** What `listFolders` answers for the tree: the root, then the walk. */
  function AllFolders(t: Tree): seq<Folder> {
    [Folder("", t.id)] + Down(t.folders, "")
  }

  /** The path a folder has: its names joined, the root's being empty. */
  function PathOf(names: seq<string>): string {
    Join(names, '/')
  }

  lemma PathsDiffer(a: seq<string>, b: seq<string>)
    requires forall i :: 0 <= i < |a| ==> GoodName(a[i])
    requires forall i :: 0 <= i < |b| ==> GoodName(b[i])
    requires PathOf(a) == PathOf(b)
    ensures a == b
  {
    if a != [] { SplitJoin(a, '/'); JoinNotEmpty(a); }
    if b != [] { SplitJoin(b, '/'); JoinNotEmpty(b); }
  }

  lemma JoinNotEmpty(a: seq<string>)
    requires a != [] && GoodName(a[0])
    ensures Join(a, '/') != ""
  {
  }

  predicate LeadsTo(t: Tree, names: seq<string>, f: Folder) {
    Descend(t, names).Some? && f == Folder(PathOf(names), Descend(t, names).value.id)
  }

  ghost predicate IsFolderOf(t: Tree, f: Folder) {
    exists names :: LeadsTo(t, names, f)
  }

  /**
   * Each folder is enumerated once, under its own path, and nothing else is: the entries
   * are in one-to-one correspondence with the name lists that lead to a folder.
   */
  lemma EnumeratesOnce(t: Tree)
    requires WellNamed(t)
    ensures forall i :: 0 <= i < |AllFolders(t)| ==> IsFolderOf(t, AllFolders(t)[i])
    ensures forall names :: Descend(t, names).Some? ==>
              Folder(PathOf(names), Descend(t, names).value.id) in AllFolders(t)
    ensures forall i, j :: 0 <= i < j < |AllFolders(t)| ==> AllFolders(t)[i].path != AllFolders(t)[j].path
  {
    hide WellNamed, AllFolders, Descend, PathOf, LeadsTo;
    var all := AllFolders(t);
    forall i | 0 <= i < |all| ensures IsFolderOf(t, all[i]) { var names := EntryHasWay(t, i); }
    forall names | Descend(t, names).Some?
      ensures Folder(PathOf(names), Descend(t, names).value.id) in all
    {
      WayHasEntry(t, names);
    }
    forall i, j | 0 <= i < j < |all| ensures all[i].path != all[j].path { DifferentEntries(t, i, j); }
  }

  /** The names behind one entry of the enumeration. */
  lemma EntryHasWay(t: Tree, i: nat) returns (names: seq<string>)
    requires WellNamed(t) && i < |AllFolders(t)|
    ensures LeadsTo(t, names, AllFolders(t)[i])
    ensures forall k :: 0 <= k < |names| ==> GoodName(names[k])
    ensures |AllFolders(t)| == 1 + |Ways(t.folders)|
    ensures names == if i == 0 then [] else Ways(t.folders)[i - 1]
    ensures i > 0 ==> names != []
  {
    assert WellNamedAll(t.folders);
    hide WellNamed, WellNamedAll, ChildPath, Ways, Down, GoodName, PathBelow;
    DownIsWays(t.folders, "");
    if i == 0 {
      names := [];
      assert Descend(t, names) == Some(t);
    } else {
      names := Ways(t.folders)[i - 1];
      WayLeads(t.folders, "", i - 1);
      WayNamesGood(t.folders, names);
      assert Descend(t, names) == DescendAll(t.folders, names);
      NoPrefix(names);
      assert AllFolders(t)[i] == Down(t.folders, "")[i - 1];
      hide Descend, DescendAll, AllFolders;
    }
  }

  lemma NoPrefix(names: seq<string>)
    requires names != []
    ensures PathBelow("", names) == PathOf(names)
  {
  }

  lemma WayHasEntry(t: Tree, names: seq<string>)
    requires WellNamed(t) && Descend(t, names).Some?
    ensures Folder(PathOf(names), Descend(t, names).value.id) in AllFolders(t)
  {
    assert WellNamedAll(t.folders);
    hide WellNamed, ChildPath, Ways, Down, GoodName;
    if names == [] {
      assert AllFolders(t)[0] == Folder("", t.id);
    } else {
      assert Descend(t, names) == DescendAll(t.folders, names);
      var i := EveryWay(t.folders, names);
      DownIsWays(t.folders, "");
      WayLeads(t.folders, "", i);
      NoPrefix(names);
      hide Descend, DescendAll, PathBelow;
      assert AllFolders(t)[i + 1] == Folder(PathOf(names), Descend(t, names).value.id);
    }
  }

  lemma DifferentEntries(t: Tree, i: nat, j: nat)
    requires WellNamed(t) && i < j < |AllFolders(t)|
    ensures AllFolders(t)[i].path != AllFolders(t)[j].path
  {
    hide AllFolders, Descend, Ways, Down, GoodName, LeadsTo;
    var a := EntryHasWay(t, i);
    var b := EntryHasWay(t, j);
    if i > 0 { WaysDiffer(t.folders, i - 1, j - 1); }
    assert a != b;
    PathOfEntry(t, a, AllFolders(t)[i]);
    PathOfEntry(t, b, AllFolders(t)[j]);
    if AllFolders(t)[i].path == AllFolders(t)[j].path { PathsDiffer(a, b); }
  }

  lemma PathOfEntry(t: Tree, names: seq<string>, f: Folder)
    requires LeadsTo(t, names, f)
    ensures f.path == PathOf(names)
  {
  }

  /** Keys of files: different folders or different files of one folder never share one. */
  lemma FileKeysDiffer(t: Tree, a: seq<string>, i: nat, b: seq<string>, j: nat)
    requires WellNamed(t) && Descend(t, a).Some? && Descend(t, b).Some?
    requires i < |Descend(t, a).value.files| && j < |Descend(t, b).value.files|
    requires ChildPath(PathOf(a), Descend(t, a).value.files[i].name)
          == ChildPath(PathOf(b), Descend(t, b).value.files[j].name)
    ensures a == b && i == j
  {
    var x, y := Descend(t, a).value.files[i].name, Descend(t, b).value.files[j].name;
    FolderIsWellNamed(t, a);
    FolderIsWellNamed(t, b);
    assert GoodName(x) && GoodName(y);
    assert i != j ==> a != b || x != y;
    hide Descend, WellNamed, GoodName, PathOf, ChildPath;
    KeyIsPath(a, x);
    KeyIsPath(b, y);
    PathsDiffer(a + [x], b + [y]);
    assert (a + [x])[..|a + [x]| - 1] == a && (b + [y])[..|b + [y]| - 1] == b;
    assert (a + [x])[|a|] == x && (b + [y])[|b|] == y;
  }

  lemma {:induction false} FolderIsWellNamed(t: Tree, names: seq<string>)
    requires WellNamed(t) && Descend(t, names).Some?
    ensures WellNamed(Descend(t, names).value)
    ensures forall i :: 0 <= i < |names| ==> GoodName(names[i])
    decreases |names|
  {
    if names != [] {
      var k := FindChild(t.folders, names[0]).value;
      FolderIsWellNamed(t.folders[k], names[1..]);
    }
  }

  lemma KeyIsPath(names: seq<string>, name: string)
    requires forall i :: 0 <= i < |names| ==> GoodName(names[i])
    ensures ChildPath(PathOf(names), name) == PathOf(names + [name])
  {
    if names != [] {
      JoinNotEmpty(names);
      JoinSnoc(names, name, '/');
    } else {
      assert names + [name] == [name];
    }
  }
}
