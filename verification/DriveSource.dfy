/**
 * The folder and file listings of Google Drive, Box being alike: enumerate the folders,
 * resolve a path back to an id, list a folder's files, and answer its keys from the
 * listing just made.
 */
module DriveSource {
  import opened Outcomes
  import opened Sequences
  import opened Text
  import opened DriveTree

  datatype Item = Item(path: string, sourceRef: string)

  // ----- listings and lookups, as functions of the service -----

  function FoldersUnder(api: Api, id: string): Option<seq<Child>> {
    if id in api.folders then Some(Flatten(api.folders[id])) else None
  }

  function FilesUnder(api: Api, id: string): Option<seq<File>> {
    if id in api.files then Some(Flatten(api.files[id])) else None
  }

  function FirstNamed(children: seq<Child>, name: string): Option<Child> {
    if children == [] then None
    else if children[0].name == name then Some(children[0])
    else FirstNamed(children[1..], name)
  }

  function Resolve(api: Api, id: string, segments: seq<string>): Option<string>
    decreases |segments|
  {
    if segments == [] then Some(id)
    else
      var children := FoldersUnder(api, id);
      if children.None? then None
      else
        var found := FirstNamed(children.value, segments[0]);
        if found.None? then None else Resolve(api, found.value.id, segments[1..])
  }

  function ResolveFolderId(api: Api, rootId: string, path: string): Option<string> {
    if path == "" then Some(rootId) else Resolve(api, rootId, Split(path, '/'))
  }

  function ItemsOf(files: seq<File>, folderPath: string): seq<Item> {
    seq(|files|, i requires 0 <= i < |files| => Item(ChildPath(folderPath, files[i].name), files[i].id))
  }

  function KeysOf(files: seq<File>, folderPath: string): seq<string> {
    seq(|files|, i requires 0 <= i < |files| => ChildPath(folderPath, files[i].name))
  }

  /** The files of the folder at `path`; `None` where the source throws. */
  function FilesAt(api: Api, rootId: string, path: string): Option<seq<File>> {
    var id := ResolveFolderId(api, rootId, path);
    if id.None? then None else FilesUnder(api, id.value)
  }

  // ----- on a hosted tree -----

  lemma {:induction false} FirstNamedIsChild(folders: seq<Tree>, children: seq<Child>, name: string)
    requires |children| == |folders|
    requires forall i :: 0 <= i < |folders| ==> children[i] == Child(folders[i].id, folders[i].name)
    ensures FindChild(folders, name).None? <==> FirstNamed(children, name).None?
    ensures FindChild(folders, name).Some? ==>
              FirstNamed(children, name) == Some(children[FindChild(folders, name).value])
    decreases |folders|
  {
    if folders != [] && folders[0].name != name { FirstNamedIsChild(folders[1..], children[1..], name); }
  }

  /** Looking segments up one by one on the service is descending the tree by names. */
  lemma {:induction false} ResolveDescends(api: Api, t: Tree, segments: seq<string>)
    requires Hosts(api, t)
    ensures Resolve(api, t.id, segments)
         == (if Descend(t, segments).Some? then Some(Descend(t, segments).value.id) else None)
    ensures Descend(t, segments).Some? ==> Hosts(api, Descend(t, segments).value)
    decreases |segments|
  {
    if segments != [] {
      FirstNamedIsChild(t.folders, ChildrenOf(t), segments[0]);
      var k := FindChild(t.folders, segments[0]);
      if k.Some? {
        assert Hosts(api, t.folders[k.value]);
        ResolveDescends(api, t.folders[k.value], segments[1..]);
      }
    }
  }

  /** The lookup inverts the enumeration: every enumerated path resolves to the id it was enumerated with. */
  lemma ResolveInverts(api: Api, t: Tree, f: Folder)
    requires Hosts(api, t) && WellNamed(t) && f in AllFolders(t)
    ensures ResolveFolderId(api, t.id, f.path) == Some(f.id)
  {
    var i :| 0 <= i < |AllFolders(t)| && AllFolders(t)[i] == f;
    var names := EntryHasWay(t, i);
    hide Hosts, WellNamed, AllFolders, GoodName;
    if names == [] {
      assert Descend(t, names) == Some(t);
    } else {
      assert GoodName(names[0]);
      JoinNotEmpty(names);
      assert forall k :: 0 <= k < |names| ==> GoodName(names[k]);
      NoSlash(names);
      SplitJoin(names, '/');
      ResolveDescends(api, t, names);
    }
  }

  lemma NoSlash(names: seq<string>)
    requires forall k :: 0 <= k < |names| ==> GoodName(names[k])
    ensures forall k :: 0 <= k < |names| ==> '/' !in names[k]
  {
  }

  /** And nothing else resolves: a path that names an id is the path of an enumerated folder. */
  lemma OnlyFoldersResolve(api: Api, t: Tree, path: string)
    requires Hosts(api, t) && WellNamed(t) && ResolveFolderId(api, t.id, path).Some?
    ensures Folder(path, ResolveFolderId(api, t.id, path).value) in AllFolders(t)
  {
    if path == "" {
      assert AllFolders(t)[0] == Folder("", t.id);
    } else {
      var names := Split(path, '/');
      ResolveDescends(api, t, names);
      WayHasEntry(t, names);
    }
  }

  /** A folder's listing holds its files and no others, each under the key of its place in the tree. */
  lemma FilesOfFolder(api: Api, t: Tree, names: seq<string>)
    requires Hosts(api, t) && WellNamed(t) && Descend(t, names).Some?
    ensures FilesAt(api, t.id, PathOf(names)) == Some(Descend(t, names).value.files)
  {
    var f := Folder(PathOf(names), Descend(t, names).value.id);
    WayHasEntry(t, names);
    ResolveInverts(api, t, f);
    ResolveDescends(api, t, names);
    assert Hosts(api, Descend(t, names).value);
    hide WellNamed, AllFolders, ResolveFolderId;
  }

  /**
   * Listing a folder answers one item for each of its files: its names joined for a key, and the
   * file's own id to fetch it by.
   */
  lemma ItemsAreTheFiles(api: Api, t: Tree, names: seq<string>)
    requires Hosts(api, t) && WellNamed(t) && Descend(t, names).Some?
    ensures FilesAt(api, t.id, PathOf(names)).Some?
    ensures var files, items := Descend(t, names).value.files, ItemsOf(FilesAt(api, t.id, PathOf(names)).value, PathOf(names));
            && |items| == |files|
            && forall i :: 0 <= i < |files| ==>
                 items[i].path == Join(names + [files[i].name], '/') && items[i].sourceRef == files[i].id
  {
    FilesOfFolder(api, t, names);
    FolderIsWellNamed(t, names);
    hide Hosts, WellNamed, Descend, FilesAt, GoodName, ChildPath;
    var files := Descend(t, names).value.files;
    forall i | 0 <= i < |files| ensures ChildPath(PathOf(names), files[i].name) == PathOf(names + [files[i].name]) {
      KeyIsPath(names, files[i].name);
    }
  }

  /**
   * The enumeration and the listings together cover every file exactly once: each file of
   * each folder is listed under one key, and no key is listed for two.
   */
  lemma EveryFileOnce(api: Api, t: Tree)
    requires Hosts(api, t) && WellNamed(t)
    ensures forall names :: Descend(t, names).Some? ==>
              && Folder(PathOf(names), Descend(t, names).value.id) in AllFolders(t)
              && FilesAt(api, t.id, PathOf(names)) == Some(Descend(t, names).value.files)
    ensures forall f, g, i, j :: f in AllFolders(t) && g in AllFolders(t)
              && FilesAt(api, t.id, f.path).Some? && FilesAt(api, t.id, g.path).Some?
              && 0 <= i < |FilesAt(api, t.id, f.path).value| && 0 <= j < |FilesAt(api, t.id, g.path).value|
              && KeysOf(FilesAt(api, t.id, f.path).value, f.path)[i] == KeysOf(FilesAt(api, t.id, g.path).value, g.path)[j]
              ==> f == g && i == j
  {
    hide Hosts, WellNamed, AllFolders, Descend, FilesAt, PathOf;
    forall names | Descend(t, names).Some?
      ensures Folder(PathOf(names), Descend(t, names).value.id) in AllFolders(t)
      ensures FilesAt(api, t.id, PathOf(names)) == Some(Descend(t, names).value.files)
    {
      WayHasEntry(t, names);
      FilesOfFolder(api, t, names);
    }
    forall f, g, i, j | f in AllFolders(t) && g in AllFolders(t)
        && FilesAt(api, t.id, f.path).Some? && FilesAt(api, t.id, g.path).Some?
        && 0 <= i < |FilesAt(api, t.id, f.path).value| && 0 <= j < |FilesAt(api, t.id, g.path).value|
        && KeysOf(FilesAt(api, t.id, f.path).value, f.path)[i] == KeysOf(FilesAt(api, t.id, g.path).value, g.path)[j]
      ensures f == g && i == j
    {
      OneKeyOneFile(api, t, f, i, g, j);
    }
  }

  lemma OneKeyOneFile(api: Api, t: Tree, f: Folder, i: nat, g: Folder, j: nat)
    requires Hosts(api, t) && WellNamed(t) && f in AllFolders(t) && g in AllFolders(t)
    requires FilesAt(api, t.id, f.path).Some? && FilesAt(api, t.id, g.path).Some?
    requires i < |FilesAt(api, t.id, f.path).value| && j < |FilesAt(api, t.id, g.path).value|
    requires KeysOf(FilesAt(api, t.id, f.path).value, f.path)[i] == KeysOf(FilesAt(api, t.id, g.path).value, g.path)[j]
    ensures f == g && i == j
  {
    var p :| 0 <= p < |AllFolders(t)| && AllFolders(t)[p] == f;
    var q :| 0 <= q < |AllFolders(t)| && AllFolders(t)[q] == g;
    var a := EntryHasWay(t, p);
    var b := EntryHasWay(t, q);
    hide Hosts, WellNamed, AllFolders, Descend, FilesAt, PathOf, ChildPath;
    FilesOfFolder(api, t, a);
    FilesOfFolder(api, t, b);
    FileKeysDiffer(t, a, i, b, j);
  }

  // ----- the connector -----

  /** The account as it stands; others change it between calls. */
  class DriveService {
    var api: Api

    constructor (api: Api)
      ensures this.api == api
    {
      this.api := api;
    }
  }

  class GoogleDriveSource {
    const service: DriveService
    const rootFolderId: string
    var lastListing: Option<(string, seq<string>)>

    constructor (service: DriveService, rootFolderId: string)
      ensures this.service == service && this.rootFolderId == rootFolderId && lastListing == None
    {
      this.service := service;
      this.rootFolderId := rootFolderId;
      lastListing := None;
    }

    method ListChildFolders(folderId: string) returns (r: Option<seq<Child>>)
      ensures r == FoldersUnder(service.api, folderId)
    {
      if folderId !in service.api.folders { return None; }
      var pages := service.api.folders[folderId];
      var found: seq<Child> := [];
      for i := 0 to |pages|
        invariant found == Flatten(pages[..i])
      {
        assert pages[..i + 1][..i] == pages[..i];
        found := found + pages[i];
      }
      assert pages[..|pages|] == pages;
      return Some(found);
    }

    method ListChildFiles(folderId: string) returns (r: Option<seq<File>>)
      ensures r == FilesUnder(service.api, folderId)
    {
      if folderId !in service.api.files { return None; }
      var pages := service.api.files[folderId];
      var found: seq<File> := [];
      for i := 0 to |pages|
        invariant found == Flatten(pages[..i])
      {
        assert pages[..i + 1][..i] == pages[..i];
        found := found + pages[i];
      }
      assert pages[..|pages|] == pages;
      return Some(found);
    }

    /** Every folder under the root, on a drive whose folders form the tree `t`. */
    method ListFolders(ghost t: Tree) returns (out: seq<Folder>)
      requires Hosts(service.api, t) && t.id == rootFolderId
      ensures out == AllFolders(t)
    {
      out := [Folder("", rootFolderId)];
      var below := Walk(rootFolderId, "", t);
      out := out + below;
    }

    method Walk(folderId: string, prefix: string, ghost t: Tree) returns (out: seq<Folder>)
      requires Hosts(service.api, t) && t.id == folderId
      ensures out == Down(t.folders, prefix)
      decreases t
    {
      var children := ListChildFolders(folderId);
      out := [];
      for i := 0 to |children.value|
        invariant out == Down(t.folders[..i], prefix)
      {
        var child := children.value[i];
        assert t.folders[..i + 1][..i] == t.folders[..i];
        assert child == Child(t.folders[i].id, t.folders[i].name);
        var path := ChildPath(prefix, child.name);
        var below := Walk(child.id, path, t.folders[i]);
        out := out + [Folder(path, child.id)] + below;
      }
      assert t.folders[..|t.folders|] == t.folders;
    }

    method ResolveId(path: string) returns (r: Option<string>)
      ensures r == ResolveFolderId(service.api, rootFolderId, path)
    {
      if path == "" { return Some(rootFolderId); }
      var segments := Split(path, '/');
      var current := rootFolderId;
      for i := 0 to |segments|
        invariant Resolve(service.api, rootFolderId, segments) == Resolve(service.api, current, segments[i..])
      {
        assert segments[i..][0] == segments[i] && segments[i..][1..] == segments[i + 1..];
        var children := ListChildFolders(current);
        if children.None? { return None; }
        var found := FirstNamed(children.value, segments[i]);
        if found.None? { return None; }
        current := found.value.id;
      }
      return Some(current);
    }

    /** The folder's files; the keys are kept for the question that follows. */
    method ListSince(path: string) returns (r: Option<seq<Item>>)
      modifies this
      ensures var files := FilesAt(service.api, rootFolderId, path);
              && r == (if files.Some? then Some(ItemsOf(files.value, path)) else None)
              && lastListing == (if files.Some? then Some((path, KeysOf(files.value, path))) else old(lastListing))
    {
      var folderId := ResolveId(path);
      if folderId.None? { return None; }
      var files := ListChildFiles(folderId.value);
      if files.None? { return None; }
      var items: seq<Item> := [];
      var keys: seq<string> := [];
      for i := 0 to |files.value|
        invariant items == ItemsOf(files.value[..i], path) && keys == KeysOf(files.value[..i], path)
      {
        var childPath := ChildPath(path, files.value[i].name);
        items := items + [Item(childPath, files.value[i].id)];
        keys := keys + [childPath];
      }
      assert files.value[..|files.value|] == files.value;
      lastListing := Some((path, keys));
      return Some(items);
    }

    /** The complete key set: from the listing just made, once, or by listing afresh. */
    method ListKeys(path: string) returns (r: Option<seq<string>>)
      modifies this
      ensures lastListing == None
      ensures var files := FilesAt(service.api, rootFolderId, path);
              r == if old(lastListing).Some? && old(lastListing).value.0 == path then Some(old(lastListing).value.1)
                   else if files.Some? then Some(KeysOf(files.value, path)) else None
    {
      var memo := lastListing;
      lastListing := None;
      if memo.Some? && memo.value.0 == path { return Some(memo.value.1); }
      var folderId := ResolveId(path);
      if folderId.None? { return None; }
      var files := ListChildFiles(folderId.value);
      if files.None? { return None; }
      return Some(KeysOf(files.value, path));
    }

    /**
     * The order the sync loop asks in. Whatever was listed before, the keys are those a
     * fresh listing would give, they are the keys of the items, and the memo is spent.
     */
    method ListSinceThenKeys(path: string) returns (items: Option<seq<Item>>, keys: Option<seq<string>>)
      modifies this
      ensures lastListing == None
      ensures var files := FilesAt(service.api, rootFolderId, path);
              files.Some? ==>
                && keys == Some(KeysOf(files.value, path))
                && items.Some? && |items.value| == |keys.value|
                && forall i :: 0 <= i < |items.value| ==> items.value[i].path == keys.value[i]
    {
      items := ListSince(path);
      keys := ListKeys(path);
    }
  }
}
