/**
 * The Graph mail source's folder listing: a breadth-first walk that builds paths and the map
 * from path to folder id, set against the depth-first enumeration of the same tree.
 */
module GraphMailFolders {
  import opened Outcomes
  import opened Sequences
  import opened Text
  import opened DriveTree

  datatype Role = Inbox | Sent | Drafts | Archive | Junk | Trash

  const WELL_KNOWN: seq<Role> := [Inbox, Sent, Drafts, Archive, Junk, Trash]

  /** A folder as it is listed, with the role its id or else its name gives it. */
  datatype MailFolder = MailFolder(path: string, name: string, use: Option<Role>)

  // ----- the walk over a tree -----

  /** A listing still to be made: the folders it will answer, and where they hang. */
  datatype Task = Task(id: string, parentPath: string, folders: seq<Tree>)

  function Row(folders: seq<Tree>, prefix: string): seq<Folder> {
    if folders == [] then []
    else
      var n := |folders| - 1;
      Row(folders[..n], prefix) + [Folder(ChildPath(prefix, folders[n].name), folders[n].id)]
  }

  /** The listings a row of folders asks for: one for each folder that says it has children. */
  function Next(folders: seq<Tree>, prefix: string): seq<Task> {
    if folders == [] then []
    else
      var n := |folders| - 1;
      Next(folders[..n], prefix) + NextOf(folders[n], prefix)
  }

  function Size(folders: seq<Tree>): nat
    decreases folders
  {
    if folders == [] then 0 else Size(folders[..|folders| - 1]) + Size(folders[|folders| - 1].folders) + 1
  }

  function QueueSize(queue: seq<Task>): nat {
    if queue == [] then 0 else QueueSize(queue[..|queue| - 1]) + Size(queue[|queue| - 1].folders) + 1
  }

  lemma {:induction false} QueueSizeAppend(a: seq<Task>, b: seq<Task>)
    ensures QueueSize(a + b) == QueueSize(a) + QueueSize(b)
  {
    if b == [] {
      assert a + b == a;
    } else {
      var n := |b| - 1;
      assert (a + b)[..|a + b| - 1] == a + b[..n] && (a + b)[|a + b| - 1] == b[n];
      QueueSizeAppend(a, b[..n]);
    }
  }

  lemma OneTask(task: Task)
    ensures QueueSize([task]) == Size(task.folders) + 1
    ensures DownAll([task]) == Down(task.folders, task.parentPath)
  {
    assert [task][..0] == [];
    assert DownAll([]) == [] && [] + Down(task.folders, task.parentPath) == Down(task.folders, task.parentPath);
  }

  function NextOf(t: Tree, prefix: string): seq<Task> {
    if t.folders != [] then [Task(t.id, ChildPath(prefix, t.name), t.folders)] else []
  }

  lemma {:induction false} NextSize(folders: seq<Tree>, prefix: string)
    ensures QueueSize(Next(folders, prefix)) <= Size(folders)
  {
    if folders != [] {
      var n := |folders| - 1;
      var more := NextOf(folders[n], prefix);
      NextSize(folders[..n], prefix);
      QueueSizeAppend(Next(folders[..n], prefix), more);
      if more != [] { OneTask(more[0]); }
      hide QueueSize;
      assert Size(folders) == Size(folders[..n]) + Size(folders[n].folders) + 1;
    }
  }

  lemma QueueShrinks(queue: seq<Task>)
    requires queue != []
    ensures QueueSize(queue[1..] + Next(queue[0].folders, queue[0].parentPath)) < QueueSize(queue)
  {
    var task := queue[0];
    QueueSizeAppend([task], queue[1..]);
    assert [task] + queue[1..] == queue;
    OneTask(task);
    QueueSizeAppend(queue[1..], Next(task.folders, task.parentPath));
    NextSize(task.folders, task.parentPath);
  }

  /** The breadth-first walk; `None` where a listing fails, which throws. */
  function Bfs(queue: seq<Task>, fails: string -> bool): Option<seq<Folder>>
    decreases QueueSize(queue)
  {
    if queue == [] then Some([])
    else if fails(queue[0].id) then None
    else
      var task := queue[0];
      QueueShrinks(queue);
      var rest := Bfs(queue[1..] + Next(task.folders, task.parentPath), fails);
      if rest.None? then None else Some(Row(task.folders, task.parentPath) + rest.value)
  }

  function RowNames(folders: seq<Tree>): seq<string> {
    if folders == [] then []
    else RowNames(folders[..|folders| - 1]) + [folders[|folders| - 1].name]
  }

  /** The names of the folders, in the order the walk comes to them. */
  function BfsNames(queue: seq<Task>): seq<string>
    decreases QueueSize(queue)
  {
    if queue == [] then []
    else
      var task := queue[0];
      QueueShrinks(queue);
      RowNames(task.folders) + BfsNames(queue[1..] + Next(task.folders, task.parentPath))
  }

  // ----- the roles -----

  /** The ids of the well-known folders; `None` where resolving one fails, a missing one being none. */
  function Roles(answers: seq<Result<Option<string>>>): Option<map<string, Role>>
    requires |answers| <= |WELL_KNOWN|
  {
    if answers == [] then Some(map[])
    else
      var n := |answers| - 1;
      var before := Roles(answers[..n]);
      if before.None? || answers[n].Err? then None
      else if answers[n].value.None? then before
      else Some(before.value[answers[n].value.value := WELL_KNOWN[n]])
  }

  function Use(roles: map<string, Role>, byName: string -> Option<Role>, id: string, name: string): Option<Role> {
    if id in roles then Some(roles[id]) else byName(name)
  }

  /** Last one in wins, as in a JavaScript map. */
  function IdsOf(folders: seq<Folder>): map<string, string> {
    if folders == [] then map[]
    else IdsOf(folders[..|folders| - 1])[folders[|folders| - 1].path := folders[|folders| - 1].id]
  }

  /** The service answers every listing of these folders. */
  predicate Served(api: Api, task: Task) {
    && task.id in api.folders
    && |Flatten(api.folders[task.id])| == |task.folders|
    && (forall i :: 0 <= i < |task.folders| ==>
          && Flatten(api.folders[task.id])[i] == Child(task.folders[i].id, task.folders[i].name)
          && Hosts(api, task.folders[i]))
  }

  lemma HostsServed(api: Api, t: Tree, parentPath: string)
    requires Hosts(api, t)
    ensures Served(api, Task(t.id, parentPath, t.folders))
  {
  }

  // ----- the source -----

  class GraphMailSource {
    var folderIds: map<string, string>

    constructor ()
      ensures folderIds == map[]
    {
      folderIds := map[];
    }

    /**
     * `counts` is the number of children a listing reports for a folder; `wellKnown` what
     * the six well-known names resolve to.
     */
    method ListFolders(api: Api, ghost t: Tree, rootId: string, counts: string -> nat, fails: string -> bool,
                       wellKnown: seq<Result<Option<string>>>, byName: string -> Option<Role>)
        returns (r: Option<seq<MailFolder>>)
      requires Hosts(api, t) && t.id == rootId && |wellKnown| == |WELL_KNOWN| && Counted(t, counts)
      modifies this
      ensures r.Some? <==> Roles(wellKnown).Some? && Bfs([Task(t.id, "", t.folders)], fails).Some?
      ensures r.None? ==> folderIds == old(folderIds)
      ensures r.Some? ==>
                var all := Bfs([Task(t.id, "", t.folders)], fails).value;
                var names := BfsNames([Task(t.id, "", t.folders)]);
                && folderIds == IdsOf(all) && |r.value| == |all| == |names|
                && forall i :: 0 <= i < |all| ==>
                     && r.value[i].path == all[i].path && r.value[i].name == names[i]
                     && r.value[i].use == Use(Roles(wellKnown).value, byName, all[i].id, names[i])
    {
      var resolved := ResolveRoles(wellKnown);
      if resolved.None? { return None; }
      var roleById := resolved.value;

      var folders: seq<MailFolder> := [];
      var ids: map<string, string> := map[];
      var queue: seq<(string, string)> := [(rootId, "")];
      ghost var tasks := [Task(t.id, "", t.folders)];
      ghost var all: seq<Folder> := [];
      ghost var names: seq<string> := [];
      HostsServed(api, t, "");
      OntoNothing(Bfs(tasks, fails));
      assert Bfs([], fails) == Some([]) && BfsNames([]) == [];
      hide Bfs, BfsNames, Hosts, Served, Counted, AllCounted, Use, Row, RowNames, Next, IdsOf, Shown, Roles;
      hide QueueSize, Pending, Onto;
      ghost var whole, wholeNames := Bfs(tasks, fails), BfsNames(tasks);
      assert [] + BfsNames(tasks) == BfsNames(tasks);
      while |queue| > 0
        invariant folderIds == old(folderIds)
        invariant Pending(api, counts, queue, tasks)
        invariant whole == Onto(all, Bfs(tasks, fails)) && wholeNames == names + BfsNames(tasks)
        invariant ids == IdsOf(all) && Shown(folders, all, names, roleById, byName)
        decreases QueueSize(tasks)
      {
        PendingHead(api, counts, queue, tasks);
        var (id, parentPath) := queue[0];
        ghost var task := tasks[0];
        if fails(id) {
          BfsFails(tasks, fails);
          OntoNone(all);
          return None;
        }
        ServedListing(api, task);
        AdvanceShows(api, task, |task.folders|, counts, roleById, byName, Walked(folders, ids, []), all, names);
        var w := ListOne(api.folders[id], parentPath, counts, roleById, byName, Walked(folders, ids, []));
        folders, ids := w.folders, w.ids;
        BfsStep(tasks, fails);
        NamesStep(tasks, names);
        PendingStep(api, counts, queue, tasks, w.added, Next(task.folders, task.parentPath));
        queue := queue[1..] + w.added;
        tasks := tasks[1..] + Next(task.folders, task.parentPath);
        OntoStep(all, Row(task.folders, parentPath), Bfs(tasks, fails));
        all := all + Row(task.folders, parentPath);
        names := names + RowNames(task.folders);
      }
      PendingNone(api, counts, tasks);
      OntoAll(all);
      assert names + [] == names;
      folderIds := ids;
      return Some(folders);
    }
  }

  /** The well-known folders first, so that a role goes by id. */
  method ResolveRoles(wellKnown: seq<Result<Option<string>>>) returns (r: Option<map<string, Role>>)
    requires |wellKnown| == |WELL_KNOWN|
    ensures r == Roles(wellKnown)
  {
    var roleById: map<string, Role> := map[];
    for k := 0 to |WELL_KNOWN|
      invariant Roles(wellKnown[..k]) == Some(roleById)
    {
      assert wellKnown[..k + 1][..k] == wellKnown[..k];
      match wellKnown[k] {
        case Err =>
          RolesFail(wellKnown, k);
          return None;
        case Ok(None) =>
        case Ok(Some(id)) => roleById := roleById[id := WELL_KNOWN[k]];
      }
    }
    assert wellKnown[..|WELL_KNOWN|] == wellKnown;
    return Some(roleById);
  }

  function Onto(all: seq<Folder>, rest: Option<seq<Folder>>): Option<seq<Folder>> {
    if rest.None? then None else Some(all + rest.value)
  }

  lemma OntoNothing(rest: Option<seq<Folder>>)
    ensures Onto([], rest) == rest
  {
    if rest.Some? { assert [] + rest.value == rest.value; }
  }

  lemma BfsFails(queue: seq<Task>, fails: string -> bool)
    requires queue != [] && fails(queue[0].id)
    ensures Bfs(queue, fails).None?
  {
  }

  lemma NamesStep(queue: seq<Task>, names: seq<string>)
    requires queue != []
    ensures names + BfsNames(queue)
         == names + RowNames(queue[0].folders) + BfsNames(queue[1..] + Next(queue[0].folders, queue[0].parentPath))
  {
    QueueShrinks(queue);
    var rest := BfsNames(queue[1..] + Next(queue[0].folders, queue[0].parentPath));
    assert names + (RowNames(queue[0].folders) + rest) == names + RowNames(queue[0].folders) + rest;
  }

  lemma OntoNone(all: seq<Folder>)
    ensures Onto(all, None) == None
  {
  }

  lemma OntoAll(all: seq<Folder>)
    ensures Onto(all, Some([])) == Some(all)
  {
    assert all + [] == all;
  }

  lemma PendingNone(api: Api, counts: string -> nat, tasks: seq<Task>)
    requires Pending(api, counts, [], tasks)
    ensures tasks == []
  {
  }

  lemma OntoStep(all: seq<Folder>, row: seq<Folder>, rest: Option<seq<Folder>>)
    ensures Onto(all, Onto(row, rest)) == Onto(all + row, rest)
  {
    if rest.Some? { assert all + (row + rest.value) == all + row + rest.value; }
  }

  /** A folder says it has children exactly when it does. */
  predicate Counted(t: Tree, counts: string -> nat) {
    forall i :: 0 <= i < |t.folders| ==>
      (counts(t.folders[i].id) > 0 <==> t.folders[i].folders != []) && Counted(t.folders[i], counts)
  }

  predicate AllCounted(folders: seq<Tree>, counts: string -> nat) {
    forall i :: 0 <= i < |folders| ==>
      (counts(folders[i].id) > 0 <==> folders[i].folders != []) && Counted(folders[i], counts)
  }

  predicate Pending(api: Api, counts: string -> nat, queue: seq<(string, string)>, tasks: seq<Task>) {
    |queue| == |tasks| && forall i :: 0 <= i < |tasks| ==>
      queue[i] == (tasks[i].id, tasks[i].parentPath) && Served(api, tasks[i]) && AllCounted(tasks[i].folders, counts)
  }

  predicate Shown(folders: seq<MailFolder>, all: seq<Folder>, names: seq<string>, roles: map<string, Role>,
                  byName: string -> Option<Role>)
  {
    |folders| == |all| == |names| && forall i :: 0 <= i < |all| ==>
      folders[i] == MailFolder(all[i].path, names[i], Use(roles, byName, all[i].id, names[i]))
  }

  lemma ServedListing(api: Api, task: Task)
    requires Served(api, task)
    ensures task.id in api.folders && task.folders[..|task.folders|] == task.folders
    ensures Flatten(api.folders[task.id])[..|task.folders|] == Flatten(api.folders[task.id])
  {
    hide Hosts, Flatten;
  }

  lemma PendingHead(api: Api, counts: string -> nat, queue: seq<(string, string)>, tasks: seq<Task>)
    requires Pending(api, counts, queue, tasks) && queue != []
    ensures tasks != [] && queue[0] == (tasks[0].id, tasks[0].parentPath)
    ensures Served(api, tasks[0]) && AllCounted(tasks[0].folders, counts)
  {
  }

  lemma PendingStep(api: Api, counts: string -> nat, queue: seq<(string, string)>, tasks: seq<Task>,
                    added: seq<(string, string)>, next: seq<Task>)
    requires Pending(api, counts, queue, tasks) && queue != [] && Pending(api, counts, added, next)
    ensures Pending(api, counts, queue[1..] + added, tasks[1..] + next)
  {
    hide Served, AllCounted;
  }

  lemma {:induction false} RolesFail(answers: seq<Result<Option<string>>>, k: nat)
    requires k < |answers| <= |WELL_KNOWN| && answers[k].Err?
    ensures Roles(answers).None?
  {
    if k < |answers| - 1 { RolesFail(answers[..|answers| - 1], k); }
  }

  /** What the walk keeps as it goes through listings: the folders, their ids, and the listings to make. */
  datatype Walked = Walked(folders: seq<MailFolder>, ids: map<string, string>, added: seq<(string, string)>)

  function Advance(w: Walked, f: Child, parentPath: string, counts: string -> nat, roles: map<string, Role>,
                   byName: string -> Option<Role>): Walked
  {
    var path := ChildPath(parentPath, f.name);
    Walked(w.folders + [MailFolder(path, f.name, Use(roles, byName, f.id, f.name))],
           w.ids[path := f.id],
           if counts(f.id) > 0 then w.added + [(f.id, path)] else w.added)
  }

  function AdvanceAll(w: Walked, fs: seq<Child>, parentPath: string, counts: string -> nat, roles: map<string, Role>,
                      byName: string -> Option<Role>): Walked
  {
    if fs == [] then w
    else
      var n := |fs| - 1;
      Advance(AdvanceAll(w, fs[..n], parentPath, counts, roles, byName), fs[n], parentPath, counts, roles, byName)
  }

  /** One listing, page after page. */
  method ListOne(pages: seq<seq<Child>>, parentPath: string, counts: string -> nat, roleById: map<string, Role>,
                 byName: string -> Option<Role>, before: Walked) returns (w: Walked)
    ensures w == AdvanceAll(before, Flatten(pages), parentPath, counts, roleById, byName)
  {
    hide AdvanceAll, Flatten, Use, ChildPath;
    w := before;
    AdvanceNone(before, pages, parentPath, counts, roleById, byName);
    for p := 0 to |pages|
      invariant w == AdvanceAll(before, Flatten(pages[..p]), parentPath, counts, roleById, byName)
    {
      var page := pages[p];
      ghost var done := Flatten(pages[..p]);
      assert done + page[..0] == done;
      for i := 0 to |page|
        invariant w == AdvanceAll(before, done + page[..i], parentPath, counts, roleById, byName)
      {
        var f := page[i];
        assert done + page[..i + 1] == done + page[..i] + [f];
        AdvanceSnoc(before, done + page[..i], f, parentPath, counts, roleById, byName);
        var path := ChildPath(parentPath, f.name);
        var folders := w.folders + [MailFolder(path, f.name, Use(roleById, byName, f.id, f.name))];
        var ids := w.ids[path := f.id];
        var added := if counts(f.id) > 0 then w.added + [(f.id, path)] else w.added;
        w := Walked(folders, ids, added);
      }
      assert page[..|page|] == page;
      FlattenSnoc(pages, p);
    }
    assert pages[..|pages|] == pages;
  }

  lemma AdvanceSnoc(w: Walked, fs: seq<Child>, f: Child, parentPath: string, counts: string -> nat,
                    roles: map<string, Role>, byName: string -> Option<Role>)
    ensures AdvanceAll(w, fs + [f], parentPath, counts, roles, byName)
         == Advance(AdvanceAll(w, fs, parentPath, counts, roles, byName), f, parentPath, counts, roles, byName)
  {
    assert (fs + [f])[..|fs|] == fs;
    hide Advance;
  }

  lemma AdvanceNone(w: Walked, pages: seq<seq<Child>>, parentPath: string, counts: string -> nat,
                    roles: map<string, Role>, byName: string -> Option<Role>)
    ensures Flatten(pages[..0]) == [] && AdvanceAll(w, [], parentPath, counts, roles, byName) == w
  {
    hide Advance;
  }

  lemma FlattenSnoc(pages: seq<seq<Child>>, p: nat)
    requires p < |pages|
    ensures Flatten(pages[..p + 1]) == Flatten(pages[..p]) + pages[p]
  {
    assert pages[..p + 1][..p] == pages[..p];
  }

  /** After the first `k` folders of a listing, what is kept is what the walk over the tree shows. */
  ghost predicate Standing(api: Api, task: Task, k: nat, counts: string -> nat, roles: map<string, Role>,
                           byName: string -> Option<Role>, w: Walked, all: seq<Folder>, names: seq<string>)
    requires k <= |task.folders|
  {
    var row := Row(task.folders[..k], task.parentPath);
    && Shown(w.folders, all + row, names + RowNames(task.folders[..k]), roles, byName) && w.ids == IdsOf(all + row)
    && Pending(api, counts, w.added, Next(task.folders[..k], task.parentPath))
  }

  lemma StandingStart(api: Api, task: Task, counts: string -> nat, roles: map<string, Role>,
                      byName: string -> Option<Role>, w: Walked, all: seq<Folder>, names: seq<string>)
    requires w.added == [] && w.ids == IdsOf(all) && Shown(w.folders, all, names, roles, byName)
    ensures Standing(api, task, 0, counts, roles, byName, w, all, names)
  {
    assert task.folders[..0] == [] && all + [] == all && names + [] == names;
  }

  lemma ServedLength(api: Api, task: Task)
    requires Served(api, task)
    ensures task.id in api.folders && |Flatten(api.folders[task.id])| == |task.folders|
  {
  }

  lemma {:induction false} AdvanceShows(api: Api, task: Task, k: nat, counts: string -> nat, roles: map<string, Role>,
                                        byName: string -> Option<Role>, before: Walked, all: seq<Folder>,
                                        names: seq<string>)
    requires Served(api, task) && AllCounted(task.folders, counts) && k <= |task.folders| && before.added == []
    requires before.ids == IdsOf(all) && Shown(before.folders, all, names, roles, byName)
    ensures Standing(api, task, k, counts, roles, byName,
                     AdvanceAll(before, Flatten(api.folders[task.id])[..k], task.parentPath, counts, roles, byName), all, names)
  {
    ServedLength(api, task);
    hide *;
    if k == 0 {
      AdvanceNone(before, [], task.parentPath, counts, roles, byName);
      assert Flatten(api.folders[task.id])[..0] == [];
      StandingStart(api, task, counts, roles, byName, before, all, names);
    } else {
      ServedAt(api, task, k - 1, counts);
      var fs := Flatten(api.folders[task.id]);
      AdvanceShows(api, task, k - 1, counts, roles, byName, before, all, names);
      assert fs[..k] == fs[..k - 1] + [fs[k - 1]];
      AdvanceSnoc(before, fs[..k - 1], fs[k - 1], task.parentPath, counts, roles, byName);
      AdvanceStep(api, task, k - 1, counts, roles, byName,
                  AdvanceAll(before, fs[..k - 1], task.parentPath, counts, roles, byName), all, names);
    }
  }

  lemma ServedAt(api: Api, task: Task, k: nat, counts: string -> nat)
    requires Served(api, task) && AllCounted(task.folders, counts) && k < |task.folders|
    ensures var t := task.folders[k];
            && task.id in api.folders && |Flatten(api.folders[task.id])| == |task.folders|
            && Flatten(api.folders[task.id])[k] == Child(t.id, t.name)
            && Served(api, Task(t.id, ChildPath(task.parentPath, t.name), t.folders)) && AllCounted(t.folders, counts)
  {
    var t := task.folders[k];
    TreeServed(api, t, counts, ChildPath(task.parentPath, t.name));
    hide Hosts, Counted, Flatten;
  }

  lemma AdvanceStep(api: Api, task: Task, k: nat, counts: string -> nat, roles: map<string, Role>,
                    byName: string -> Option<Role>, w: Walked, all: seq<Folder>, names: seq<string>)
    requires k < |task.folders| && AllCounted(task.folders, counts)
    requires var t := task.folders[k];
             Served(api, Task(t.id, ChildPath(task.parentPath, t.name), t.folders)) && AllCounted(t.folders, counts)
    requires Standing(api, task, k, counts, roles, byName, w, all, names)
    ensures var t := task.folders[k];
            Standing(api, task, k + 1, counts, roles, byName,
                     Advance(w, Child(t.id, t.name), task.parentPath, counts, roles, byName), all, names)
  {
    var t, row, rowNames := task.folders[k], Row(task.folders[..k], task.parentPath), RowNames(task.folders[..k]);
    var path := ChildPath(task.parentPath, t.name);
    RowSnoc(task.folders, k, task.parentPath);
    hide Served, Row, RowNames, Next, IdsOf, Shown, Use, ChildPath;
    assert names + (rowNames + [t.name]) == names + rowNames + [t.name];
    assert all + (row + [Folder(path, t.id)]) == all + row + [Folder(path, t.id)];
    ShownSnoc(w.folders, all + row, names + rowNames, roles, byName,
              MailFolder(path, t.name, Use(roles, byName, t.id, t.name)), t.id);
    PendingSnoc(api, counts, w.added, Next(task.folders[..k], task.parentPath), t, task.parentPath);
    assert counts(t.id) > 0 <==> t.folders != [];
    hide Pending, AllCounted;
  }

  lemma PendingSnoc(api: Api, counts: string -> nat, added: seq<(string, string)>, next: seq<Task>, t: Tree, parentPath: string)
    requires Pending(api, counts, added, next)
    requires Served(api, Task(t.id, ChildPath(parentPath, t.name), t.folders)) && AllCounted(t.folders, counts)
    ensures Pending(api, counts, if t.folders != [] then added + [(t.id, ChildPath(parentPath, t.name))] else added,
                    next + NextOf(t, parentPath))
  {
    hide Served, AllCounted, ChildPath;
    assert next + [] == next;
  }

  lemma TreeServed(api: Api, tree: Tree, counts: string -> nat, path: string)
    requires Hosts(api, tree) && Counted(tree, counts)
    ensures Served(api, Task(tree.id, path, tree.folders)) && AllCounted(tree.folders, counts)
  {
    HostsServed(api, tree, path);
  }

  lemma RowSnoc(folders: seq<Tree>, k: nat, prefix: string)
    requires k < |folders|
    ensures Row(folders[..k + 1], prefix)
         == Row(folders[..k], prefix) + [Folder(ChildPath(prefix, folders[k].name), folders[k].id)]
    ensures RowNames(folders[..k + 1]) == RowNames(folders[..k]) + [folders[k].name]
    ensures Next(folders[..k + 1], prefix) == Next(folders[..k], prefix) + NextOf(folders[k], prefix)
  {
    assert folders[..k + 1][..k] == folders[..k];
  }

  lemma ShownSnoc(folders: seq<MailFolder>, all: seq<Folder>, names: seq<string>, roles: map<string, Role>,
                  byName: string -> Option<Role>, folder: MailFolder, id: string)
    requires Shown(folders, all, names, roles, byName) && folder.use == Use(roles, byName, id, folder.name)
    ensures Shown(folders + [folder], all + [Folder(folder.path, id)], names + [folder.name], roles, byName)
    ensures IdsOf(all + [Folder(folder.path, id)]) == IdsOf(all)[folder.path := id]
  {
    assert (all + [Folder(folder.path, id)])[..|all|] == all;
  }

  // ----- breadth first is depth first, reordered -----

  function DownAll(queue: seq<Task>): seq<Folder> {
    if queue == [] then []
    else DownAll(queue[..|queue| - 1]) + Down(queue[|queue| - 1].folders, queue[|queue| - 1].parentPath)
  }

  lemma {:induction false} DownAllAppend(a: seq<Task>, b: seq<Task>)
    ensures multiset(DownAll(a + b)) == multiset(DownAll(a)) + multiset(DownAll(b))
  {
    if b == [] {
      assert a + b == a;
    } else {
      var n := |b| - 1;
      assert (a + b)[..|a + b| - 1] == a + b[..n] && (a + b)[|a + b| - 1] == b[n];
      DownAllAppend(a, b[..n]);
    }
  }

  /** A subtree is its first row and what lies below that row. */
  lemma {:induction false} DownIsRowAndNext(folders: seq<Tree>, prefix: string)
    ensures multiset(Down(folders, prefix)) == multiset(Row(folders, prefix)) + multiset(DownAll(Next(folders, prefix)))
  {
    if folders != [] {
      var n := |folders| - 1;
      var path := ChildPath(prefix, folders[n].name);
      var f := Folder(path, folders[n].id);
      var more := NextOf(folders[n], prefix);
      DownIsRowAndNext(folders[..n], prefix);
      assert Down(folders, prefix) == Down(folders[..n], prefix) + [f] + Down(folders[n].folders, path);
      assert Row(folders, prefix) == Row(folders[..n], prefix) + [f];
      assert Next(folders, prefix) == Next(folders[..n], prefix) + more;
      OptionalDown(folders[n], prefix);
      hide Down, Row, Next, DownAll, NextOf;
      DownAllAppend(Next(folders[..n], prefix), more);
    }
  }

  lemma OptionalDown(t: Tree, prefix: string)
    ensures DownAll(NextOf(t, prefix)) == Down(t.folders, ChildPath(prefix, t.name))
  {
    if t.folders != [] { OneTask(NextOf(t, prefix)[0]); }
  }

  lemma BfsStep(queue: seq<Task>, fails: string -> bool)
    requires queue != [] && !fails(queue[0].id)
    ensures QueueSize(queue[1..] + Next(queue[0].folders, queue[0].parentPath)) < QueueSize(queue)
    ensures Bfs(queue, fails)
         == Onto(Row(queue[0].folders, queue[0].parentPath),
                 Bfs(queue[1..] + Next(queue[0].folders, queue[0].parentPath), fails))
  {
    QueueShrinks(queue);
  }

  lemma QueueDown(queue: seq<Task>)
    requires queue != []
    ensures var row, next := Row(queue[0].folders, queue[0].parentPath), Next(queue[0].folders, queue[0].parentPath);
            multiset(DownAll(queue)) == multiset(row) + multiset(DownAll(queue[1..] + next))
  {
    hide *;
    var task := queue[0];
    DownAllAppend([task], queue[1..]);
    assert [task] + queue[1..] == queue;
    OneTask(task);
    DownAllAppend(queue[1..], Next(task.folders, task.parentPath));
    DownIsRowAndNext(task.folders, task.parentPath);
  }

  lemma OntoCounts(row: seq<Folder>, rest: Option<seq<Folder>>)
    ensures Onto(row, rest).Some? <==> rest.Some?
    ensures rest.Some? ==> multiset(Onto(row, rest).value) == multiset(row) + multiset(rest.value)
  {
  }

  /** A walk that completes lists exactly the folders of the tree, each as often as depth first would. */
  lemma {:induction false} BfsIsDown(queue: seq<Task>, fails: string -> bool)
    ensures Bfs(queue, fails).Some? ==> multiset(Bfs(queue, fails).value) == multiset(DownAll(queue))
    decreases QueueSize(queue)
  {
    if queue != [] && !fails(queue[0].id) {
      var task := queue[0];
      var next := Next(task.folders, task.parentPath);
      BfsStep(queue, fails);
      hide *;
      BfsIsDown(queue[1..] + next, fails);
      QueueDown(queue);
      var rest := Bfs(queue[1..] + next, fails);
      OntoCounts(Row(task.folders, task.parentPath), rest);
    }
  }

  lemma {:induction false} IdsExactly(folders: seq<Folder>)
    requires forall i, j :: 0 <= i < j < |folders| ==> folders[i].path != folders[j].path
    ensures IdsOf(folders).Keys == set f | f in folders :: f.path
    ensures forall f :: f in folders ==> f.path in IdsOf(folders) && IdsOf(folders)[f.path] == f.id
  {
    if folders != [] {
      var n := |folders| - 1;
      IdsExactly(folders[..n]);
      assert folders == folders[..n] + [folders[n]];
    }
  }

  lemma DistinctCarries(a: seq<Folder>, b: seq<Folder>)
    requires multiset(a) == multiset(b)
    requires forall i, j :: 0 <= i < j < |a| ==> a[i].path != a[j].path
    ensures forall i, j :: 0 <= i < j < |b| ==> b[i].path != b[j].path
  {
    forall i, j | 0 <= i < j < |b| ensures b[i].path != b[j].path {
      if b[i].path == b[j].path {
        assert b[i] in multiset(a) && b[j] in multiset(a);
        var x :| 0 <= x < |a| && a[x] == b[i];
        var y :| 0 <= y < |a| && a[y] == b[j];
        assert x == y;
        Twice(b, i, j);
        Once(a, x);
      }
    }
  }

  lemma Twice(b: seq<Folder>, i: nat, j: nat)
    requires i < j < |b| && b[i] == b[j]
    ensures multiset(b)[b[i]] >= 2
  {
    assert b == b[..i] + [b[i]] + b[i + 1..j] + [b[j]] + b[j + 1..];
  }

  lemma Once(a: seq<Folder>, x: nat)
    requires x < |a| && forall i, j :: 0 <= i < j < |a| ==> a[i].path != a[j].path
    ensures multiset(a)[a[x]] == 1
  {
    assert a == a[..x] + [a[x]] + a[x + 1..];
    assert a[x] !in a[..x] && a[x] !in a[x + 1..];
  }

  // ----- the names -----

  /** The name is the last segment of the path. */
  predicate EndsIn(path: string, name: string) {
    var segments := Split(path, '/'); segments[|segments| - 1] == name
  }

  lemma ChildEndsInName(prefix: string, name: string)
    requires GoodName(name)
    ensures EndsIn(ChildPath(prefix, name), name)
  {
    hide Split;
    if prefix == "" {
      SplitPlain(name, '/');
    } else {
      LastPart(prefix, name, '/');
      assert prefix + "/" + name == prefix + ['/'] + name;
    }
  }

  /** Path by path the names. */
  predicate NamesMatch(all: seq<Folder>, names: seq<string>) {
    |all| == |names| && forall i :: 0 <= i < |all| ==> EndsIn(all[i].path, names[i])
  }

  lemma {:induction false} RowMatches(folders: seq<Tree>, prefix: string)
    requires forall i :: 0 <= i < |folders| ==> GoodName(folders[i].name)
    ensures NamesMatch(Row(folders, prefix), RowNames(folders))
  {
    hide EndsIn, ChildPath;
    if folders != [] {
      var n := |folders| - 1;
      RowMatches(folders[..n], prefix);
      ChildEndsInName(prefix, folders[n].name);
    }
  }

  predicate TasksWellNamed(queue: seq<Task>) {
    forall i :: 0 <= i < |queue| ==> WellNamedAll(queue[i].folders)
  }

  lemma {:induction false} NextWellNamed(folders: seq<Tree>, prefix: string)
    requires WellNamedAll(folders)
    ensures TasksWellNamed(Next(folders, prefix))
  {
    if folders != [] { NextWellNamed(folders[..|folders| - 1], prefix); }
  }

  lemma MatchesAppend(all: seq<Folder>, names: seq<string>, more: seq<Folder>, moreNames: seq<string>)
    requires NamesMatch(all, names) && NamesMatch(more, moreNames)
    ensures NamesMatch(all + more, names + moreNames)
  {
    hide EndsIn;
  }

  lemma TasksStep(queue: seq<Task>)
    requires TasksWellNamed(queue) && queue != []
    ensures TasksWellNamed(queue[1..] + Next(queue[0].folders, queue[0].parentPath))
    ensures NamesMatch(Row(queue[0].folders, queue[0].parentPath), RowNames(queue[0].folders))
  {
    NextWellNamed(queue[0].folders, queue[0].parentPath);
    assert WellNamedAll(queue[0].folders);
    RowMatches(queue[0].folders, queue[0].parentPath);
    hide WellNamedAll, Row, RowNames, Next, NamesMatch;
  }

  lemma {:induction false} WalkMatches(queue: seq<Task>, fails: string -> bool)
    requires TasksWellNamed(queue) && Bfs(queue, fails).Some?
    ensures NamesMatch(Bfs(queue, fails).value, BfsNames(queue))
    decreases QueueSize(queue)
  {
    if queue != [] {
      var task := queue[0];
      var next := queue[1..] + Next(task.folders, task.parentPath);
      BfsStep(queue, fails);
      NamesStep(queue, []);
      assert [] + BfsNames(queue) == BfsNames(queue) && [] + RowNames(task.folders) == RowNames(task.folders);
      TasksStep(queue);
      hide *;
      WalkMatches(next, fails);
      MatchesAppend(Row(task.folders, task.parentPath), RowNames(task.folders), Bfs(next, fails).value, BfsNames(next));
      OntoIs(Row(task.folders, task.parentPath), Bfs(next, fails));
    }
  }

  lemma OntoIs(row: seq<Folder>, rest: Option<seq<Folder>>)
    ensures Onto(row, rest).Some? <==> rest.Some?
    ensures rest.Some? ==> Onto(row, rest).value == row + rest.value
  {
  }

  /** In a well-named mailbox each folder is listed under the name its path ends in. */
  lemma ListedByName(t: Tree, fails: string -> bool)
    requires WellNamed(t) && Bfs([Task(t.id, "", t.folders)], fails).Some?
    ensures var all, names := Bfs([Task(t.id, "", t.folders)], fails).value, BfsNames([Task(t.id, "", t.folders)]);
            |names| == |all| && forall i :: 0 <= i < |all| ==> EndsIn(all[i].path, names[i])
  {
    assert WellNamedAll(t.folders);
    hide Bfs, BfsNames, WellNamed, EndsIn;
    WalkMatches([Task(t.id, "", t.folders)], fails);
  }

  /**
   * A completed listing of a well-named mailbox holds every folder below the root exactly
   * once, and the map kept for later leads from each folder's path to that folder's id, and
   * from nothing else.
   */
  lemma ListingIsTheTree(t: Tree, fails: string -> bool)
    requires WellNamed(t) && Bfs([Task(t.id, "", t.folders)], fails).Some?
    ensures var all := Bfs([Task(t.id, "", t.folders)], fails).value;
            && multiset(all) == multiset(Down(t.folders, ""))
            && (forall i, j :: 0 <= i < j < |all| ==> all[i].path != all[j].path)
            && (forall f :: f in all ==> IsFolderOf(t, f) && f.path in IdsOf(all) && IdsOf(all)[f.path] == f.id)
            && (forall names :: names != [] && Descend(t, names).Some? ==>
                  PathOf(names) in IdsOf(all) && IdsOf(all)[PathOf(names)] == Descend(t, names).value.id)
            && IdsOf(all).Keys == set f | f in all :: f.path
  {
    var start := [Task(t.id, "", t.folders)];
    var all, down := Bfs(start, fails).value, Down(t.folders, "");
    BfsIsDown(start, fails);
    OneTask(start[0]);
    hide *;
    DownIsTheTree(t);
    DistinctCarries(down, all);
    IdsExactly(all);
    forall f | f in all ensures IsFolderOf(t, f) { assert f in multiset(down); }
    forall names | names != [] && Descend(t, names).Some?
      ensures Folder(PathOf(names), Descend(t, names).value.id) in all
    {
      assert Folder(PathOf(names), Descend(t, names).value.id) in multiset(down);
    }
  }

  lemma DownIsTheTree(t: Tree)
    requires WellNamed(t)
    ensures var down := Down(t.folders, "");
            && (forall i, j :: 0 <= i < j < |down| ==> down[i].path != down[j].path)
            && (forall f :: f in down ==> IsFolderOf(t, f))
            && (forall names :: names != [] && Descend(t, names).Some? ==>
                  Folder(PathOf(names), Descend(t, names).value.id) in down)
  {
    hide WellNamed, Down, Descend, IsFolderOf, PathOf;
    var down, folders := Down(t.folders, ""), AllFolders(t);
    assert folders == [Folder("", t.id)] + down;
    hide AllFolders;
    EnumeratesOnce(t);
    assert forall i :: 0 <= i < |down| ==> down[i] == folders[i + 1];
    TailDiffers(Folder("", t.id), down);
    forall names | names != [] && Descend(t, names).Some?
      ensures Folder(PathOf(names), Descend(t, names).value.id) in down
    {
      WayIsDown(t, names);
    }
  }

  lemma TailDiffers(first: Folder, rest: seq<Folder>)
    requires var all := [first] + rest; forall i, j :: 0 <= i < j < |all| ==> all[i].path != all[j].path
    ensures forall i, j :: 0 <= i < j < |rest| ==> rest[i].path != rest[j].path
  {
    var all := [first] + rest;
    forall i, j | 0 <= i < j < |rest| ensures rest[i].path != rest[j].path {
      assert all[i + 1] == rest[i] && all[j + 1] == rest[j];
    }
  }

  lemma WayIsDown(t: Tree, names: seq<string>)
    requires WellNamed(t) && names != [] && Descend(t, names).Some?
    ensures Folder(PathOf(names), Descend(t, names).value.id) in Down(t.folders, "")
  {
    WayHasEntry(t, names);
    DescendNames(t, names);
    JoinNotEmpty(names);
  }

  lemma {:induction false} DescendNames(t: Tree, names: seq<string>)
    requires WellNamed(t) && names != [] && Descend(t, names).Some?
    ensures GoodName(names[0])
  {
  }

  /** A walk completes exactly when the root's listing and that of every folder with children can be read. */
  lemma {:induction false} CompletesExactly(queue: seq<Task>, fails: string -> bool)
    ensures Bfs(queue, fails).Some? <==> AllRead(queue, fails)
    decreases QueueSize(queue)
  {
    if queue != [] && !fails(queue[0].id) {
      var task := queue[0];
      var next := Next(task.folders, task.parentPath);
      BfsStep(queue, fails);
      hide Bfs, BelowReads, Next, QueueSize;
      CompletesExactly(queue[1..] + next, fails);
      NextReads(task.folders, task.parentPath, fails);
      AllReadAppend(queue[1..], next, fails);
      AllReadAppend([task], queue[1..], fails);
      assert [task] + queue[1..] == queue;
      assert AllRead([task], fails) <==> !fails(task.id) && BelowReads(task.folders, fails);
    }
  }

  /** Every folder below with children of its own can be read. */
  predicate BelowReads(folders: seq<Tree>, fails: string -> bool)
    decreases folders
  {
    forall i :: 0 <= i < |folders| && folders[i].folders != [] ==>
      !fails(folders[i].id) && BelowReads(folders[i].folders, fails)
  }

  lemma {:induction false} NextReads(folders: seq<Tree>, prefix: string, fails: string -> bool)
    ensures BelowReads(folders, fails) <==> AllRead(Next(folders, prefix), fails)
  {
    if folders != [] {
      var n := |folders| - 1;
      var more := NextOf(folders[n], prefix);
      NextReads(folders[..n], prefix, fails);
      BelowSnoc(folders, fails);
      assert Next(folders, prefix) == Next(folders[..n], prefix) + more;
      hide Next, BelowReads;
      AllReadAppend(Next(folders[..n], prefix), more, fails);
      if more != [] { assert AllRead(more, fails) <==> !fails(more[0].id) && BelowReads(more[0].folders, fails); }
    }
  }

  lemma BelowSnoc(folders: seq<Tree>, fails: string -> bool)
    requires folders != []
    ensures var n := |folders| - 1;
            BelowReads(folders, fails) <==>
              BelowReads(folders[..n], fails)
              && (folders[n].folders != [] ==> !fails(folders[n].id) && BelowReads(folders[n].folders, fails))
  {
    var n := |folders| - 1;
    assert forall i :: 0 <= i < n ==> folders[..n][i] == folders[i];
    if BelowReads(folders[..n], fails)
       && (folders[n].folders != [] ==> !fails(folders[n].id) && BelowReads(folders[n].folders, fails)) {
      forall i | 0 <= i < |folders| && folders[i].folders != []
        ensures !fails(folders[i].id) && BelowReads(folders[i].folders, fails)
      {
        if i < n { assert folders[..n][i] == folders[i]; }
      }
    }
  }

  predicate AllRead(queue: seq<Task>, fails: string -> bool) {
    forall i :: 0 <= i < |queue| ==> !fails(queue[i].id) && BelowReads(queue[i].folders, fails)
  }

  lemma AllReadAppend(a: seq<Task>, b: seq<Task>, fails: string -> bool)
    ensures AllRead(a + b, fails) <==> AllRead(a, fails) && AllRead(b, fails)
  {
    hide BelowReads;
    if AllRead(a + b, fails) {
      forall i | 0 <= i < |a| ensures !fails(a[i].id) && BelowReads(a[i].folders, fails) {
        assert (a + b)[i] == a[i];
      }
      forall i | 0 <= i < |b| ensures !fails(b[i].id) && BelowReads(b[i].folders, fails) {
        assert (a + b)[|a| + i] == b[i];
      }
    }
  }

  // ----- roles -----

  /** A folder that a well-known name resolves to, and no later one does, has that role whatever it is called. */
  lemma RoleById(answers: seq<Result<Option<string>>>, k: nat, id: string, byName: string -> Option<Role>, name: string)
    requires |answers| == |WELL_KNOWN| && Roles(answers).Some? && k < |answers| && answers[k] == Ok(Some(id))
    requires forall j :: k < j < |answers| ==> answers[j] != answers[k]
    ensures Use(Roles(answers).value, byName, id, name) == Some(WELL_KNOWN[k])
  {
    RoleKept(answers, k);
  }

  lemma {:induction false} RoleKept(answers: seq<Result<Option<string>>>, k: nat)
    requires k < |answers| <= |WELL_KNOWN| && Roles(answers).Some?
    requires answers[k].Ok? && answers[k].value.Some?
    requires forall j :: k < j < |answers| ==> answers[j] != answers[k]
    ensures var id := answers[k].value.value; id in Roles(answers).value && Roles(answers).value[id] == WELL_KNOWN[k]
  {
    var n := |answers| - 1;
    if k < n {
      assert forall j :: k < j < n ==> answers[..n][j] == answers[j];
      RoleKept(answers[..n], k);
    }
  }
}
