/**
 * The path a binned file used to have, rebuilt from below: Drive by asking for one parent
 * after another, Box from the ancestor chain its listing carries.
 */
module TrashPaths {
  import opened Outcomes
  import opened Sequences
  import opened Text
  import opened DriveTree

  datatype Where = At(path: string) | OutOfScope | Unnameable

  datatype BinFile = BinFile(name: string, parent: Option<string>)

  /** A parent chain deeper than this is taken for a cycle. */
  const MAX_DEPTH: nat := 64

  // ----- Drive: the walk up -----

  datatype Climbed = Reached(names: seq<string>) | ToppedOut | Lost

  /** Up from `current`, with the names below it in hand, looking at no more than `left` ids. */
  function Climb(meta: map<string, Meta>, rootId: string, current: Option<string>, below: seq<string>, left: nat): Climbed
    decreases left
  {
    if left == 0 then Lost
    else if current.None? then ToppedOut
    else if current.value == rootId then Reached(below)
    else if current.value !in meta then Lost
    else Climb(meta, rootId, meta[current.value].parent, [meta[current.value].name] + below, left - 1)
  }

  function OriginalPath(meta: map<string, Meta>, rootId: string, file: BinFile): Where {
    if file.parent.None? then Unnameable
    else
      match Climb(meta, rootId, file.parent, [], MAX_DEPTH)
      case Reached(names) => At(ChildPath(PathOf(names), file.name))
      case ToppedOut => OutOfScope
      case Lost => Unnameable
  }

  // ----- as it is written: one cache shared by all the files of a bin -----

  class FolderCache {
    var folders: map<string, Meta>

    constructor ()
      ensures folders == map[]
    {
      folders := map[];
    }

    /** Everything cached is what a request would answer. */
    predicate Current(meta: map<string, Meta>)
      reads this
    {
      forall id :: id in folders ==> id in meta && folders[id] == meta[id]
    }
  }

  function Reverse(s: seq<string>): seq<string> {
    if s == [] then [] else [s[|s| - 1]] + Reverse(s[..|s| - 1])
  }

  lemma ReverseSnoc(s: seq<string>, x: string)
    ensures Reverse(s + [x]) == [x] + Reverse(s)
  {
    assert (s + [x])[..|s|] == s;
  }

  method OriginalPathOf(meta: map<string, Meta>, rootId: string, file: BinFile, cache: FolderCache) returns (r: Where)
    requires cache.Current(meta)
    modifies cache
    ensures cache.Current(meta) && old(cache.folders.Keys) <= cache.folders.Keys
    ensures r == OriginalPath(meta, rootId, file)
  {
    var segments: seq<string> := [];
    var current := file.parent;
    if current.None? { return Unnameable; }
    for depth := 0 to MAX_DEPTH
      invariant cache.Current(meta) && old(cache.folders.Keys) <= cache.folders.Keys
      invariant Climb(meta, rootId, file.parent, [], MAX_DEPTH)
             == Climb(meta, rootId, current, Reverse(segments), MAX_DEPTH - depth)
    {
      if current.None? { return OutOfScope; }
      if current.value == rootId {
        return At(ChildPath(PathOf(Reverse(segments)), file.name));
      }
      if current.value !in cache.folders {
        if current.value !in meta { return Unnameable; }
        cache.folders := cache.folders[current.value := meta[current.value]];
      }
      var found := cache.folders[current.value];
      ReverseSnoc(segments, found.name);
      segments := segments + [found.name];
      current := found.parent;
    }
    return Unnameable;
  }

  /** The whole bin: every path that could be named, and how many could not. */
  method ListTrashedPaths(meta: map<string, Meta>, rootId: string, binned: seq<BinFile>)
      returns (paths: set<string>, unnameable: nat)
    ensures forall p :: p in paths <==> exists i :: 0 <= i < |binned| && OriginalPath(meta, rootId, binned[i]) == At(p)
    ensures unnameable == Count(binned, (f: BinFile) => OriginalPath(meta, rootId, f) == Unnameable)
  {
    paths, unnameable := {}, 0;
    CountNothing((f: BinFile) => OriginalPath(meta, rootId, f) == Unnameable);
    var cache := new FolderCache();
    for i := 0 to |binned|
      invariant fresh(cache) && cache.Current(meta)
      invariant forall p :: p in paths <==> exists j :: 0 <= j < i && OriginalPath(meta, rootId, binned[j]) == At(p)
      invariant unnameable == Count(binned[..i], (f: BinFile) => OriginalPath(meta, rootId, f) == Unnameable)
    {
      assert binned[..i + 1] == binned[..i] + [binned[i]];
      CountSnoc(binned[..i], binned[i], (f: BinFile) => OriginalPath(meta, rootId, f) == Unnameable);
      var resolved := OriginalPathOf(meta, rootId, binned[i], cache);
      if resolved.At? {
        paths := paths + {resolved.path};
      } else if resolved.Unnameable? {
        unnameable := unnameable + 1;
      }
    }
    assert binned[..|binned|] == binned;
  }

  // ----- up equals down -----

  /** The id of the root is the root's alone. */
  ghost predicate RootIdUnique(t: Tree) {
    forall names :: names != [] && Descend(t, names).Some? ==> Descend(t, names).value.id != t.id
  }

  lemma {:induction false} DescendSnoc(t: Tree, names: seq<string>)
    requires names != [] && Descend(t, names).Some?
    ensures var n := |names| - 1;
            && Descend(t, names[..n]).Some?
            && var parent := Descend(t, names[..n]).value;
               var k := FindChild(parent.folders, names[n]);
               k.Some? && Descend(t, names) == Some(parent.folders[k.value])
    decreases |names|
  {
    var n := |names| - 1;
    if n > 0 {
      var k := FindChild(t.folders, names[0]).value;
      DescendSnoc(t.folders[k], names[1..]);
      assert names[1..][..n - 1] == names[..n][1..];
    } else {
      assert names[..n] == [];
      var k := FindChild(t.folders, names[0]).value;
      assert Descend(t.folders[k], names[1..]) == Some(t.folders[k]);
    }
  }

  lemma {:induction false} HostedBelow(api: Api, t: Tree, names: seq<string>)
    requires Hosts(api, t) && Descend(t, names).Some?
    ensures Hosts(api, Descend(t, names).value)
    decreases |names|
  {
    if names != [] {
      var k := FindChild(t.folders, names[0]).value;
      assert Hosts(api, t.folders[k]);
      HostedBelow(api, t.folders[k], names[1..]);
    }
  }

  /** The metadata of a folder below the root name its parent on the way. */
  lemma ClimbsToParent(api: Api, t: Tree, names: seq<string>)
    requires Hosts(api, t) && RootIdUnique(t) && Descend(t, names).Some? && names != []
    ensures var n := |names| - 1;
            var id := Descend(t, names).value.id;
            && Descend(t, names[..n]).Some? && id != t.id && id in api.meta
            && api.meta[id] == Meta(names[n], Some(Descend(t, names[..n]).value.id))
  {
    var n := |names| - 1;
    DescendSnoc(t, names);
    HostedBelow(api, t, names[..n]);
    var parent := Descend(t, names[..n]).value;
    var k := FindChild(parent.folders, names[n]).value;
    assert api.meta[parent.folders[k].id] == Meta(names[n], Some(parent.id));
  }

  /** Climbing from a folder of the tree retraces the names that lead down to it, if the limit allows. */
  lemma {:induction false} ClimbRetraces(api: Api, t: Tree, names: seq<string>, below: seq<string>, left: nat)
    requires Hosts(api, t) && RootIdUnique(t) && Descend(t, names).Some?
    ensures Climb(api.meta, t.id, Some(Descend(t, names).value.id), below, left)
         == if |names| < left then Reached(names + below) else Lost
    decreases |names|
  {
    if left == 0 {
    } else if names == [] {
      assert names + below == below;
    } else {
      var n := |names| - 1;
      ClimbsToParent(api, t, names);
      DescendSnoc(t, names);
      hide Descend, Hosts, RootIdUnique;
      ClimbRetraces(api, t, names[..n], [names[n]] + below, left - 1);
      assert names[..n] + ([names[n]] + below) == names + below;
    }
  }

  /**
   * Up equals down: for a file whose folder the walk down reached by `names`, the rebuilt
   * path is the key the walk down composed, exactly when at most 63 folders lie between;
   * any deeper and the file is unnameable.
   */
  lemma UpEqualsDown(api: Api, t: Tree, names: seq<string>, name: string)
    requires Hosts(api, t) && RootIdUnique(t) && Descend(t, names).Some?
    ensures OriginalPath(api.meta, t.id, BinFile(name, Some(Descend(t, names).value.id)))
         == if |names| <= 63 then At(ChildPath(PathOf(names), name)) else Unnameable
  {
    hide Descend, Hosts, RootIdUnique;
    ClimbRetraces(api, t, names, [], MAX_DEPTH);
    assert names + [] == names;
  }

  /** `ids` is the parent chain from `first` on, never passing the root, every folder of it known. */
  predicate ParentChain(meta: map<string, Meta>, rootId: string, first: string, ids: seq<string>) {
    && ids != [] && ids[0] == first
    && (forall i :: 0 <= i < |ids| ==> ids[i] != rootId && ids[i] in meta)
    && (forall i :: 0 <= i < |ids| - 1 ==> meta[ids[i]].parent == Some(ids[i + 1]))
  }

  /** The chain ends, within the limit, at a folder without a parent. */
  predicate TopsOutBy(meta: map<string, Meta>, rootId: string, first: string, ids: seq<string>, left: nat) {
    ParentChain(meta, rootId, first, ids) && |ids| < left && meta[ids[|ids| - 1]].parent == None
  }

  lemma {:induction false} ClimbToppedOut(meta: map<string, Meta>, rootId: string, first: string, below: seq<string>, left: nat)
    returns (ids: seq<string>)
    requires Climb(meta, rootId, Some(first), below, left) == ToppedOut
    ensures TopsOutBy(meta, rootId, first, ids, left)
    decreases left
  {
    var up := meta[first].parent;
    if up.None? {
      ids := [first];
    } else {
      var rest := ClimbToppedOut(meta, rootId, up.value, [meta[first].name] + below, left - 1);
      ids := [first] + rest;
      assert forall i :: 1 <= i < |ids| ==> ids[i] == rest[i - 1];
    }
  }

  lemma {:induction false} TopsOutClimb(meta: map<string, Meta>, rootId: string, first: string, ids: seq<string>,
                                        below: seq<string>, left: nat)
    requires TopsOutBy(meta, rootId, first, ids, left)
    ensures Climb(meta, rootId, Some(first), below, left) == ToppedOut
    decreases |ids|
  {
    if |ids| > 1 {
      assert ids[1..][0] == ids[1];
      assert TopsOutBy(meta, rootId, ids[1], ids[1..], left - 1);
      TopsOutClimb(meta, rootId, ids[1], ids[1..], [meta[first].name] + below, left - 1);
    }
  }

  /** Out of scope is said exactly of files whose parent chain tops out elsewhere, within the limit. */
  lemma OutOfScopeExactly(meta: map<string, Meta>, rootId: string, file: BinFile)
    ensures OriginalPath(meta, rootId, file) == OutOfScope
       <==> file.parent.Some? && exists ids :: TopsOutBy(meta, rootId, file.parent.value, ids, MAX_DEPTH)
  {
    hide TopsOutBy;
    if file.parent.Some? {
      if OriginalPath(meta, rootId, file) == OutOfScope {
        var ids := ClimbToppedOut(meta, rootId, file.parent.value, [], MAX_DEPTH);
      }
      if ids :| TopsOutBy(meta, rootId, file.parent.value, ids, MAX_DEPTH) {
        TopsOutClimb(meta, rootId, file.parent.value, ids, [], MAX_DEPTH);
      }
    }
  }

  /** The first `ids` folders on the way up from `first`: none of them the root, every one known. */
  predicate WayUp(meta: map<string, Meta>, rootId: string, first: string, ids: seq<string>) {
    ids == [] || ParentChain(meta, rootId, first, ids)
  }

  /** What comes after them. */
  function Above(meta: map<string, Meta>, first: string, ids: seq<string>): Option<string>
    requires ids != [] ==> ids[|ids| - 1] in meta
  {
    if ids == [] then Some(first) else meta[ids[|ids| - 1]].parent
  }

  /** The way up comes to a folder, the first one included, that nobody can name any more. */
  predicate BreaksOff(meta: map<string, Meta>, rootId: string, first: string, ids: seq<string>, gone: string) {
    WayUp(meta, rootId, first, ids) && Above(meta, first, ids) == Some(gone) && gone != rootId && gone !in meta
  }

  /** The limit is used up on the way. */
  predicate TooLong(meta: map<string, Meta>, rootId: string, first: string, ids: seq<string>, left: nat) {
    WayUp(meta, rootId, first, ids) && |ids| == left
  }

  lemma WayUpOne(meta: map<string, Meta>, rootId: string, first: string, ids: seq<string>)
    requires WayUp(meta, rootId, first, ids) && ids != []
    ensures first != rootId && first in meta && ids == [first] + ids[1..]
    ensures |ids| > 1 ==> meta[first].parent.Some?
    ensures meta[first].parent.Some? ==>
              var up := meta[first].parent.value;
              WayUp(meta, rootId, up, ids[1..]) && Above(meta, first, ids) == Above(meta, up, ids[1..])
  {
    if |ids| > 1 { assert ids[1..][0] == ids[1]; }
  }

  /** A chain that breaks off, wherever it does, is lost. */
  lemma {:induction false} BrokenChain(meta: map<string, Meta>, rootId: string, first: string, ids: seq<string>,
                                       gone: string, below: seq<string>, left: nat)
    requires BreaksOff(meta, rootId, first, ids, gone)
    ensures Climb(meta, rootId, Some(first), below, left) == Lost
    decreases |ids|
  {
    if ids != [] && left > 0 {
      WayUpOne(meta, rootId, first, ids);
      if meta[first].parent.Some? {
        BrokenChain(meta, rootId, meta[first].parent.value, ids[1..], gone, [meta[first].name] + below, left - 1);
      }
    }
  }

  lemma {:induction false} LongChain(meta: map<string, Meta>, rootId: string, first: string, ids: seq<string>,
                                     below: seq<string>, left: nat)
    requires TooLong(meta, rootId, first, ids, left)
    ensures Climb(meta, rootId, Some(first), below, left) == Lost
    decreases left
  {
    if left > 0 {
      WayUpOne(meta, rootId, first, ids);
      if left > 1 {
        LongChain(meta, rootId, meta[first].parent.value, ids[1..], [meta[first].name] + below, left - 1);
      }
    }
  }

  /** What a lost climb ran into. */
  lemma {:induction false} LostWhere(meta: map<string, Meta>, rootId: string, first: string, below: seq<string>, left: nat)
    returns (ids: seq<string>, gone: string)
    requires Climb(meta, rootId, Some(first), below, left) == Lost
    ensures BreaksOff(meta, rootId, first, ids, gone) || TooLong(meta, rootId, first, ids, left)
    ensures |ids| <= left
    decreases left
  {
    ids, gone := [], first;
    if left > 0 && first in meta && first != rootId {
      var up := meta[first].parent;
      if up.None? {
        ids := [first];
      } else {
        var rest, last := LostWhere(meta, rootId, up.value, [meta[first].name] + below, left - 1);
        ids, gone := [first] + rest, last;
        assert ids[1..] == rest && (forall i :: 1 <= i < |ids| ==> ids[i] == rest[i - 1]);
      }
    }
  }

  /**
   * Unnameable is said exactly of files of which Drive names no parent, or whose parent chain
   * breaks off at a folder that is gone, the parent itself included, or does not end within
   * the limit.
   */
  lemma UnnameableExactly(meta: map<string, Meta>, rootId: string, file: BinFile)
    ensures OriginalPath(meta, rootId, file) == Unnameable
       <==> || file.parent.None?
            || (exists ids, gone :: BreaksOff(meta, rootId, file.parent.value, ids, gone))
            || (exists ids :: TooLong(meta, rootId, file.parent.value, ids, MAX_DEPTH))
  {
    if file.parent.Some? {
      var first := file.parent.value;
      hide BreaksOff, TooLong;
      if OriginalPath(meta, rootId, file) == Unnameable {
        var ids, gone := LostWhere(meta, rootId, first, [], MAX_DEPTH);
      }
      if ids, gone :| BreaksOff(meta, rootId, first, ids, gone) {
        BrokenChain(meta, rootId, first, ids, gone, [], MAX_DEPTH);
      }
      if ids :| TooLong(meta, rootId, first, ids, MAX_DEPTH) {
        LongChain(meta, rootId, first, ids, [], MAX_DEPTH);
      }
    }
  }

  // ----- Box: the chain comes with the listing -----

  datatype Ancestor = Ancestor(id: string, name: string)

  function IndexOf(chain: seq<Ancestor>, id: string): (r: Option<nat>)
    ensures r.Some? ==> r.value < |chain| && chain[r.value].id == id
  {
    if chain == [] then None
    else if chain[0].id == id then Some(0)
    else
      var r := IndexOf(chain[1..], id);
      if r.None? then None else Some(r.value + 1)
  }

  function NamesOf(chain: seq<Ancestor>): seq<string> {
    seq(|chain|, i requires 0 <= i < |chain| => chain[i].name)
  }

  function BoxOriginalPath(chain: Option<seq<Ancestor>>, rootId: string, name: string): Where {
    if chain.None? || chain.value == [] then Unnameable
    else
      var rootAt := IndexOf(chain.value, rootId);
      if rootAt.None? then OutOfScope
      else At(ChildPath(Join(NamesOf(chain.value[rootAt.value + 1..]), '/'), name))
  }

  /** The ancestor chain of something in the folder at `names`, from the root of the tree down. */
  function Ancestors(t: Tree, names: seq<string>): seq<Ancestor>
    decreases |names|
  {
    [Ancestor(t.id, t.name)]
    + (if names == [] then []
       else
         var k := FindChild(t.folders, names[0]);
         if k.None? then [] else Ancestors(t.folders[k.value], names[1..]))
  }

  lemma {:induction false} AncestorNames(t: Tree, names: seq<string>)
    requires Descend(t, names).Some?
    ensures NamesOf(Ancestors(t, names)[1..]) == names
    decreases |names|
  {
    if names != [] {
      var k := FindChild(t.folders, names[0]).value;
      AncestorNames(t.folders[k], names[1..]);
      var below := Ancestors(t.folders[k], names[1..]);
      assert Ancestors(t, names)[1..] == below;
      assert below == [below[0]] + below[1..];
      assert NamesOf(below) == [below[0].name] + NamesOf(below[1..]);
    }
  }

  lemma {:induction false} IndexAfter(outer: seq<Ancestor>, chain: seq<Ancestor>)
    requires chain != [] && forall i :: 0 <= i < |outer| ==> outer[i].id != chain[0].id
    ensures IndexOf(outer + chain, chain[0].id) == Some(|outer|)
    decreases |outer|
  {
    if outer == [] {
      assert outer + chain == chain;
    } else {
      assert (outer + chain)[1..] == outer[1..] + chain;
      IndexAfter(outer[1..], chain);
    }
  }

  /** Box's path from above equals its own walk down, at any depth, wherever the root sits in the account. */
  lemma BoxUpEqualsDown(t: Tree, outer: seq<Ancestor>, names: seq<string>, name: string)
    requires Descend(t, names).Some? && forall i :: 0 <= i < |outer| ==> outer[i].id != t.id
    ensures BoxOriginalPath(Some(outer + Ancestors(t, names)), t.id, name) == At(ChildPath(PathOf(names), name))
  {
    var chain := Ancestors(t, names);
    IndexAfter(outer, chain);
    AncestorNames(t, names);
    assert (outer + chain)[|outer| + 1..] == chain[1..];
  }

  lemma {:induction false} IndexNone(chain: seq<Ancestor>, id: string)
    ensures IndexOf(chain, id).None? <==> forall i :: 0 <= i < |chain| ==> chain[i].id != id
    decreases |chain|
  {
    if chain != [] {
      IndexNone(chain[1..], id);
      assert forall i :: 1 <= i < |chain| ==> chain[i] == chain[1..][i - 1];
    }
  }

  /** Box's two kinds of nothing: no chain at all, or a chain that never passes the root. */
  lemma BoxNothingExactly(chain: Option<seq<Ancestor>>, rootId: string, name: string)
    ensures BoxOriginalPath(chain, rootId, name) == Unnameable <==> chain.None? || chain.value == []
    ensures BoxOriginalPath(chain, rootId, name) == OutOfScope
       <==> chain.Some? && chain.value != [] && forall i :: 0 <= i < |chain.value| ==> chain.value[i].id != rootId
  {
    if chain.Some? { IndexNone(chain.value, rootId); }
  }
}
