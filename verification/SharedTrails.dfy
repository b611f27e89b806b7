/**
 * The permission scan told from the drive alone: pages, the items on them, and the trails of
 * folders that lead from the root to an item.
 */
module SharedTrails {
  import opened Outcomes
  import opened Sequences
  import opened PermissionScan

  ghost predicate NoRepeats<T>(s: seq<T>) {
    forall i, j :: 0 <= i < j < |s| ==> s[i] != s[j]
  }

  // ----- one listing -----

  /** Page number `p` of the listing that begins at `url`. */
  function PageAt(d: Drive, url: Url, p: nat): Option<Page> {
    if p == 0 then (if url in d.pages then Some(d.pages[url]) else None)
    else
      var before := PageAt(d, url, p - 1);
      if before.None? || before.value.next.None? || before.value.next.value !in d.pages then None
      else Some(d.pages[before.value.next.value])
  }

  /** The listing can be read up to this page, and it is the last. */
  predicate EndsAt(d: Drive, url: Url, last: nat) {
    PageAt(d, url, last).Some? && PageAt(d, url, last).value.next.None?
  }

  lemma {:induction false} PagesBefore(d: Drive, url: Url, p: nat, q: nat)
    requires p <= q && PageAt(d, url, q).Some?
    ensures PageAt(d, url, p).Some?
    ensures p < q ==> PageAt(d, url, p).value.next.Some?
    decreases q
  {
    if p < q { PagesBefore(d, url, p, q - 1); }
  }

  /** The items of all its pages, one page after the other. */
  function AllItems(d: Drive, url: Url, last: nat): seq<Item>
    requires EndsAt(d, url, last)
  {
    Flatten(ItemPages(d, url, last))
  }

  function ItemPages(d: Drive, url: Url, last: nat): (r: seq<seq<Item>>)
    requires EndsAt(d, url, last)
    ensures |r| == last + 1 && forall p :: 0 <= p <= last ==> PageAt(d, url, p).Some? && r[p] == PageAt(d, url, p).value.items
  {
    assert forall p: nat :: p <= last ==> PageAt(d, url, p).Some? by {
      forall p: nat | p <= last ensures PageAt(d, url, p).Some? { PagesBefore(d, url, p, last); }
    }
    seq(last + 1, p requires 0 <= p <= last => PageAt(d, url, p).value.items)
  }

  lemma {:induction false} PageAfter(d: Drive, url: Url, p: nat)
    requires url in d.pages
    ensures PageAt(d, url, p + 1)
         == if d.pages[url].next.None? then None else PageAt(d, d.pages[url].next.value, p)
  {
    if p > 0 { PageAfter(d, url, p - 1); }
  }

  lemma EndsAfter(d: Drive, url: Url, last: nat)
    requires EndsAt(d, url, last)
    ensures url in d.pages && (last == 0 <==> d.pages[url].next.None?)
    ensures last > 0 ==> EndsAt(d, d.pages[url].next.value, last - 1)
  {
    PagesBefore(d, url, 0, last);
    if last > 0 { PageAfter(d, url, last - 1); }
  }

  lemma ItemPagesOfFirst(d: Drive, url: Url, last: nat)
    requires EndsAt(d, url, last) && url in d.pages
    requires last > 0 ==> d.pages[url].next.Some? && EndsAt(d, d.pages[url].next.value, last - 1)
    ensures ItemPages(d, url, last)
         == [d.pages[url].items] + if last == 0 then [] else ItemPages(d, d.pages[url].next.value, last - 1)
  {
    var first := d.pages[url];
    assert PageAt(d, url, 0) == Some(first);
    var rest := if last == 0 then [] else ItemPages(d, first.next.value, last - 1);
    hide PageAt, EndsAt;
    forall i | 0 <= i <= last ensures ItemPages(d, url, last)[i] == ([first.items] + rest)[i] {
      if i > 0 { PageAfter(d, url, i - 1); }
    }
    assert ItemPages(d, url, last) == [first.items] + rest;
  }

  lemma ItemsOfFirst(d: Drive, url: Url, last: nat)
    requires EndsAt(d, url, last) && url in d.pages
    requires last > 0 ==> d.pages[url].next.Some? && EndsAt(d, d.pages[url].next.value, last - 1)
    ensures AllItems(d, url, last)
         == d.pages[url].items + if last == 0 then [] else AllItems(d, d.pages[url].next.value, last - 1)
  {
    hide PageAt, EndsAt, ItemPages;
    ItemPagesOfFirst(d, url, last);
    FlattenCons(d.pages[url].items, if last == 0 then [] else ItemPages(d, d.pages[url].next.value, last - 1));
    assert Flatten<Item>([]) == [];
    hide Flatten;
  }

  lemma {:induction false} PagesToTheEnd(d: Drive, url: Url, left: nat, last: nat)
    requires EndsAt(d, url, last)
    ensures Pages(d, url, left) == if last < left then Some(AllItems(d, url, last)) else None
    decreases left
  {
    hide EndsAt, AllItems;
    EndsAfter(d, url, last);
    ItemsOfFirst(d, url, last);
    assert d.pages[url].items + [] == d.pages[url].items;
    if left > 0 && last > 0 { PagesToTheEnd(d, d.pages[url].next.value, left - 1, last - 1); }
  }

  lemma {:induction false} PagesOnlyToAnEnd(d: Drive, url: Url, left: nat) returns (last: nat)
    requires Pages(d, url, left).Some?
    ensures EndsAt(d, url, last) && last < left
    decreases left
  {
    if d.pages[url].next.None? {
      last := 0;
    } else {
      var rest := PagesOnlyToAnEnd(d, d.pages[url].next.value, left - 1);
      PageAfter(d, url, rest);
      last := rest + 1;
    }
  }

  /** The listing is read in full: it ends within a hundred pages. */
  ghost predicate Readable(d: Drive, url: Url) {
    exists last: nat :: last < 100 && EndsAt(d, url, last)
  }

  /** A listing is answered exactly if it ends within a hundred pages, and then with the items of every one of them. */
  lemma GetAllExactly(d: Drive, url: Url)
    ensures GetAll(d, url).Some? <==> Readable(d, url)
    ensures forall last: nat :: last < 100 && EndsAt(d, url, last) ==> GetAll(d, url) == Some(AllItems(d, url, last))
  {
    hide Pages, EndsAt;
    if GetAll(d, url).Some? {
      var last := PagesOnlyToAnEnd(d, url, MAX_PAGES);
    }
    forall last: nat | last < 100 && EndsAt(d, url, last) ensures GetAll(d, url) == Some(AllItems(d, url, last)) {
      PagesToTheEnd(d, url, MAX_PAGES, last);
    }
  }

  // ----- where an item is in a listing -----

  /** Item number `item` on page number `page`. */
  datatype Step = Step(page: nat, item: nat)

  function ItemAt(d: Drive, url: Url, s: Step): Option<Item> {
    var page := PageAt(d, url, s.page);
    if page.Some? && s.item < |page.value.items| then Some(page.value.items[s.item]) else None
  }

  /** These are the places of these items in the listing, each once, and there are no others. */
  ghost predicate Places(d: Drive, url: Url, items: seq<Item>, steps: seq<Step>) {
    && |steps| == |items| && NoRepeats(steps)
    && (forall i :: 0 <= i < |items| ==> ItemAt(d, url, steps[i]) == Some(items[i]))
    && (forall s :: ItemAt(d, url, s).Some? ==> s in steps)
  }

  function FirstPage(n: nat): (r: seq<Step>)
    ensures |r| == n && forall i :: 0 <= i < n ==> r[i] == Step(0, i)
  {
    seq(n, i requires 0 <= i < n => Step(0, i))
  }

  function NextPage(steps: seq<Step>): (r: seq<Step>)
    ensures |r| == |steps| && forall i :: 0 <= i < |r| ==> r[i] == Step(steps[i].page + 1, steps[i].item)
  {
    seq(|steps|, i requires 0 <= i < |steps| => Step(steps[i].page + 1, steps[i].item))
  }

  /** Items on the first page are where they are; those on later ones are found one page earlier from the next link. */
  lemma ItemsOnPages(d: Drive, url: Url, s: Step)
    requires url in d.pages
    ensures var first := d.pages[url];
            && (s.page == 0 ==> ItemAt(d, url, s) == if s.item < |first.items| then Some(first.items[s.item]) else None)
            && (s.page > 0 && first.next.None? ==> ItemAt(d, url, s) == None)
            && (s.page > 0 && first.next.Some? ==> ItemAt(d, url, s) == ItemAt(d, first.next.value, Step(s.page - 1, s.item)))
  {
    if s.page > 0 { PageAfter(d, url, s.page - 1); }
  }

  lemma {:induction false} ItemsHavePlaces(d: Drive, url: Url, left: nat) returns (steps: seq<Step>)
    requires Pages(d, url, left).Some?
    ensures Places(d, url, Pages(d, url, left).value, steps)
    decreases left
  {
    var first := d.pages[url];
    steps := FirstPage(|first.items|);
    hide PageAt, ItemAt;
    if first.next.Some? {
      var rest := ItemsHavePlaces(d, first.next.value, left - 1);
      PlacesJoin(d, url, first, Pages(d, first.next.value, left - 1).value, rest);
      steps := steps + NextPage(rest);
    } else {
      forall i | 0 <= i < |steps| ensures ItemAt(d, url, steps[i]) == Some(first.items[i]) { ItemsOnPages(d, url, steps[i]); }
      forall s | ItemAt(d, url, s).Some? ensures s in steps {
        ItemsOnPages(d, url, s);
        assert steps[s.item] == s;
      }
    }
  }

  lemma PlacesJoin(d: Drive, url: Url, first: Page, items: seq<Item>, rest: seq<Step>)
    requires url in d.pages && d.pages[url] == first && first.next.Some? && Places(d, first.next.value, items, rest)
    ensures Places(d, url, first.items + items, FirstPage(|first.items|) + NextPage(rest))
  {
    hide PageAt, ItemAt, FirstPage, NextPage;
    var n, later := |first.items|, NextPage(rest);
    var steps := FirstPage(n) + later;
    forall i | 0 <= i < |steps| ensures ItemAt(d, url, steps[i]) == Some((first.items + items)[i]) {
      ItemsOnPages(d, url, steps[i]);
      if i >= n { assert steps[i] == later[i - n] && rest[i - n] == Step(later[i - n].page - 1, later[i - n].item); }
    }
    forall i, j | 0 <= i < j < |later| ensures later[i] != later[j] { assert rest[i] != rest[j]; }
    NoRepeatsJoin(FirstPage(n), later);
    forall s | ItemAt(d, url, s).Some? ensures s in steps { PlaceJoined(d, url, first, items, rest, s); }
  }

  lemma PlaceJoined(d: Drive, url: Url, first: Page, items: seq<Item>, rest: seq<Step>, s: Step)
    requires url in d.pages && d.pages[url] == first && first.next.Some? && Places(d, first.next.value, items, rest)
    requires ItemAt(d, url, s).Some?
    ensures s in FirstPage(|first.items|) + NextPage(rest)
  {
    ItemsOnPages(d, url, s);
    hide PageAt, ItemAt;
    if s.page == 0 {
      assert FirstPage(|first.items|)[s.item] == s;
    } else {
      var before := Step(s.page - 1, s.item);
      var i :| 0 <= i < |rest| && rest[i] == before;
      assert NextPage(rest)[i] == s;
    }
  }

  // ----- trails -----

  /** From a folder down: where each next item is in the listing of the folder before. */
  type Trail = seq<Step>

  function Shown(item: Item): string {
    if item.name.Some? then item.name.value else item.id.GetOr("")
  }

  /** The item a trail leads to, through folders: every one on the way has an id, and all but the last are folders. */
  function End(d: Drive, url: Url, trail: Trail): Option<Item>
    decreases |trail|
  {
    if trail == [] then None
    else
      var first := ItemAt(d, url, trail[0]);
      if first.None? || first.value.id.None? then None
      else if |trail| == 1 then first
      else if first.value.isFolder then End(d, ChildrenOf(first.value.id.value), trail[1..])
      else None
  }

  /** The names along a trail, a slash before each. */
  function Way(d: Drive, url: Url, trail: Trail): string
    decreases |trail|
  {
    if trail == [] then ""
    else
      var first := ItemAt(d, url, trail[0]);
      if first.None? then ""
      else "/" + Shown(first.value) + Way(d, ChildrenOf(first.value.id.GetOr("")), trail[1..])
  }

  /** The trail leads to an item that is marked as shared. */
  predicate SharedAt(d: Drive, url: Url, trail: Trail) {
    End(d, url, trail).Some? && End(d, url, trail).value.shared
  }

  /** The trail leads to a folder, the one it begins at if it is empty. */
  predicate FolderAt(d: Drive, url: Url, trail: Trail) {
    trail == [] || (End(d, url, trail).Some? && End(d, url, trail).value.isFolder)
  }

  lemma {:induction false} EndHasId(d: Drive, url: Url, trail: Trail)
    requires End(d, url, trail).Some?
    ensures End(d, url, trail).value.id.Some?
    decreases |trail|
  {
    if |trail| > 1 { EndHasId(d, ChildrenOf(ItemAt(d, url, trail[0]).value.id.value), trail[1..]); }
  }

  /** Where the folder at the end of a trail is listed. */
  function UrlOf(d: Drive, url: Url, trail: Trail): Url {
    if End(d, url, trail).Some? then ChildrenOf(End(d, url, trail).value.id.GetOr("")) else url
  }

  /** The step is to an item with an id that is a folder, or that is shared. */
  predicate ToFolder(d: Drive, url: Url, s: Step) {
    var item := ItemAt(d, url, s);
    item.Some? && item.value.id.Some? && item.value.isFolder
  }

  predicate ToShared(d: Drive, url: Url, s: Step) {
    var item := ItemAt(d, url, s);
    item.Some? && item.value.id.Some? && item.value.shared
  }

  /** The step is to a folder listed at `child`. */
  predicate IsKid(d: Drive, url: Url, s: Step, child: Url) {
    ToFolder(d, url, s) && child == ChildrenOf(ItemAt(d, url, s).value.id.value)
  }

  lemma Through(d: Drive, url: Url, s: Step, child: Url, t: Trail)
    requires IsKid(d, url, s, child)
    ensures t != [] ==> End(d, url, [s] + t) == End(d, child, t)
    ensures Way(d, url, [s] + t) == "/" + Shown(ItemAt(d, url, s).value) + Way(d, child, t)
    ensures FolderAt(d, url, [s] + t) <==> FolderAt(d, child, t)
    ensures t != [] ==> (SharedAt(d, url, [s] + t) <==> SharedAt(d, child, t))
    ensures FolderAt(d, child, t) ==> UrlOf(d, url, [s] + t) == UrlOf(d, child, t)
  {
    assert ([s] + t)[1..] == t && ([s] + t)[0] == s;
    hide ItemAt;
    if t == [] { assert End(d, url, [s]) == ItemAt(d, url, s) && End(d, child, []) == None; }
  }

  /** A trail of two steps or more goes through a folder first. */
  lemma ThroughAFolder(d: Drive, url: Url, t: Trail)
    requires |t| >= 2 && End(d, url, t).Some?
    ensures ItemAt(d, url, t[0]).Some? && ItemAt(d, url, t[0]).value.id.Some?
    ensures IsKid(d, url, t[0], ChildrenOf(ItemAt(d, url, t[0]).value.id.value)) && t == [t[0]] + t[1..]
  {
    hide ItemAt;
  }

  function Under(s: Step, trails: seq<Trail>): (r: seq<Trail>)
    ensures |r| == |trails| && forall i :: 0 <= i < |r| ==> r[i] == [s] + trails[i]
  {
    seq(|trails|, i requires 0 <= i < |trails| => [s] + trails[i])
  }

  lemma UnderHas(s: Step, trails: seq<Trail>, t: Trail)
    ensures t in Under(s, trails) <==> t != [] && t[0] == s && t[1..] in trails
  {
    if t in Under(s, trails) {
      var i :| 0 <= i < |trails| && Under(s, trails)[i] == t;
      assert ([s] + trails[i])[1..] == trails[i];
    }
    if t != [] && t[0] == s && t[1..] in trails {
      var i :| 0 <= i < |trails| && trails[i] == t[1..];
      assert Under(s, trails)[i] == t;
    }
  }

  lemma UnderNoRepeats(s: Step, trails: seq<Trail>)
    requires NoRepeats(trails)
    ensures NoRepeats(Under(s, trails))
  {
    forall i, j | 0 <= i < j < |trails| ensures Under(s, trails)[i] != Under(s, trails)[j] {
      assert ([s] + trails[i])[1..] == trails[i] && ([s] + trails[j])[1..] == trails[j];
    }
  }

  lemma NoRepeatsJoin<T>(a: seq<T>, b: seq<T>)
    requires NoRepeats(a) && NoRepeats(b) && forall x :: x in a ==> x !in b
    ensures NoRepeats(a + b)
  {
    forall i, j | 0 <= i < j < |a + b| ensures (a + b)[i] != (a + b)[j] {
      if i < |a| && j >= |a| { assert a[i] in a && b[j - |a|] in b; }
    }
  }

  // ----- the folders of a walk -----

  /** All trails to folders from here, once each. */
  ghost predicate FoldersFrom(d: Drive, url: Url, folders: seq<Trail>) {
    NoRepeats(folders) && forall t :: t in folders <==> FolderAt(d, url, t)
  }

  /** All trails to folders from here that begin with one of these steps. */
  ghost predicate FoldersBelow(d: Drive, url: Url, steps: seq<Step>, folders: seq<Trail>) {
    NoRepeats(folders) && forall t :: t in folders <==> t != [] && t[0] in steps && FolderAt(d, url, t)
  }

  ghost predicate AllReadable(d: Drive, url: Url, folders: seq<Trail>) {
    forall t :: t in folders ==> Readable(d, UrlOf(d, url, t))
  }

  lemma FoldersUnder(d: Drive, url: Url, s: Step, child: Url, folders: seq<Trail>)
    requires IsKid(d, url, s, child) && FoldersFrom(d, child, folders) && AllReadable(d, child, folders)
    ensures FoldersBelow(d, url, [s], Under(s, folders)) && AllReadable(d, url, Under(s, folders))
  {
    UnderNoRepeats(s, folders);
    hide FolderAt, IsKid, Readable, UrlOf;
    forall t ensures t in Under(s, folders) <==> t != [] && t[0] in [s] && FolderAt(d, url, t) {
      UnderHas(s, folders, t);
      if t != [] && t[0] == s {
        assert t == [s] + t[1..];
        Through(d, url, s, child, t[1..]);
      }
    }
    forall t | t in Under(s, folders) ensures Readable(d, UrlOf(d, url, t)) {
      UnderHas(s, folders, t);
      assert t == [s] + t[1..];
      Through(d, url, s, child, t[1..]);
    }
  }

  lemma FoldersJoin(d: Drive, url: Url, s: Step, rest: seq<Step>, a: seq<Trail>, b: seq<Trail>)
    requires s !in rest && FoldersBelow(d, url, [s], a) && FoldersBelow(d, url, rest, b)
    requires AllReadable(d, url, a) && AllReadable(d, url, b)
    ensures FoldersBelow(d, url, [s] + rest, a + b) && AllReadable(d, url, a + b)
  {
    hide FolderAt, Readable, UrlOf;
    forall t | t in a ensures t !in b { assert t[0] == s; }
    NoRepeatsJoin(a, b);
  }

  lemma FoldersTop(d: Drive, url: Url, kids: seq<Step>, below: seq<Trail>)
    requires forall s :: ToFolder(d, url, s) ==> s in kids
    requires FoldersBelow(d, url, kids, below) && AllReadable(d, url, below) && Readable(d, url)
    ensures FoldersFrom(d, url, [[]] + below) && AllReadable(d, url, [[]] + below)
  {
    NoRepeatsJoin([[]], below);
    forall t ensures t in [[]] + below <==> FolderAt(d, url, t) {
      if t != [] && FolderAt(d, url, t) {
        if |t| >= 2 { ThroughAFolder(d, url, t); }
        assert ToFolder(d, url, t[0]);
      }
    }
    hide Readable, ItemAt;
    assert UrlOf(d, url, []) == url;
  }

  // ----- the shared items of a walk -----

  /** Item by item: where each was found, its id, and the label it is held under. */
  ghost predicate Traces(d: Drive, url: Url, path: string, shared: seq<SharedItem>, trails: seq<Trail>) {
    && |shared| == |trails|
    && forall k :: 0 <= k < |trails| ==>
         && SharedAt(d, url, trails[k])
         && End(d, url, trails[k]).value.id == Some(shared[k].id)
         && shared[k].shownAs == path + Way(d, url, trails[k])
  }

  ghost predicate SharedFrom(d: Drive, url: Url, path: string, shared: seq<SharedItem>, trails: seq<Trail>) {
    Traces(d, url, path, shared, trails) && NoRepeats(trails) && forall t :: SharedAt(d, url, t) ==> t in trails
  }

  ghost predicate SharedBelow(d: Drive, url: Url, path: string, steps: seq<Step>, shared: seq<SharedItem>,
                              trails: seq<Trail>) {
    && Traces(d, url, path, shared, trails) && NoRepeats(trails)
    && (forall t :: t in trails ==> |t| >= 2 && t[0] in steps)
    && (forall t :: |t| >= 2 && t[0] in steps && SharedAt(d, url, t) ==> t in trails)
  }

  lemma TraceUnder(d: Drive, url: Url, path: string, s: Step, child: Url, shared: SharedItem, trail: Trail)
    requires IsKid(d, url, s, child) && SharedAt(d, child, trail)
    requires End(d, child, trail).value.id == Some(shared.id)
    requires shared.shownAs == path + "/" + Shown(ItemAt(d, url, s).value) + Way(d, child, trail)
    ensures trail != [] && SharedAt(d, url, [s] + trail)
    ensures End(d, url, [s] + trail).value.id == Some(shared.id)
    ensures shared.shownAs == path + Way(d, url, [s] + trail)
  {
    Through(d, url, s, child, trail);
    hide Way;
    var name := Shown(ItemAt(d, url, s).value);
    assert path + "/" + name + Way(d, child, trail) == path + ("/" + name + Way(d, child, trail));
  }

  lemma TracesUnder(d: Drive, url: Url, path: string, s: Step, child: Url, shared: seq<SharedItem>, trails: seq<Trail>)
    requires IsKid(d, url, s, child)
    requires Traces(d, child, path + "/" + Shown(ItemAt(d, url, s).value), shared, trails)
    ensures Traces(d, url, path, shared, Under(s, trails))
    ensures forall k :: 0 <= k < |trails| ==> trails[k] != []
  {
    hide End, Way, IsKid, ItemAt;
    forall k | 0 <= k < |trails|
      ensures trails[k] != [] && SharedAt(d, url, [s] + trails[k])
      ensures End(d, url, [s] + trails[k]).value.id == Some(shared[k].id)
      ensures shared[k].shownAs == path + Way(d, url, [s] + trails[k])
    {
      TraceUnder(d, url, path, s, child, shared[k], trails[k]);
    }
  }

  lemma SharedUnder(d: Drive, url: Url, path: string, s: Step, child: Url, shared: seq<SharedItem>, trails: seq<Trail>)
    requires IsKid(d, url, s, child)
    requires SharedFrom(d, child, path + "/" + Shown(ItemAt(d, url, s).value), shared, trails)
    ensures SharedBelow(d, url, path, [s], shared, Under(s, trails))
  {
    hide SharedAt, IsKid, Traces, ItemAt, NoRepeats;
    UnderNoRepeats(s, trails);
    TracesUnder(d, url, path, s, child, shared, trails);
    forall t | t in Under(s, trails) ensures |t| >= 2 && t[0] in [s] {
      var k :| 0 <= k < |trails| && Under(s, trails)[k] == t;
    }
    forall t | |t| >= 2 && t[0] in [s] && SharedAt(d, url, t) ensures t in Under(s, trails) {
      SharedThrough(d, url, s, child, t);
      UnderHas(s, trails, t);
    }
  }

  lemma SharedThrough(d: Drive, url: Url, s: Step, child: Url, t: Trail)
    requires IsKid(d, url, s, child) && |t| >= 2 && t[0] == s && SharedAt(d, url, t)
    ensures SharedAt(d, child, t[1..])
  {
    hide IsKid;
    assert t == [s] + t[1..];
    Through(d, url, s, child, t[1..]);
  }

  lemma SharedJoin(d: Drive, url: Url, path: string, s: Step, rest: seq<Step>, x: seq<SharedItem>, a: seq<Trail>,
                   y: seq<SharedItem>, b: seq<Trail>)
    requires s !in rest && SharedBelow(d, url, path, [s], x, a) && SharedBelow(d, url, path, rest, y, b)
    ensures SharedBelow(d, url, path, [s] + rest, x + y, a + b)
  {
    hide SharedAt, End, Way;
    forall t | t in a ensures t !in b { assert t[0] == s; }
    NoRepeatsJoin(a, b);
    TracesJoin(d, url, path, x, a, y, b);
    hide Traces;
  }

  lemma TracesJoin(d: Drive, url: Url, path: string, x: seq<SharedItem>, a: seq<Trail>, y: seq<SharedItem>, b: seq<Trail>)
    requires Traces(d, url, path, x, a) && Traces(d, url, path, y, b)
    ensures Traces(d, url, path, x + y, a + b)
  {
    hide SharedAt, End, Way;
  }

  function Singles(steps: seq<Step>): (r: seq<Trail>)
    ensures |r| == |steps| && forall i :: 0 <= i < |r| ==> r[i] == [steps[i]]
  {
    seq(|steps|, i requires 0 <= i < |steps| => [steps[i]])
  }

  lemma TrailBegins(d: Drive, url: Url, t: Trail)
    requires SharedAt(d, url, t)
    ensures t != []
    ensures |t| == 1 ==> ToShared(d, url, t[0])
    ensures |t| >= 2 ==> ToFolder(d, url, t[0])
  {
    hide ItemAt;
    if |t| >= 2 { ThroughAFolder(d, url, t); }
  }

  lemma SinglesHave(steps: seq<Step>, t: Trail)
    ensures t in Singles(steps) <==> |t| == 1 && t[0] in steps
  {
    if t in Singles(steps) { var i :| 0 <= i < |steps| && Singles(steps)[i] == t; }
    if |t| == 1 && t[0] in steps {
      var i :| 0 <= i < |steps| && steps[i] == t[0];
      assert Singles(steps)[i] == t;
    }
  }

  /** `own` are the steps to the shared items of the listing itself, `kids` those to its folders. */
  lemma SharedTop(d: Drive, url: Url, path: string, own: seq<Step>, kids: seq<Step>,
                  here: seq<SharedItem>, shared: seq<SharedItem>, below: seq<Trail>)
    requires forall s :: ToFolder(d, url, s) ==> s in kids
    requires forall s :: ToShared(d, url, s) ==> s in own
    requires NoRepeats(own) && Traces(d, url, path, here, Singles(own))
    requires SharedBelow(d, url, path, kids, shared, below)
    ensures SharedFrom(d, url, path, here + shared, Singles(own) + below)
  {
    var singles := Singles(own);
    TracesJoin(d, url, path, here, singles, shared, below);
    hide Traces, ToFolder, ToShared, SharedAt;
    assert NoRepeats(singles) by {
      forall i, j | 0 <= i < j < |singles| ensures singles[i] != singles[j] { assert own[i] != own[j]; }
    }
    forall t | t in singles ensures t !in below { SinglesHave(own, t); }
    NoRepeatsJoin(singles, below);
    forall t | SharedAt(d, url, t) ensures t in singles + below {
      TrailBegins(d, url, t);
      SinglesHave(own, t);
    }
  }

  // ----- the walk finds all of it -----

  /** The shared items of a listing are those at these positions, each under its id and its label. */
  ghost predicate SharedFit(items: seq<Item>, path: string, at: seq<nat>) {
    && Picks(items, (i: Item) => i.id.Some? && i.shared, at) && |SharedIn(items, path)| == |at|
    && forall k :: 0 <= k < |at| ==>
         && at[k] < |items| && items[at[k]].id.Some?
         && SharedIn(items, path)[k] == SharedItem(items[at[k]].id.value, path + "/" + Shown(items[at[k]]))
  }

  ghost predicate FoldersFit(items: seq<Item>, path: string, at: seq<nat>) {
    && Picks(items, (i: Item) => i.id.Some? && i.isFolder, at) && |FoldersIn(items, path)| == |at|
    && forall k :: 0 <= k < |at| ==>
         && at[k] < |items| && items[at[k]].id.Some?
         && FoldersIn(items, path)[k] == Place(ChildrenOf(items[at[k]].id.value), path + "/" + Shown(items[at[k]]))
  }

  lemma {:induction false} SharedPicked(items: seq<Item>, path: string) returns (at: seq<nat>)
    ensures SharedFit(items, path, at)
  {
    PicksNothing((i: Item) => i.id.Some? && i.shared);
    hide Picks;
    at := [];
    if items != [] {
      var before, last := items[..|items| - 1], items[|items| - 1];
      var earlier := SharedPicked(before, path);
      assert items == before + [last];
      PicksSnoc(before, last, (i: Item) => i.id.Some? && i.shared, earlier);
      at := OneMore(before, last, (i: Item) => i.id.Some? && i.shared, earlier);
    }
  }

  lemma {:induction false} FoldersPicked(items: seq<Item>, path: string) returns (at: seq<nat>)
    ensures FoldersFit(items, path, at)
  {
    PicksNothing((i: Item) => i.id.Some? && i.isFolder);
    hide Picks;
    at := [];
    if items != [] {
      var before, last := items[..|items| - 1], items[|items| - 1];
      var earlier := FoldersPicked(before, path);
      assert items == before + [last];
      PicksSnoc(before, last, (i: Item) => i.id.Some? && i.isFolder, earlier);
      at := OneMore(before, last, (i: Item) => i.id.Some? && i.isFolder, earlier);
    }
  }

  function Picked<T>(s: seq<T>, at: seq<nat>): (r: seq<T>)
    requires forall k :: 0 <= k < |at| ==> at[k] < |s|
    ensures |r| == |at| && forall k :: 0 <= k < |at| ==> r[k] == s[at[k]]
  {
    seq(|at|, k requires 0 <= k < |at| => s[at[k]])
  }

  /** The places picked for a property of the items are those of the items that have it. */
  lemma PickedPlaces(d: Drive, url: Url, items: seq<Item>, steps: seq<Step>, wanted: Item -> bool, at: seq<nat>)
    requires Places(d, url, items, steps) && Picks(items, wanted, at)
    ensures NoRepeats(Picked(steps, at))
    ensures forall s :: ItemAt(d, url, s).Some? && wanted(ItemAt(d, url, s).value) ==> s in Picked(steps, at)
  {
    hide ItemAt;
    var picked := Picked(steps, at);
    forall i, j | 0 <= i < j < |picked| ensures picked[i] != picked[j] { assert at[i] < at[j]; }
    forall s | ItemAt(d, url, s).Some? && wanted(ItemAt(d, url, s).value) ensures s in picked {
      var i :| 0 <= i < |steps| && steps[i] == s;
      var k :| 0 <= k < |at| && at[k] == i;
      assert picked[k] == s;
    }
  }

  /** The folders to be descended into, and the steps to them. */
  ghost predicate Kids(d: Drive, url: Url, path: string, places: seq<Place>, kids: seq<Step>) {
    && |places| == |kids| && NoRepeats(kids)
    && forall k :: 0 <= k < |kids| ==>
         IsKid(d, url, kids[k], places[k].url) && places[k].path == path + "/" + Shown(ItemAt(d, url, kids[k]).value)
  }

  /** What a listing holds: its own shared items, and its folders. */
  lemma ListingHolds(d: Drive, place: Place) returns (own: seq<Step>, kids: seq<Step>)
    requires GetAll(d, place.url).Some?
    ensures var items := GetAll(d, place.url).value;
            && NoRepeats(own) && Traces(d, place.url, place.path, SharedIn(items, place.path), Singles(own))
            && (forall s :: ToShared(d, place.url, s) ==> s in own)
            && Kids(d, place.url, place.path, FoldersIn(items, place.path), kids)
            && (forall s :: ToFolder(d, place.url, s) ==> s in kids)
  {
    var items := GetAll(d, place.url).value;
    var steps := ItemsHavePlaces(d, place.url, MAX_PAGES);
    hide GetAll, SharedIn, FoldersIn;
    var ownAt := SharedPicked(items, place.path);
    var kidAt := FoldersPicked(items, place.path);
    own, kids := Picked(steps, ownAt), Picked(steps, kidAt);
    PickedPlaces(d, place.url, items, steps, (i: Item) => i.id.Some? && i.shared, ownAt);
    PickedPlaces(d, place.url, items, steps, (i: Item) => i.id.Some? && i.isFolder, kidAt);
    hide ItemAt;
    OwnTraces(d, place, items, steps, ownAt);
    KidsFit(d, place, items, steps, kidAt);
  }

  lemma OwnTraces(d: Drive, place: Place, items: seq<Item>, steps: seq<Step>, at: seq<nat>)
    requires Places(d, place.url, items, steps) && SharedFit(items, place.path, at)
    ensures Traces(d, place.url, place.path, SharedIn(items, place.path), Singles(Picked(steps, at)))
  {
    hide ItemAt, SharedIn;
    var singles := Singles(Picked(steps, at));
    forall k | 0 <= k < |at|
      ensures SharedAt(d, place.url, singles[k])
      ensures End(d, place.url, singles[k]) == Some(items[at[k]])
      ensures Way(d, place.url, singles[k]) == "/" + Shown(items[at[k]])
    {
      assert singles[k] == [steps[at[k]]] && singles[k][1..] == [];
      assert Way(d, ChildrenOf(items[at[k]].id.value), []) == "";
      assert "/" + Shown(items[at[k]]) + "" == "/" + Shown(items[at[k]]);
    }
    hide SharedAt, End, Way;
    forall k | 0 <= k < |at|
      ensures SharedIn(items, place.path)[k].shownAs == place.path + Way(d, place.url, singles[k])
    {
      var name := Shown(items[at[k]]);
      assert place.path + "/" + name == place.path + ("/" + name);
    }
    assert Traces(d, place.url, place.path, SharedIn(items, place.path), singles);
  }

  lemma KidsFit(d: Drive, place: Place, items: seq<Item>, steps: seq<Step>, at: seq<nat>)
    requires Places(d, place.url, items, steps) && FoldersFit(items, place.path, at) && NoRepeats(Picked(steps, at))
    ensures Kids(d, place.url, place.path, FoldersIn(items, place.path), Picked(steps, at))
  {
    hide ItemAt, FoldersIn;
  }

  /** A walk that ends has found the shared items at the end of all trails from here, and been to all folders. */
  lemma {:induction false} WalkSurveys(d: Drive, place: Place, depth: nat) returns (trails: seq<Trail>, folders: seq<Trail>)
    requires Walk(d, place, depth).Some?
    ensures SharedFrom(d, place.url, place.path, Walk(d, place, depth).value.shared, trails)
    ensures FoldersFrom(d, place.url, folders) && AllReadable(d, place.url, folders)
    ensures |folders| == Walk(d, place, depth).value.folders
    decreases depth, 1
  {
    hide GetAll, SharedIn, FoldersIn, SharedFrom, FoldersFrom, AllReadable, SharedBelow, FoldersBelow, Kids, Traces;
    hide ToShared, ToFolder, Readable, WalkEach;
    var items := GetAll(d, place.url).value;
    GetAllExactly(d, place.url);
    var own, kids := ListingHolds(d, place);
    var t, f := WalkEachSurveys(d, place.url, place.path, FoldersIn(items, place.path), kids, depth - 1);
    var below := WalkEach(d, FoldersIn(items, place.path), depth - 1).value;
    SharedTop(d, place.url, place.path, own, kids, SharedIn(items, place.path), below.shared, t);
    FoldersTop(d, place.url, kids, f);
    trails, folders := Singles(own) + t, [[]] + f;
  }

  lemma {:induction false} WalkEachSurveys(d: Drive, url: Url, path: string, places: seq<Place>, kids: seq<Step>, depth: nat)
    returns (trails: seq<Trail>, folders: seq<Trail>)
    requires Kids(d, url, path, places, kids) && WalkEach(d, places, depth).Some?
    ensures SharedBelow(d, url, path, kids, WalkEach(d, places, depth).value.shared, trails)
    ensures FoldersBelow(d, url, kids, folders) && AllReadable(d, url, folders)
    ensures |folders| == WalkEach(d, places, depth).value.folders
    decreases depth, 2, |places|
  {
    trails, folders := [], [];
    hide Walk, IsKid, ItemAt, Readable, SharedAt, FoldersFrom, SharedFrom, FolderAt, Way, End, UrlOf;
    if places != [] {
      var s, child := kids[0], places[0].url;
      var t, f := WalkSurveys(d, places[0], depth);
      KidsRest(d, url, path, places, kids);
      hide SharedBelow, FoldersBelow, AllReadable, Kids;
      var ts, fs := WalkEachSurveys(d, url, path, places[1..], kids[1..], depth);
      FoldersUnder(d, url, s, child, f);
      FoldersJoin(d, url, s, kids[1..], Under(s, f), fs);
      SharedUnder(d, url, path, s, child, Walk(d, places[0], depth).value.shared, t);
      SharedJoin(d, url, path, s, kids[1..], Walk(d, places[0], depth).value.shared, Under(s, t),
                 WalkEach(d, places[1..], depth).value.shared, ts);
      trails, folders := Under(s, t) + ts, Under(s, f) + fs;
    }
  }

  lemma KidsRest(d: Drive, url: Url, path: string, places: seq<Place>, kids: seq<Step>)
    requires places != [] && Kids(d, url, path, places, kids)
    ensures kids != [] && Kids(d, url, path, places[1..], kids[1..]) && kids[0] !in kids[1..]
    ensures kids == [kids[0]] + kids[1..]
    ensures IsKid(d, url, kids[0], places[0].url)
    ensures places[0].path == path + "/" + Shown(ItemAt(d, url, kids[0]).value)
  {
    hide ItemAt;
    forall i | 0 <= i < |kids[1..]| ensures kids[0] != kids[1..][i] { assert kids[0] != kids[i + 1]; }
  }

  /** With enough depth a walk ends, if there is an end to the folders and every one can be read. */
  lemma {:induction false} WalkEnds(d: Drive, place: Place, depth: nat)
    requires forall t :: FolderAt(d, place.url, t) ==> |t| < depth && Readable(d, UrlOf(d, place.url, t))
    ensures Walk(d, place, depth).Some?
    decreases depth, 1
  {
    hide GetAll, FoldersIn, Readable, Kids, SharedIn, WalkEach, ToFolder, ToShared, Traces;
    assert FolderAt(d, place.url, []) && UrlOf(d, place.url, []) == place.url;
    GetAllExactly(d, place.url);
    var own, kids := ListingHolds(d, place);
    hide FolderAt, UrlOf;
    EachEnds(d, place.url, place.path, FoldersIn(GetAll(d, place.url).value, place.path), kids, depth - 1);
  }

  lemma {:induction false} EachEnds(d: Drive, url: Url, path: string, places: seq<Place>, kids: seq<Step>, depth: nat)
    requires Kids(d, url, path, places, kids)
    requires forall t :: FolderAt(d, url, t) ==> |t| <= depth && Readable(d, UrlOf(d, url, t))
    ensures WalkEach(d, places, depth).Some?
    decreases depth, 2, |places|
  {
    hide Walk, IsKid, ItemAt, Readable, FolderAt, UrlOf, Way, End;
    if places != [] {
      KidsRest(d, url, path, places, kids);
      hide Kids;
      var s, child := kids[0], places[0].url;
      forall t | FolderAt(d, child, t) ensures |t| < depth && Readable(d, UrlOf(d, child, t)) {
        Through(d, url, s, child, t);
        assert FolderAt(d, url, [s] + t);
      }
      WalkEnds(d, places[0], depth);
      EachEnds(d, url, path, places[1..], kids[1..], depth);
    }
  }

  // ----- the scan -----

  /** The grants at the end of a trail: each permission of the item, under the names that lead to it. */
  function GrantsAt(d: Drive, trail: Trail): (r: seq<Grant>) {
    var item := End(d, RootChildren, trail);
    if item.None? || item.value.id.None? || item.value.id.value !in d.grants then []
    else
      var what := d.grants[item.value.id.value];
      seq(|what|, i requires 0 <= i < |what| => Grant(Way(d, RootChildren, trail), what[i]))
  }

  function GrantsAlong(d: Drive, trails: seq<Trail>): (r: seq<seq<Grant>>)
    ensures |r| == |trails| && forall k :: 0 <= k < |r| ==> r[k] == GrantsAt(d, trails[k])
  {
    seq(|trails|, k requires 0 <= k < |trails| => GrantsAt(d, trails[k]))
  }

  /** The item at the end of a trail, and that its permissions can be read. */
  predicate Answered(d: Drive, trail: Trail) {
    var item := End(d, RootChildren, trail);
    item.Some? && item.value.id.Some? && item.value.id.value in d.grants
  }

  lemma {:induction false} GrantsAreThose(d: Drive, shared: seq<SharedItem>, trails: seq<Trail>)
    requires Traces(d, RootChildren, "", shared, trails)
    ensures GrantsOf(d, shared).Some? <==> forall k :: 0 <= k < |trails| ==> Answered(d, trails[k])
    ensures GrantsOf(d, shared).Some? ==> GrantsOf(d, shared).value == Flatten(GrantsAlong(d, trails))
    decreases |shared|
  {
    hide SharedAt, End, Way;
    if shared != [] {
      var n := |shared| - 1;
      assert Traces(d, RootChildren, "", shared[..n], trails[..n]);
      GrantsAreThose(d, shared[..n], trails[..n]);
      assert GrantsAlong(d, trails)[..n] == GrantsAlong(d, trails[..n]);
      LabelIs(d, shared[n], trails[n]);
      assert forall k :: 0 <= k < n ==> trails[..n][k] == trails[k];
      hide GrantsAt;
    }
  }

  lemma LabelIs(d: Drive, shared: SharedItem, trail: Trail)
    requires SharedAt(d, RootChildren, trail) && End(d, RootChildren, trail).value.id == Some(shared.id)
    requires shared.shownAs == "" + Way(d, RootChildren, trail)
    ensures Answered(d, trail) <==> shared.id in d.grants
    ensures shared.id in d.grants ==> GrantsOn(d.grants[shared.id], shared.shownAs) == GrantsAt(d, trail)
  {
    hide End, Way;
    assert shared.shownAs == Way(d, RootChildren, trail);
  }

  /** All trails from the root to shared items, and all to folders. */
  ghost predicate Census(d: Drive, trails: seq<Trail>, folders: seq<Trail>) {
    && NoRepeats(trails) && (forall t :: t in trails <==> SharedAt(d, RootChildren, t))
    && FoldersFrom(d, RootChildren, folders)
  }

  /** There is an end to the folders; each can be read, and each shared item's permissions; and the caps are kept. */
  ghost predicate Within(d: Drive, maxFolders: nat, maxItems: nat, trails: seq<Trail>, folders: seq<Trail>) {
    && Census(d, trails, folders) && AllReadable(d, RootChildren, folders)
    && |folders| <= maxFolders && |trails| <= maxItems
    && forall k :: 0 <= k < |trails| ==> Answered(d, trails[k])
  }

  lemma FoundWithin(d: Drive, maxFolders: nat, maxItems: nat, depth: nat) returns (trails: seq<Trail>, folders: seq<Trail>)
    requires Walk(d, Place(RootChildren, ""), depth).Some?
    ensures var f := Walk(d, Place(RootChildren, ""), depth).value;
            && Census(d, trails, folders) && AllReadable(d, RootChildren, folders)
            && |folders| == f.folders && |trails| == |f.shared|
            && ((forall i :: 0 <= i < |f.shared| ==> f.shared[i].id in d.grants) <==>
                  forall k :: 0 <= k < |trails| ==> Answered(d, trails[k]))
            && (GrantsOf(d, f.shared).Some? ==> GrantsOf(d, f.shared).value == Flatten(GrantsAlong(d, trails)))
  {
    trails, folders := WalkSurveys(d, Place(RootChildren, ""), depth);
    var f := Walk(d, Place(RootChildren, ""), depth).value;
    hide Walk, FoldersFrom, SharedAt, End, Way;
    GrantsAreThose(d, f.shared, trails);
    GrantsExactly(d, f.shared);
    hide GrantsOf, Answered, AllReadable;
    forall t | t in trails ensures SharedAt(d, RootChildren, t) {
      var k :| 0 <= k < |trails| && trails[k] == t;
    }
  }

  /**
   * What a scan that lists has listed: for every trail of folders from the root to an item that is
   * marked as shared, on whatever page of a listing, that item's permissions under the names
   * along the trail; each as often as it is found, and nothing else.
   */
  lemma ListsEveryShare(d: Drive, maxFolders: nat, maxItems: nat) returns (trails: seq<Trail>, folders: seq<Trail>)
    requires Scan(d, maxFolders, maxItems).Listed?
    ensures Within(d, maxFolders, maxItems, trails, folders)
    ensures multiset(Scan(d, maxFolders, maxItems).grants) == multiset(Flatten(GrantsAlong(d, trails)))
  {
    CompleteOrRefused(d, maxFolders, maxItems);
    var depth :| WalksWithin(d, maxFolders, maxItems, depth);
    hide Scan, Walk, Census, AllReadable, GrantsOf, Answered;
    trails, folders := FoundWithin(d, maxFolders, maxItems, depth);
  }

  /** One grant in particular. */
  lemma ListedExactly(d: Drive, maxFolders: nat, maxItems: nat, on: string, what: string)
    requires Scan(d, maxFolders, maxItems).Listed?
    ensures Grant(on, what) in Scan(d, maxFolders, maxItems).grants <==>
              exists t :: SharedAt(d, RootChildren, t) && on == Way(d, RootChildren, t)
                          && Answered(d, t) && what in d.grants[End(d, RootChildren, t).value.id.value]
  {
    var trails, folders := ListsEveryShare(d, maxFolders, maxItems);
    hide Scan, SharedAt, End, Way, AllReadable, FoldersFrom;
    var grants, g := Scan(d, maxFolders, maxItems).grants, Grant(on, what);
    assert g in grants <==> g in multiset(grants);
    assert g in Flatten(GrantsAlong(d, trails)) <==> g in multiset(Flatten(GrantsAlong(d, trails)));
    FlattenHas(GrantsAlong(d, trails), g);
    hide Flatten;
    if g in grants {
      var k :| 0 <= k < |trails| && g in GrantsAlong(d, trails)[k];
      assert trails[k] in trails;
      assert Answered(d, trails[k]);
      GrantIsAt(d, trails[k], on, what);
    }
    if t :| SharedAt(d, RootChildren, t) && on == Way(d, RootChildren, t)
            && Answered(d, t) && what in d.grants[End(d, RootChildren, t).value.id.value] {
      var k :| 0 <= k < |trails| && trails[k] == t;
      GrantIsAt(d, t, on, what);
      assert g in GrantsAlong(d, trails)[k];
    }
  }

  lemma GrantIsAt(d: Drive, t: Trail, on: string, what: string)
    requires Answered(d, t)
    ensures Grant(on, what) in GrantsAt(d, t) <==>
              on == Way(d, RootChildren, t) && what in d.grants[End(d, RootChildren, t).value.id.value]
  {
    hide End, Way;
    var all := d.grants[End(d, RootChildren, t).value.id.value];
    if on == Way(d, RootChildren, t) && what in all {
      var i :| 0 <= i < |all| && all[i] == what;
      assert GrantsAt(d, t)[i] == Grant(on, what);
    }
  }

  lemma {:induction false} FlattenHas<T>(pages: seq<seq<T>>, x: T)
    ensures x in Flatten(pages) <==> exists k :: 0 <= k < |pages| && x in pages[k]
    decreases |pages|
  {
    if pages != [] {
      var n := |pages| - 1;
      FlattenHas(pages[..n], x);
      if k :| 0 <= k < n && x in pages[..n][k] { assert x in pages[k]; }
      if k :| 0 <= k < |pages| && x in pages[k] { if k < n { assert x in pages[..n][k]; } }
    }
  }

  lemma {:induction false} Longest(trails: seq<Trail>) returns (n: nat)
    ensures forall t :: t in trails ==> |t| < n
  {
    n := 1;
    if trails != [] {
      var last := trails[|trails| - 1];
      var before := Longest(trails[..|trails| - 1]);
      n := if before > |last| then before else |last| + 1;
      assert trails == trails[..|trails| - 1] + [last];
    }
  }

  /**
   * And when it lists: exactly if there is an end to the folders and to the shared items, no more of
   * either than the caps allow, every folder's listing ends within a hundred pages, and every shared
   * item's permissions can be read. Otherwise it refuses.
   */
  lemma ScanListsExactly(d: Drive, maxFolders: nat, maxItems: nat)
    ensures Scan(d, maxFolders, maxItems).Listed? <==>
              exists trails: seq<Trail>, folders: seq<Trail> :: Within(d, maxFolders, maxItems, trails, folders)
  {
    hide Within;
    if Scan(d, maxFolders, maxItems).Listed? {
      var trails, folders := ListsEveryShare(d, maxFolders, maxItems);
    }
    if trails: seq<Trail>, folders: seq<Trail> :| Within(d, maxFolders, maxItems, trails, folders) {
      WithinLists(d, maxFolders, maxItems, trails, folders);
    }
  }

  lemma WithinLists(d: Drive, maxFolders: nat, maxItems: nat, trails: seq<Trail>, folders: seq<Trail>)
    requires Within(d, maxFolders, maxItems, trails, folders)
    ensures Scan(d, maxFolders, maxItems).Listed?
  {
    hide Scan, Walk, SharedAt, FolderAt, UrlOf, Readable, Answered;
    var root := Place(RootChildren, "");
    var depth := Longest(folders);
    WalkEnds(d, root, depth);
    var ts, fs := FoundWithin(d, maxFolders, maxItems, depth);
    SameSize(trails, ts);
    SameSize(folders, fs);
    forall k | 0 <= k < |ts| ensures Answered(d, ts[k]) {
      assert ts[k] in ts && ts[k] in trails;
      var i :| 0 <= i < |trails| && trails[i] == ts[k];
      assert Answered(d, trails[i]);
    }
    assert WalksWithin(d, maxFolders, maxItems, depth);
    CompleteOrRefused(d, maxFolders, maxItems);
  }

  lemma SameSize<T>(a: seq<T>, b: seq<T>)
    requires NoRepeats(a) && NoRepeats(b) && forall x :: x in a <==> x in b
    ensures |a| == |b|
  {
    AsMany(a);
    AsMany(b);
    assert (set x | x in a) == (set x | x in b);
  }

  lemma {:induction false} AsMany<T>(a: seq<T>)
    requires NoRepeats(a)
    ensures |set x | x in a| == |a|
  {
    if a == [] {
      assert (set x | x in a) == {};
    } else {
      var n := |a| - 1;
      AsMany(a[..n]);
      assert a == a[..n] + [a[n]];
      assert (set x | x in a) == (set x | x in a[..n]) + {a[n]};
    }
  }
}
