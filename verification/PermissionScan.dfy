/**
 * The permission scan of a drive: a bounded breadth-first walk that answers completely
 * or refuses, and the recursive walk it is measured against.
 */
module PermissionScan {
  import opened Outcomes

  /** A driveItem, reduced to the fields the scan selects. An absent or empty id is `None`. */
  datatype Item = Item(id: Option<string>, name: Option<string>, shared: bool, isFolder: bool)

  /** What one request answers: a page and perhaps where the next one is. */
  datatype Page = Page(items: seq<Item>, next: Option<Url>)

  datatype Url = RootChildren | ChildrenOf(id: string) | NextLink(token: string)

  datatype Grant = Grant(on: string, what: string)

  /**
   * The drive as it stands while the scan runs: a request not in `pages` fails (an
   * exception, a status other than 200, a body that is not JSON), and an item not in
   * `grants` is one whose permissions could not be listed.
   */
  datatype Drive = Drive(pages: map<Url, Page>, grants: map<string, seq<string>>)

  const MAX_PAGES: nat := 100

  datatype Listing = Listed(grants: seq<Grant>) | NotDiscoverable

  // ----- one list, page by page -----

  function Pages(d: Drive, url: Url, left: nat): Option<seq<Item>>
    decreases left
  {
    if left == 0 || url !in d.pages then None
    else
      var page := d.pages[url];
      if page.next.None? then Some(page.items)
      else
        var rest := Pages(d, page.next.value, left - 1);
        if rest.None? then None else Some(page.items + rest.value)
  }

  /** Everything a folder lists, or a refusal if it does not stop within the page limit. */
  function GetAll(d: Drive, url: Url): Option<seq<Item>> {
    Pages(d, url, MAX_PAGES)
  }

  method GetAllPages(d: Drive, first: Url) returns (r: Option<seq<Item>>)
    ensures r == GetAll(d, first)
  {
    var out: seq<Item> := [];
    var url := Some(first);
    var pages: nat := 0;
    PrefixedNothing(GetAll(d, first));
    while url.Some?
      invariant pages <= MAX_PAGES
      invariant url.Some? ==> GetAll(d, first) == Prefixed(out, Pages(d, url.value, MAX_PAGES - pages))
      invariant url.None? ==> GetAll(d, first) == Some(out)
      decreases MAX_PAGES - pages, url.Some?
    {
      if pages + 1 > MAX_PAGES { return None; }
      pages := pages + 1;
      if url.value !in d.pages { return None; }
      var page := d.pages[url.value];
      ghost var before := out;
      out := out + page.items;
      url := page.next;
      if url.Some? {
        PrefixedTwice(before, page.items, Pages(d, url.value, MAX_PAGES - pages));
      }
    }
    return Some(out);
  }

  function Prefixed(out: seq<Item>, rest: Option<seq<Item>>): Option<seq<Item>> {
    if rest.None? then None else Some(out + rest.value)
  }

  lemma PrefixedNothing(rest: Option<seq<Item>>)
    ensures Prefixed([], rest) == rest
  {
    if rest.Some? { assert [] + rest.value == rest.value; }
  }

  lemma PrefixedTwice(a: seq<Item>, b: seq<Item>, rest: Option<seq<Item>>)
    ensures Prefixed(a, Prefixed(b, rest)) == Prefixed(a + b, rest)
  {
    if rest.Some? { assert a + (b + rest.value) == a + b + rest.value; }
  }

  // ----- one folder -----

  datatype Place = Place(url: Url, path: string)

  datatype SharedItem = SharedItem(id: string, shownAs: string)

  function Label(path: string, item: Item): string
    requires item.id.Some?
  {
    path + "/" + (if item.name.Some? then item.name.value else item.id.value)
  }

  /** The shared items a folder's children show, in order; a child without an id is passed over. */
  function SharedIn(items: seq<Item>, path: string): seq<SharedItem> {
    if items == [] then []
    else
      var n := |items| - 1;
      SharedIn(items[..n], path)
      + (if items[n].id.Some? && items[n].shared then [SharedItem(items[n].id.value, Label(path, items[n]))] else [])
  }

  /** The folders among them, to be descended into. */
  function FoldersIn(items: seq<Item>, path: string): seq<Place> {
    if items == [] then []
    else
      var n := |items| - 1;
      FoldersIn(items[..n], path)
      + (if items[n].id.Some? && items[n].isFolder then [Place(ChildrenOf(items[n].id.value), Label(path, items[n]))]
         else [])
  }

  // ----- the reference: a recursive walk -----

  datatype Found = Found(folders: nat, shared: seq<SharedItem>)

  /** Read a folder, then walk each folder in it; `None` when a read fails or `depth` does not suffice. */
  function Walk(d: Drive, place: Place, depth: nat): Option<Found>
    decreases depth, 1
  {
    if depth == 0 then None
    else
      var items := GetAll(d, place.url);
      if items.None? then None
      else
        var below := WalkEach(d, FoldersIn(items.value, place.path), depth - 1);
        if below.None? then None
        else Some(Found(1 + below.value.folders, SharedIn(items.value, place.path) + below.value.shared))
  }

  function WalkEach(d: Drive, places: seq<Place>, depth: nat): Option<Found>
    decreases depth, 2, |places|
  {
    if places == [] then Some(Found(0, []))
    else
      var first := Walk(d, places[0], depth);
      var rest := WalkEach(d, places[1..], depth);
      if first.None? || rest.None? then None
      else Some(Found(first.value.folders + rest.value.folders, first.value.shared + rest.value.shared))
  }

  // ----- the bounded breadth-first walk, as a function -----

  /**
   * Work off the queue: `left` folders may still be read, `shared` items are already
   * held. `None` is the refusal, whichever cap or read brought it about.
   */
  function Bfs(d: Drive, queue: seq<Place>, left: nat, maxItems: nat, shared: seq<SharedItem>): Option<seq<SharedItem>>
    decreases left
  {
    if queue == [] then Some(shared)
    else if left == 0 then None
    else
      var items := GetAll(d, queue[0].url);
      if items.None? then None
      else
        var more := shared + SharedIn(items.value, queue[0].path);
        if |more| > maxItems then None
        else Bfs(d, queue[1..] + FoldersIn(items.value, queue[0].path), left - 1, maxItems, more)
  }

  function GrantsOf(d: Drive, shared: seq<SharedItem>): Option<seq<Grant>> {
    if shared == [] then Some([])
    else
      var n := |shared| - 1;
      var before := GrantsOf(d, shared[..n]);
      if before.None? || shared[n].id !in d.grants then None
      else Some(before.value + GrantsOn(d.grants[shared[n].id], shared[n].shownAs))
  }

  function GrantsOn(what: seq<string>, on: string): seq<Grant> {
    seq(|what|, i requires 0 <= i < |what| => Grant(on, what[i]))
  }

  function Scan(d: Drive, maxFolders: nat, maxItems: nat): Listing {
    var shared := Bfs(d, [Place(RootChildren, "")], maxFolders, maxItems, []);
    if shared.None? then NotDiscoverable
    else
      var grants := GrantsOf(d, shared.value);
      if grants.None? then NotDiscoverable else Listed(grants.value)
  }

  // ----- the scan as it is written -----

  method ScanDrivePermissions(d: Drive, applicationPermissions: bool, maxFolders: nat, maxItems: nat)
      returns (r: Listing)
    ensures r == if applicationPermissions then Scan(d, maxFolders, maxItems) else NotDiscoverable
  {
    if !applicationPermissions { return NotDiscoverable; }
    var queue := [Place(RootChildren, "")];
    var shared: seq<SharedItem> := [];
    var folders: nat := 0;
    while |queue| > 0
      invariant folders <= maxFolders && |shared| <= maxItems
      invariant Bfs(d, [Place(RootChildren, "")], maxFolders, maxItems, [])
             == Bfs(d, queue, maxFolders - folders, maxItems, shared)
      decreases maxFolders - folders, |queue|
    {
      var next := queue[0];
      if folders + 1 > maxFolders { return NotDiscoverable; }
      var page := GetAllPages(d, next.url);
      if page.None? { return NotDiscoverable; }
      var ok, grown, more := CollectFolder(page.value, next.path, shared, maxItems);
      if !ok { return NotDiscoverable; }
      shared := grown;
      queue := queue[1..] + more;
      folders := folders + 1;
    }
    var grants := ReadGrants(d, shared);
    if grants.None? { return NotDiscoverable; }
    return Listed(grants.value);
  }

  /** The permissions of each shared item in turn; one that cannot be read ends the scan. */
  method ReadGrants(d: Drive, shared: seq<SharedItem>) returns (r: Option<seq<Grant>>)
    ensures r == GrantsOf(d, shared)
  {
    var grants: seq<Grant> := [];
    for i := 0 to |shared|
      invariant GrantsOf(d, shared[..i]) == Some(grants)
    {
      assert shared[..i + 1][..i] == shared[..i];
      if shared[i].id !in d.grants {
        GrantsRefused(d, shared, i);
        return None;
      }
      grants := grants + GrantsOn(d.grants[shared[i].id], shared[i].shownAs);
    }
    assert shared[..|shared|] == shared;
    return Some(grants);
  }

  /** One folder's children: hold what is shared, note which folders follow, stop at the item cap. */
  method CollectFolder(items: seq<Item>, path: string, shared: seq<SharedItem>, maxItems: nat)
      returns (ok: bool, grown: seq<SharedItem>, more: seq<Place>)
    ensures ok <==> |SharedIn(items, path)| == 0 || |shared| + |SharedIn(items, path)| <= maxItems
    ensures ok ==> grown == shared + SharedIn(items, path) && more == FoldersIn(items, path)
  {
    grown, more := shared, [];
    for i := 0 to |items|
      invariant grown == shared + SharedIn(items[..i], path)
      invariant more == FoldersIn(items[..i], path)
      invariant |SharedIn(items[..i], path)| == 0 || |grown| <= maxItems
    {
      assert items[..i + 1][..i] == items[..i];
      if items[i].id.None? { continue; }
      var shownAs := Label(path, items[i]);
      if items[i].shared {
        if |grown| >= maxItems {
          SharedGrows(items, i + 1, path);
          return false, grown, more;
        }
        grown := grown + [SharedItem(items[i].id.value, shownAs)];
      }
      if items[i].isFolder {
        more := more + [Place(ChildrenOf(items[i].id.value), shownAs)];
      }
    }
    assert items[..|items|] == items;
    ok := true;
  }

  lemma {:induction false} SharedGrows(items: seq<Item>, i: nat, path: string)
    requires i <= |items|
    ensures |SharedIn(items[..i], path)| <= |SharedIn(items, path)|
    decreases |items|
  {
    if i == |items| {
      assert items[..i] == items;
    } else {
      var n := |items| - 1;
      assert items[..n][..i] == items[..i];
      SharedGrows(items[..n], i, path);
    }
  }

  lemma {:induction false} GrantsRefused(d: Drive, shared: seq<SharedItem>, i: nat)
    requires i < |shared| && shared[i].id !in d.grants
    ensures GrantsOf(d, shared) == None
    decreases |shared|
  {
    if i < |shared| - 1 { GrantsRefused(d, shared[..|shared| - 1], i); }
  }

  // ----- the bounded walk against the recursive one -----

  lemma {:induction false} WalkDeeper(d: Drive, place: Place, depth: nat)
    requires Walk(d, place, depth).Some?
    ensures Walk(d, place, depth + 1) == Walk(d, place, depth)
    decreases depth, 1
  {
    hide GetAll, SharedIn, FoldersIn;
    WalkEachDeeper(d, FoldersIn(GetAll(d, place.url).value, place.path), depth - 1);
  }

  lemma {:induction false} WalkEachDeeper(d: Drive, places: seq<Place>, depth: nat)
    requires WalkEach(d, places, depth).Some?
    ensures WalkEach(d, places, depth + 1) == WalkEach(d, places, depth)
    decreases depth, 2, |places|
  {
    hide Walk;
    if places != [] {
      WalkDeeper(d, places[0], depth);
      WalkEachDeeper(d, places[1..], depth);
    }
  }

  lemma {:induction false} WalkEachAppend(d: Drive, a: seq<Place>, b: seq<Place>, depth: nat)
    ensures WalkEach(d, a + b, depth).Some? <==> WalkEach(d, a, depth).Some? && WalkEach(d, b, depth).Some?
    ensures WalkEach(d, a + b, depth).Some? ==>
              var x, y, both := WalkEach(d, a, depth).value, WalkEach(d, b, depth).value, WalkEach(d, a + b, depth).value;
              both.folders == x.folders + y.folders && both.shared == x.shared + y.shared
    decreases |a|
  {
    hide Walk;
    if a == [] {
      assert a + b == b;
    } else {
      assert (a + b)[1..] == a[1..] + b;
      WalkEachAppend(d, a[1..], b, depth);
    }
  }

  lemma Shuffle(shared: seq<SharedItem>, own: seq<SharedItem>, below: seq<SharedItem>, rest: seq<SharedItem>)
    ensures multiset(shared + own) + multiset(rest + below) == multiset(shared) + multiset(own + below + rest)
  {
  }

  lemma WalkQueue(d: Drive, queue: seq<Place>, k: nat)
    requires queue != [] && GetAll(d, queue[0].url).Some?
    requires WalkEach(d, queue[1..], k).Some?
    requires WalkEach(d, FoldersIn(GetAll(d, queue[0].url).value, queue[0].path), k).Some?
    ensures var items := GetAll(d, queue[0].url).value;
            var below := WalkEach(d, FoldersIn(items, queue[0].path), k).value;
            var rest := WalkEach(d, queue[1..], k).value;
            WalkEach(d, queue, k + 1)
              == Some(Found(1 + below.folders + rest.folders, SharedIn(items, queue[0].path) + below.shared + rest.shared))
  {
    hide GetAll, SharedIn, FoldersIn;
    WalkEachDeeper(d, queue[1..], k);
  }

  /** `depth` suffices to walk everything queued, within the caps, and what is held in the end is what that finds. */
  predicate Accounts(d: Drive, queue: seq<Place>, left: nat, maxItems: nat, shared: seq<SharedItem>,
                     held: seq<SharedItem>, depth: nat) {
    var f := WalkEach(d, queue, depth);
    && f.Some? && f.value.folders <= left && |held| <= maxItems
    && multiset(held) == multiset(shared) + multiset(f.value.shared)
  }

  lemma AccountsStep(d: Drive, queue: seq<Place>, left: nat, maxItems: nat, shared: seq<SharedItem>,
                     held: seq<SharedItem>, k: nat)
    requires queue != [] && left > 0 && GetAll(d, queue[0].url).Some?
    requires var items := GetAll(d, queue[0].url).value;
             Accounts(d, queue[1..] + FoldersIn(items, queue[0].path), left - 1, maxItems,
                      shared + SharedIn(items, queue[0].path), held, k)
    ensures Accounts(d, queue, left, maxItems, shared, held, k + 1)
  {
    hide GetAll, SharedIn, FoldersIn, WalkEach, Walk;
    var items := GetAll(d, queue[0].url).value;
    var own, kids := SharedIn(items, queue[0].path), FoldersIn(items, queue[0].path);
    WalkEachAppend(d, queue[1..], kids, k);
    WalkQueue(d, queue, k);
    Shuffle(shared, own, WalkEach(d, kids, k).value.shared, WalkEach(d, queue[1..], k).value.shared);
  }

  lemma AccountsNothing(d: Drive, left: nat, maxItems: nat, shared: seq<SharedItem>)
    requires |shared| <= maxItems
    ensures Accounts(d, [], left, maxItems, shared, shared, 0)
  {
    assert multiset(shared) == multiset(shared) + multiset([]);
  }

  /** If the queue is worked off within the caps, the recursive walk of everything queued ends and finds the same. */
  lemma {:induction false} BfsIsWalk(d: Drive, queue: seq<Place>, left: nat, maxItems: nat, shared: seq<SharedItem>)
    returns (depth: nat)
    requires |shared| <= maxItems
    requires Bfs(d, queue, left, maxItems, shared).Some?
    ensures Accounts(d, queue, left, maxItems, shared, Bfs(d, queue, left, maxItems, shared).value, depth)
    decreases left
  {
    hide GetAll, SharedIn, FoldersIn, Accounts;
    if queue == [] {
      depth := 0;
      AccountsNothing(d, left, maxItems, shared);
    } else {
      var items := GetAll(d, queue[0].url).value;
      var own, kids := SharedIn(items, queue[0].path), FoldersIn(items, queue[0].path);
      var k := BfsIsWalk(d, queue[1..] + kids, left - 1, maxItems, shared + own);
      AccountsStep(d, queue, left, maxItems, shared, Bfs(d, queue, left, maxItems, shared).value, k);
      depth := k + 1;
    }
  }

  /** If the recursive walk ends and stays within the caps, so does the queue. */
  lemma {:induction false} WalkIsBfs(d: Drive, queue: seq<Place>, left: nat, maxItems: nat, shared: seq<SharedItem>, depth: nat)
    requires WalkEach(d, queue, depth).Some?
    requires WalkEach(d, queue, depth).value.folders <= left
    requires |shared| + |WalkEach(d, queue, depth).value.shared| <= maxItems
    ensures Bfs(d, queue, left, maxItems, shared).Some?
    decreases left
  {
    hide GetAll, SharedIn, FoldersIn;
    if queue != [] {
      var first := Walk(d, queue[0], depth).value;
      var items := GetAll(d, queue[0].url).value;
      var own, kids := SharedIn(items, queue[0].path), FoldersIn(items, queue[0].path);
      WalkEachDeeper(d, kids, depth - 1);
      WalkEachAppend(d, queue[1..], kids, depth);
      WalkIsBfs(d, queue[1..] + kids, left - 1, maxItems, shared + own, depth);
    }
  }

  // ----- the grants do not depend on the order of the walk -----

  lemma {:induction false} GrantsExactly(d: Drive, shared: seq<SharedItem>)
    ensures GrantsOf(d, shared).Some? <==> forall i :: 0 <= i < |shared| ==> shared[i].id in d.grants
  {
    if shared != [] {
      var n := |shared| - 1;
      GrantsExactly(d, shared[..n]);
      assert forall i :: 0 <= i < n ==> shared[..n][i] == shared[i];
    }
  }

  lemma {:induction false} GrantsTakeOut(d: Drive, shared: seq<SharedItem>, i: nat)
    requires i < |shared| && GrantsOf(d, shared).Some?
    ensures GrantsOf(d, shared[..i] + shared[i + 1..]).Some? && shared[i].id in d.grants
    ensures multiset(GrantsOf(d, shared).value)
         == multiset(GrantsOf(d, shared[..i] + shared[i + 1..]).value)
            + multiset(GrantsOn(d.grants[shared[i].id], shared[i].shownAs))
    decreases |shared|
  {
    hide GrantsOn, GrantsOf;
    var n := |shared| - 1;
    var without := shared[..i] + shared[i + 1..];
    assert shared == shared[..n] + [shared[n]];
    GrantsSnoc(d, shared[..n], shared[n]);
    if i == n {
      assert without == shared[..n];
    } else {
      assert without == (shared[..n][..i] + shared[..n][i + 1..]) + [shared[n]];
      GrantsSnoc(d, shared[..n][..i] + shared[..n][i + 1..], shared[n]);
      GrantsTakeOut(d, shared[..n], i);
    }
  }

  lemma GrantsSnoc(d: Drive, before: seq<SharedItem>, last: SharedItem)
    ensures GrantsOf(d, before + [last])
         == if GrantsOf(d, before).None? || last.id !in d.grants then None
            else Some(GrantsOf(d, before).value + GrantsOn(d.grants[last.id], last.shownAs))
  {
    assert (before + [last])[..|before|] == before;
    hide GrantsOn;
  }

  lemma GrantsIff(d: Drive, shared: seq<SharedItem>)
    ensures GrantsOf(d, shared).Some? <==> forall x :: x in multiset(shared) ==> x.id in d.grants
  {
    hide GrantsOf;
    GrantsExactly(d, shared);
    assert forall x :: x in multiset(shared) <==> x in shared;
  }

  lemma TakeOut(a: seq<SharedItem>, i: nat)
    requires i < |a|
    ensures multiset(a) == multiset(a[..i] + a[i + 1..]) + multiset{a[i]}
    ensures multiset(a[..i] + a[i + 1..]) == multiset(a) - multiset{a[i]}
  {
    assert a == a[..i] + [a[i]] + a[i + 1..];
  }

  lemma {:induction false} SameGrants(d: Drive, a: seq<SharedItem>, b: seq<SharedItem>)
    requires multiset(a) == multiset(b)
    ensures GrantsOf(d, a).Some? <==> GrantsOf(d, b).Some?
    ensures GrantsOf(d, a).Some? ==> multiset(GrantsOf(d, a).value) == multiset(GrantsOf(d, b).value)
    decreases |a|
  {
    hide GrantsOf, GrantsOn;
    GrantsIff(d, a);
    GrantsIff(d, b);
    assert |multiset(a)| == |a| && |multiset(b)| == |b|;
    if GrantsOf(d, a).Some? && a != [] {
      var n := |a| - 1;
      assert a[n] in multiset(b);
      var i :| 0 <= i < |b| && b[i] == a[n];
      TakeOut(a, n);
      TakeOut(b, i);
      SameGrants(d, a[..n] + a[n + 1..], b[..i] + b[i + 1..]);
      GrantsTakeOut(d, a, n);
      GrantsTakeOut(d, b, i);
    } else if a == [] {
      assert b == [];
    }
  }

  /** The recursive walk from the root ends, within the caps, and every shared item's permissions can be read. */
  predicate WalksWithin(d: Drive, maxFolders: nat, maxItems: nat, depth: nat) {
    var f := Walk(d, Place(RootChildren, ""), depth);
    && f.Some? && f.value.folders <= maxFolders && |f.value.shared| <= maxItems
    && forall i :: 0 <= i < |f.value.shared| ==> f.value.shared[i].id in d.grants
  }

  /**
   * Complete or refused: the scan lists exactly when the plain recursive walk ends,
   * within both caps, with every read succeeding; and what it lists are then exactly the
   * grants that walk collects.
   */
  lemma CompleteOrRefused(d: Drive, maxFolders: nat, maxItems: nat)
    ensures Scan(d, maxFolders, maxItems).Listed? <==> exists depth :: WalksWithin(d, maxFolders, maxItems, depth)
    ensures forall depth :: WalksWithin(d, maxFolders, maxItems, depth) ==>
              var f := Walk(d, Place(RootChildren, ""), depth).value;
              && GrantsOf(d, f.shared).Some?
              && multiset(Scan(d, maxFolders, maxItems).grants) == multiset(GrantsOf(d, f.shared).value)
  {
    hide Walk, WalkEach, Bfs, GrantsOf;
    var root := Place(RootChildren, "");
    var bfs := Bfs(d, [root], maxFolders, maxItems, []);
    forall depth ensures WalkEach(d, [root], depth) == Walk(d, root, depth) { WalkOne(d, root, depth); }
    if Scan(d, maxFolders, maxItems).Listed? {
      var depth := BfsIsWalk(d, [root], maxFolders, maxItems, []);
      var f := Walk(d, root, depth).value;
      SameGrants(d, bfs.value, f.shared);
      GrantsExactly(d, f.shared);
      assert |multiset(bfs.value)| == |multiset(f.shared)|;
      assert WalksWithin(d, maxFolders, maxItems, depth);
    }
    forall depth | WalksWithin(d, maxFolders, maxItems, depth)
      ensures Scan(d, maxFolders, maxItems).Listed?
      ensures GrantsOf(d, Walk(d, root, depth).value.shared).Some?
      ensures multiset(Scan(d, maxFolders, maxItems).grants)
           == multiset(GrantsOf(d, Walk(d, root, depth).value.shared).value)
    {
      WalkIsBfs(d, [root], maxFolders, maxItems, [], depth);
      var k := BfsIsWalk(d, [root], maxFolders, maxItems, []);
      OneWalk(d, root, depth, k);
      var f := Walk(d, root, depth).value;
      SameGrants(d, bfs.value, f.shared);
      GrantsExactly(d, f.shared);
    }
  }

  lemma WalkOne(d: Drive, place: Place, depth: nat)
    ensures WalkEach(d, [place], depth) == Walk(d, place, depth)
  {
    hide Walk;
    assert [place][1..] == [];
    var f := Walk(d, place, depth);
    if f.Some? { assert f.value.shared + [] == f.value.shared; }
  }

  /** A walk that ends finds the same at every sufficient depth. */
  lemma {:induction false} OneWalk(d: Drive, place: Place, a: nat, b: nat)
    requires Walk(d, place, a).Some? && Walk(d, place, b).Some?
    ensures Walk(d, place, a) == Walk(d, place, b)
    decreases if a < b then b - a else a - b
  {
    hide Walk;
    if a < b {
      WalkDeeper(d, place, a);
      OneWalk(d, place, a + 1, b);
    } else if b < a {
      WalkDeeper(d, place, b);
      OneWalk(d, place, a, b + 1);
    }
  }

  /**
   * Folders that lead back into one another: each of these urls, if it can be read, lists
   * a folder whose url is again among them.
   */
  predicate Endless(d: Drive, urls: set<Url>) {
    forall u :: u in urls && GetAll(d, u).Some? ==>
      exists i :: 0 <= i < |GetAll(d, u).value|
        && (var item := GetAll(d, u).value[i]; item.id.Some? && item.isFolder && ChildrenOf(item.id.value) in urls)
  }

  /** A drive whose folders form a cycle is refused: the scan stops, and does not list. */
  lemma CycleIsRefused(d: Drive, urls: set<Url>, maxFolders: nat, maxItems: nat)
    requires RootChildren in urls && Endless(d, urls)
    ensures Scan(d, maxFolders, maxItems) == NotDiscoverable
  {
    forall depth ensures !WalksWithin(d, maxFolders, maxItems, depth) {
      NeverEnds(d, urls, Place(RootChildren, ""), depth);
    }
    CompleteOrRefused(d, maxFolders, maxItems);
    hide Scan, WalksWithin;
  }

  lemma {:induction false} NeverEnds(d: Drive, urls: set<Url>, place: Place, depth: nat)
    requires place.url in urls && Endless(d, urls)
    ensures Walk(d, place, depth).None?
    decreases depth
  {
    hide GetAll, Label;
    if depth > 0 && GetAll(d, place.url).Some? {
      var items := GetAll(d, place.url).value;
      var i :| 0 <= i < |items| && items[i].id.Some? && items[i].isFolder && ChildrenOf(items[i].id.value) in urls;
      var k := FolderIsQueued(items, place.path, i);
      var kids := FoldersIn(items, place.path);
      NeverEnds(d, urls, kids[k], depth - 1);
      EachNeeded(d, kids, depth - 1, k);
    }
  }

  lemma {:induction false} FolderIsQueued(items: seq<Item>, path: string, i: nat) returns (k: nat)
    requires i < |items| && items[i].id.Some? && items[i].isFolder
    ensures k < |FoldersIn(items, path)| && FoldersIn(items, path)[k].url == ChildrenOf(items[i].id.value)
    decreases |items|
  {
    var n := |items| - 1;
    if i < n {
      k := FolderIsQueued(items[..n], path, i);
    } else {
      k := |FoldersIn(items[..n], path)|;
    }
  }

  lemma {:induction false} EachNeeded(d: Drive, places: seq<Place>, depth: nat, k: nat)
    requires k < |places| && Walk(d, places[k], depth).None?
    ensures WalkEach(d, places, depth).None?
    decreases |places|
  {
    hide Walk;
    if k > 0 { EachNeeded(d, places[1..], depth, k - 1); }
  }
}
