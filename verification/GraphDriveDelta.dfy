/**
 * The OneDrive delta listing: what becomes of every entry, and where the next poll starts.
 */
module GraphDriveDelta {
  import opened Outcomes
  import opened Sequences
  import opened Text
  import opened GraphPath

  /** A driveItem; the empty string stands for an absent id or name. */
  datatype Entry = Entry(id: string, name: string, parent: Option<string>, folder: bool, deleted: bool)

  datatype Page = Page(entries: seq<Entry>, next: bool, delta: Option<string>)

  /** The answers to the requests of one poll, in order; `None` for one that is not a 200. */
  type Answers = seq<Option<Page>>

  datatype Item = Item(path: string, sourceRef: string)

  datatype Listed = Listed(items: seq<Item>, removed: seq<string>, cursor: string)

  // ----- the cursor -----

  const PREFIX := "graph-drive-delta:"

  function EncodeCursor(folderPath: string, deltaLink: string): string {
    PREFIX + folderPath + ":" + deltaLink
  }

  /** The delta link in a cursor; `None` where decoding throws. */
  function DecodeCursor(value: string): Option<string> {
    if !(PREFIX <= value) then None
    else
      var parts := Split(value[|PREFIX|..], ':');
      if |parts| < 2 then None else Some(Join(parts[1..], ':'))
  }

  /** The first request of a poll: the cursor's link if it can be read, even an empty one, else the folder's own. */
  function FirstRequest(base: string, cursor: Option<string>): string {
    if cursor.None? || DecodeCursor(cursor.value).None? then base else DecodeCursor(cursor.value).value
  }

  // ----- one poll -----

  /** All entries of the pages a poll reads, and the delta link of the last one. */
  function ReadAll(answers: Answers): Option<(seq<Entry>, Option<string>)> {
    if answers == [] || answers[0].None? then None
    else if !answers[0].value.next then Some((answers[0].value.entries, answers[0].value.delta))
    else
      var rest := ReadAll(answers[1..]);
      if rest.None? then None else Some((answers[0].value.entries + rest.value.0, rest.value.1))
  }

  predicate IsFile(e: Entry) {
    !e.deleted && !e.folder
  }

  function ItemsOf(entries: seq<Entry>): seq<Item> {
    if entries == [] then []
    else
      var e := entries[|entries| - 1];
      var path := ItemPath(e.name, e.parent);
      ItemsOf(entries[..|entries| - 1]) + (if IsFile(e) && path.Some? then [Item(path.value, e.id)] else [])
  }

  function RemovedOf(entries: seq<Entry>): seq<string> {
    if entries == [] then []
    else
      var e := entries[|entries| - 1];
      RemovedOf(entries[..|entries| - 1]) + (if e.deleted && e.id != "" then [e.id] else [])
  }

  function FilesOf(entries: seq<Entry>): seq<Entry> {
    if entries == [] then []
    else
      var e := entries[|entries| - 1];
      FilesOf(entries[..|entries| - 1]) + (if IsFile(e) then [e] else [])
  }

  /** What `listSince` answers; `None` where it throws. */
  function Poll(folderPath: string, answers: Answers): Option<Listed> {
    match ReadAll(answers)
    case None => None
    case Some((entries, delta)) =>
      Some(Listed(ItemsOf(entries), RemovedOf(entries), EncodeCursor(folderPath, delta.GetOr(""))))
  }

  method ListSince(folderPath: string, answers: Answers) returns (r: Option<Listed>)
    ensures r == Poll(folderPath, answers)
  {
    hide ItemPath;
    var files: seq<Entry> := [];
    var removed: seq<string> := [];
    var delta: Option<string> := None;
    ghost var read: seq<Entry> := [];
    var request := 0;
    var more := true;
    assert answers[0..] == answers;
    AfterNothing(ReadAll(answers));
    while more
      invariant 0 <= request <= |answers|
      invariant files == FilesOf(read) && removed == RemovedOf(read)
      invariant more ==> ReadAll(answers) == After(read, ReadAll(answers[request..]))
      invariant !more ==> ReadAll(answers) == Some((read, delta))
      decreases |answers| - request, more
    {
      if request == |answers| || answers[request].None? { return None; }
      var page := answers[request].value;
      ghost var before := read;
      assert answers[request..][0] == answers[request] && answers[request..][1..] == answers[request + 1..];
      for i := 0 to |page.entries|
        invariant read == before + page.entries[..i]
        invariant files == FilesOf(read) && removed == RemovedOf(read)
      {
        var item := page.entries[i];
        var now := before + page.entries[..i + 1];
        assert now[..|now| - 1] == before + page.entries[..i] && now[|now| - 1] == item;
        read := now;
        if item.deleted {
          if item.id != "" { removed := removed + [item.id]; }
        } else if !item.folder {
          files := files + [item];
        }
      }
      assert page.entries[..|page.entries|] == page.entries;
      delta := page.delta;
      request := request + 1;
      more := page.next;
      AfterOne(before, page, ReadAll(answers[request..]));
    }
    var items: seq<Item> := [];
    for i := 0 to |files|
      invariant items == ItemsOf(files[..i])
    {
      assert files[..i + 1][..i] == files[..i];
      var path := ItemPath(files[i].name, files[i].parent);
      FilesAreFiles(read, i);
      if path.Some? { items := items + [Item(path.value, files[i].id)]; }
    }
    assert files[..|files|] == files;
    ItemsOfFiles(read);
    return Some(Listed(items, removed, EncodeCursor(folderPath, delta.GetOr(""))));
  }

  function After(read: seq<Entry>, rest: Option<(seq<Entry>, Option<string>)>): Option<(seq<Entry>, Option<string>)> {
    if rest.None? then None else Some((read + rest.value.0, rest.value.1))
  }

  lemma AfterNothing(rest: Option<(seq<Entry>, Option<string>)>)
    ensures After([], rest) == rest
  {
    if rest.Some? { assert [] + rest.value.0 == rest.value.0; }
  }

  lemma AfterOne(read: seq<Entry>, page: Page, rest: Option<(seq<Entry>, Option<string>)>)
    ensures rest.Some? ==> (read + page.entries) + rest.value.0 == read + (page.entries + rest.value.0)
  {
  }

  lemma {:induction false} FilesAreFiles(entries: seq<Entry>, i: nat)
    requires i < |FilesOf(entries)|
    ensures IsFile(FilesOf(entries)[i])
  {
    var n := |entries| - 1;
    if i < |FilesOf(entries[..n])| { FilesAreFiles(entries[..n], i); }
  }

  lemma {:induction false} ItemsOfFiles(entries: seq<Entry>)
    ensures ItemsOf(FilesOf(entries)) == ItemsOf(entries)
  {
    hide ItemPath;
    if entries != [] {
      var n := |entries| - 1;
      var files := FilesOf(entries[..n]);
      ItemsOfFiles(entries[..n]);
      if IsFile(entries[n]) {
        assert FilesOf(entries) == files + [entries[n]];
        assert (files + [entries[n]])[..|files|] == files && (files + [entries[n]])[|files|] == entries[n];
      } else {
        assert FilesOf(entries) == files && ItemsOf(entries) == ItemsOf(entries[..n]);
      }
    }
  }

  // ----- every entry is accounted for -----

  function Skipped(entries: seq<Entry>): seq<Entry> {
    if entries == [] then []
    else
      var e := entries[|entries| - 1];
      var out := (e.deleted && e.id == "") || (!e.deleted && e.folder) || (IsFile(e) && ItemPath(e.name, e.parent).None?);
      Skipped(entries[..|entries| - 1]) + (if out then [e] else [])
  }

  /** Each entry is an item, a removal, or one of those the listing leaves out. */
  lemma {:induction false} EveryEntryCounted(entries: seq<Entry>)
    ensures |ItemsOf(entries)| + |RemovedOf(entries)| + |Skipped(entries)| == |entries|
  {
    hide ItemPath;
    if entries != [] { EveryEntryCounted(entries[..|entries| - 1]); }
  }

  /** An entry is left out for one of three reasons: a folder, a removal without an id, a file without a place. */
  lemma {:induction false} SkippedExactly(entries: seq<Entry>, e: Entry)
    ensures e in Skipped(entries) <==>
              e in entries && (if e.deleted then e.id == "" else e.folder || ItemPath(e.name, e.parent).None?)
  {
    hide ItemPath;
    if entries != [] {
      var n := |entries| - 1;
      SkippedExactly(entries[..n], e);
      assert entries == entries[..n] + [entries[n]];
    }
  }

  // ----- what a poll answers, told from the pages -----

  /** Every request up to this one is answered, and this is the first page without a nextLink. */
  predicate EndsAt(answers: Answers, last: nat) {
    && last < |answers|
    && (forall i :: 0 <= i <= last ==> answers[i].Some?)
    && (forall i :: 0 <= i < last ==> answers[i].value.next)
    && !answers[last].value.next
  }

  /** Everything on the pages up to that one. */
  function EntriesUpTo(answers: Answers, last: nat): seq<Entry>
    requires EndsAt(answers, last)
  {
    Flatten(PagesUpTo(answers, last))
  }

  function PagesUpTo(answers: Answers, last: nat): (r: seq<seq<Entry>>)
    requires EndsAt(answers, last)
    ensures |r| == last + 1 && forall i :: 0 <= i <= last ==> r[i] == answers[i].value.entries
  {
    seq(last + 1, i requires 0 <= i <= last => answers[i].value.entries)
  }

  lemma EndsAfter(answers: Answers, last: nat)
    requires answers != [] && answers[0].Some? && answers[0].value.next
    ensures EndsAt(answers, last) <==> last > 0 && EndsAt(answers[1..], last - 1)
    ensures EndsAt(answers, last) ==>
              EntriesUpTo(answers, last) == answers[0].value.entries + EntriesUpTo(answers[1..], last - 1)
  {
    var rest := answers[1..];
    if last > 0 && EndsAt(rest, last - 1) {
      forall i | 0 <= i <= last ensures answers[i].Some? { if i > 0 { assert answers[i] == rest[i - 1]; } }
      forall i | 0 <= i < last ensures answers[i].value.next { if i > 0 { assert answers[i] == rest[i - 1]; } }
    }
    if EndsAt(answers, last) {
      assert EndsAt(rest, last - 1);
      FlattenCons(answers[0].value.entries, PagesUpTo(rest, last - 1));
      assert PagesUpTo(answers, last) == [answers[0].value.entries] + PagesUpTo(rest, last - 1);
    }
  }

  lemma {:induction false} ReadsToTheEnd(answers: Answers, last: nat)
    requires EndsAt(answers, last)
    ensures ReadAll(answers) == Some((EntriesUpTo(answers, last), answers[last].value.delta))
    decreases last
  {
    if last == 0 {
      FlattenCons(answers[0].value.entries, []);
      assert answers[0].value.entries + Flatten([]) == answers[0].value.entries;
      assert PagesUpTo(answers, 0) == [answers[0].value.entries] + [];
    } else {
      EndsAfter(answers, last);
      ReadsToTheEnd(answers[1..], last - 1);
    }
  }

  lemma {:induction false} ReadsOnlyToAnEnd(answers: Answers)
    ensures ReadAll(answers).Some? <==> exists last: nat :: EndsAt(answers, last)
  {
    if last: nat :| EndsAt(answers, last) {
      ReadsToTheEnd(answers, last);
    } else if answers != [] && answers[0].Some? {
      if !answers[0].value.next {
        assert EndsAt(answers, 0);
      } else {
        ReadsOnlyToAnEnd(answers[1..]);
        if last: nat :| EndsAt(answers[1..], last) { EndsAfter(answers, last + 1); }
      }
    }
  }

  /** A file entry whose place can be derived. */
  predicate Placed(e: Entry) {
    !e.deleted && !e.folder && ItemPath(e.name, e.parent).Some?
  }

  lemma {:induction false} ItemsPicked(entries: seq<Entry>) returns (at: seq<nat>)
    ensures Picks(entries, (e: Entry) => Placed(e), at)
    ensures |ItemsOf(entries)| == |at|
    ensures forall k :: 0 <= k < |at| ==>
              && Placed(entries[at[k]])
              && ItemsOf(entries)[k] == Item(ItemPath(entries[at[k]].name, entries[at[k]].parent).value, entries[at[k]].id)
  {
    hide ItemPath;
    PicksNothing((e: Entry) => Placed(e));
    hide Picks;
    at := [];
    if entries != [] {
      var before, last := entries[..|entries| - 1], entries[|entries| - 1];
      var earlier := ItemsPicked(before);
      assert entries == before + [last];
      PicksSnoc(before, last, (e: Entry) => Placed(e), earlier);
      at := OneMore(before, last, (e: Entry) => Placed(e), earlier);
    }
  }

  lemma {:induction false} RemovedPicked(entries: seq<Entry>) returns (at: seq<nat>)
    ensures Picks(entries, (e: Entry) => e.deleted && e.id != "", at)
    ensures |RemovedOf(entries)| == |at|
    ensures forall k :: 0 <= k < |at| ==> RemovedOf(entries)[k] == entries[at[k]].id
  {
    PicksNothing((e: Entry) => e.deleted && e.id != "");
    hide Picks;
    at := [];
    if entries != [] {
      var before, last := entries[..|entries| - 1], entries[|entries| - 1];
      var earlier := RemovedPicked(before);
      assert entries == before + [last];
      PicksSnoc(before, last, (e: Entry) => e.deleted && e.id != "", earlier);
      at := OneMore(before, last, (e: Entry) => e.deleted && e.id != "", earlier);
    }
  }

  /**
   * What a poll answers, told from the pages alone. It is answered exactly if the listing comes
   * to a page without a nextLink, every request before answered. Of everything on those pages,
   * in order, the files with a place are the items, each with its key and its id, and the ids
   * of the deleted entries that have one are the removals; the cursor is made of the folder's
   * path and the last page's delta link.
   */
  lemma PollExactly(folderPath: string, answers: Answers) returns (last: nat, items: seq<nat>, removed: seq<nat>)
    ensures Poll(folderPath, answers).Some? <==> exists n: nat :: EndsAt(answers, n)
    ensures Poll(folderPath, answers).Some? ==>
              var r := Poll(folderPath, answers).value;
              && EndsAt(answers, last)
              && r.cursor == "graph-drive-delta:" + folderPath + ":" + answers[last].value.delta.GetOr("")
              && var entries := EntriesUpTo(answers, last);
                 && Picks(entries, (e: Entry) => Placed(e), items)
                 && |r.items| == |items|
                 && (forall k :: 0 <= k < |items| ==>
                       && Placed(entries[items[k]])
                       && Some(r.items[k].path) == ItemPath(entries[items[k]].name, entries[items[k]].parent)
                       && r.items[k].sourceRef == entries[items[k]].id)
                 && Picks(entries, (e: Entry) => e.deleted && e.id != "", removed)
                 && |r.removed| == |removed|
                 && (forall k :: 0 <= k < |removed| ==> r.removed[k] == entries[removed[k]].id)
  {
    last, items, removed := 0, [], [];
    ReadsOnlyToAnEnd(answers);
    if n: nat :| EndsAt(answers, n) {
      last := n;
      ReadsToTheEnd(answers, last);
      hide ReadAll, ItemsOf, RemovedOf, Picks, ItemPath, EndsAt;
      items := ItemsPicked(EntriesUpTo(answers, last));
      removed := RemovedPicked(EntriesUpTo(answers, last));
    }
  }

  // ----- where the next poll starts -----

  /** A cursor gives its link back exactly when the folder's path has no colon in it. */
  lemma LinkComesBackExactly(folderPath: string, deltaLink: string)
    ensures DecodeCursor(EncodeCursor(folderPath, deltaLink)) == Some(deltaLink) <==> ':' !in folderPath
  {
    var value := EncodeCursor(folderPath, deltaLink);
    var tail := folderPath + [':'] + deltaLink;
    assert value == PREFIX + tail && value[|PREFIX|..] == tail;
    SplitApart(folderPath, deltaLink, ':');
    var parts, links := Split(folderPath, ':'), Split(deltaLink, ':');
    if ':' !in folderPath {
      SplitPlain(folderPath, ':');
      assert ([folderPath] + links)[1..] == links;
    } else {
      assert |parts| >= 2;
      assert (parts + links)[1..] == parts[1..] + links;
      JoinTwo(parts[1..], links, ':');
    }
  }

  lemma {:induction false} JoinTwo(a: seq<string>, b: seq<string>, c: char)
    requires |a| >= 1 && |b| >= 1
    ensures Join(a + b, c) == Join(a, c) + [c] + Join(b, c)
  {
    assert (a + b)[1..] == a[1..] + b;
    if |a| == 1 {
      assert a[1..] + b == b;
    } else {
      JoinTwo(a[1..], b, c);
      assert a[0] + [c] + (Join(a[1..], c) + [c] + Join(b, c)) == a[0] + [c] + Join(a[1..], c) + [c] + Join(b, c);
    }
  }

  /**
   * After a completed poll, the next one asks for exactly the delta link of the last page
   * read when that page carried one and the folder's path has no colon.
   */
  lemma ResumesAtTheLink(folderPath: string, answers: Answers, last: nat, base: string)
    requires ':' !in folderPath && EndsAt(answers, last)
    ensures Poll(folderPath, answers).Some?
    ensures FirstRequest(base, Some(Poll(folderPath, answers).value.cursor)) == answers[last].value.delta.GetOr("")
  {
    ReadsToTheEnd(answers, last);
    LinkComesBackExactly(folderPath, answers[last].value.delta.GetOr(""));
  }

  /**
   * So a poll whose last page had no delta link is still answered, with a cursor that makes
   * the next poll ask for the empty address: neither the folder's listing nor a link an
   * earlier page gave.
   */
  lemma LinkForgotten(folderPath: string, entries: seq<Entry>, link: string, base: string)
    requires ':' !in folderPath
    ensures var answers := [Some(Page(entries, true, Some(link))), Some(Page([], false, None))];
            && Poll(folderPath, answers).Some?
            && FirstRequest(base, Some(Poll(folderPath, answers).value.cursor)) == ""
  {
    var answers: Answers := [Some(Page(entries, true, Some(link))), Some(Page([], false, None))];
    assert EndsAt(answers, 1);
    ResumesAtTheLink(folderPath, answers, 1, base);
  }

  // ----- renames -----

  predicate IsRename(before: Entry, after: Entry) {
    before.id == after.id
    && ItemPath(before.name, before.parent).Some? && ItemPath(after.name, after.parent).Some?
    && ItemPath(before.name, before.parent) != ItemPath(after.name, after.parent)
  }

  /** A rename is seen exactly when the name or the normalised directory of the same item changed. */
  lemma RenameExactly(before: Entry, after: Entry)
    requires Ordinary(before.name) && Ordinary(after.name) && before.id == after.id
    requires before.parent.Some? && DirOf(before.parent.value).Some? && after.parent.Some? && DirOf(after.parent.value).Some?
    ensures IsRename(before, after) <==>
              || before.name != after.name
              || NormalizePath(DirOf(before.parent.value).value, DEFAULT)
                 != NormalizePath(DirOf(after.parent.value).value, DEFAULT)
  {
    SameKeyExactly(before.parent.value, before.name, after.parent.value, after.name);
  }
}
