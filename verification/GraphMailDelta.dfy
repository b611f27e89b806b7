/**
 * The Graph mail delta listing, against a folder modelled as a log of changes: folding
 * the answers of successive polls rebuilds the folder.
 */
module GraphMailDelta {
  import opened Outcomes
  import opened Sequences

  // ----- what Graph answers -----

  /** One entry of a delta page: a message as it is now, or a report that it is gone. */
  datatype Entry = Present(id: string, messageId: Option<string>) | Removed(gone: Option<string>)

  datatype Link = Fresh | Token(at: nat) | Next(n: nat)

  datatype Page = Page(entries: seq<Entry>, next: Option<Link>, delta: Option<Link>)

  /** The answers to the requests of one poll, in order; `None` for one that fails. */
  type Answers = seq<Option<Page>>

  datatype Item = Item(messageId: string, sourceRef: string)

  datatype Listed = Listed(items: seq<Item>, removed: seq<string>, unkeyable: nat, cursor: Link)

  // ----- one poll -----

  function ItemsOf(entries: seq<Entry>): seq<Item> {
    if entries == [] then []
    else
      var n := |entries| - 1;
      ItemsOf(entries[..n])
      + (match entries[n]
         case Present(id, Some(key)) => if key != "" then [Item(key, id)] else []
         case _ => [])
  }

  function RemovedOf(entries: seq<Entry>): seq<string> {
    if entries == [] then []
    else
      var n := |entries| - 1;
      RemovedOf(entries[..n])
      + (match entries[n]
         case Removed(Some(id)) => if id != "" then [id] else []
         case _ => [])
  }

  predicate Unkeyed(e: Entry) {
    e.Present? && (e.messageId.None? || e.messageId.value == "")
  }

  predicate IdLess(e: Entry) {
    e.Removed? && (e.gone.None? || e.gone.value == "")
  }

  function CountUnkeyed(entries: seq<Entry>): nat {
    if entries == [] then 0
    else CountUnkeyed(entries[..|entries| - 1]) + (if Unkeyed(entries[|entries| - 1]) then 1 else 0)
  }

  function CountIdLess(entries: seq<Entry>): nat {
    if entries == [] then 0
    else CountIdLess(entries[..|entries| - 1]) + (if IdLess(entries[|entries| - 1]) then 1 else 0)
  }

  /** All entries of the pages a poll reads, the last deltaLink seen, and whether every page was read. */
  function ReadAll(answers: Answers): Option<(seq<Entry>, Option<Link>)> {
    if answers == [] || answers[0].None? then None
    else
      var page := answers[0].value;
      if page.next.None? then Some((page.entries, page.delta))
      else
        var rest := ReadAll(answers[1..]);
        if rest.None? then None
        else Some((page.entries + rest.value.0, if rest.value.1.Some? then rest.value.1 else page.delta))
  }

  /** What `listSince` answers: `None` where it throws. */
  function Poll(answers: Answers): Option<Listed> {
    var all := ReadAll(answers);
    if all.None? || all.value.1.None? then None
    else
      var entries := all.value.0;
      Some(Listed(ItemsOf(entries), RemovedOf(entries), CountUnkeyed(entries), all.value.1.value))
  }

  method ListSince(answers: Answers) returns (r: Option<Listed>)
    ensures r == Poll(answers)
  {
    var items: seq<Item> := [];
    var removed: seq<string> := [];
    var unkeyable: nat := 0;
    var delta: Option<Link> := None;
    ghost var read: seq<Entry> := [];
    var request := 0;
    var more := true;
    assert answers[0..] == answers;
    AfterNothing(ReadAll(answers));
    NoEntries();
    hide ReadAll, After, ItemsOf, RemovedOf, CountUnkeyed;
    while more
      invariant 0 <= request <= |answers|
      invariant items == ItemsOf(read) && removed == RemovedOf(read) && unkeyable == CountUnkeyed(read)
      invariant more ==> ReadAll(answers) == After(read, delta, ReadAll(answers[request..]))
      invariant !more ==> ReadAll(answers) == Some((read, delta))
      decreases |answers| - request, more
    {
      AfterPage(answers, request, read, delta);
      if request == |answers| || answers[request].None? { return None; }
      var page := answers[request].value;
      ghost var before := read;
      for i := 0 to |page.entries|
        invariant read == before + page.entries[..i]
        invariant items == ItemsOf(read) && removed == RemovedOf(read) && unkeyable == CountUnkeyed(read)
      {
        var m := page.entries[i];
        OneEntryMore(read, m);
        read := read + [m];
        assert before + page.entries[..i] + [m] == before + page.entries[..i + 1];
        match m {
          case Removed(id) =>
            if id.Some? && id.value != "" { removed := removed + [id.value]; }
          case Present(id, messageId) =>
            if messageId.None? || messageId.value == "" {
              unkeyable := unkeyable + 1;
            } else {
              items := items + [Item(messageId.value, id)];
            }
        }
      }
      assert page.entries[..|page.entries|] == page.entries;
      if page.delta.Some? { delta := page.delta; }
      request := request + 1;
      more := page.next.Some?;
    }
    if delta.None? { return None; }
    return Some(Listed(items, removed, unkeyable, delta.value));
  }

  lemma NoEntries()
    ensures ItemsOf([]) == [] && RemovedOf([]) == [] && CountUnkeyed([]) == 0
  {
  }

  lemma OneEntryMore(read: seq<Entry>, m: Entry)
    ensures ItemsOf(read + [m])
         == ItemsOf(read) + (if m.Present? && !Unkeyed(m) then [Item(m.messageId.value, m.id)] else [])
    ensures RemovedOf(read + [m]) == RemovedOf(read) + (if m.Removed? && !IdLess(m) then [m.gone.value] else [])
    ensures CountUnkeyed(read + [m]) == CountUnkeyed(read) + (if Unkeyed(m) then 1 else 0)
  {
    assert (read + [m])[..|read|] == read && (read + [m])[|read|] == m;
  }

  function After(read: seq<Entry>, delta: Option<Link>, rest: Option<(seq<Entry>, Option<Link>)>):
      Option<(seq<Entry>, Option<Link>)>
  {
    if rest.None? then None
    else Some((read + rest.value.0, if rest.value.1.Some? then rest.value.1 else delta))
  }

  lemma AfterNothing(rest: Option<(seq<Entry>, Option<Link>)>)
    ensures After([], None, rest) == rest
  {
    if rest.Some? { assert [] + rest.value.0 == rest.value.0; }
  }

  /** One request more: the poll ends there if it fails, and goes on with the entries of its page if not. */
  lemma AfterPage(answers: Answers, request: nat, read: seq<Entry>, delta: Option<Link>)
    requires request <= |answers|
    ensures var rest := After(read, delta, ReadAll(answers[request..]));
            if request == |answers| || answers[request].None? then rest == None
            else
              var page := answers[request].value;
              var all, link := read + page.entries, if page.delta.Some? then page.delta else delta;
              rest == if page.next.Some? then After(all, link, ReadAll(answers[request + 1..])) else Some((all, link))
  {
    if request < |answers| && answers[request].Some? {
      assert answers[request..][0] == answers[request] && answers[request..][1..] == answers[request + 1..];
      var rest := ReadAll(answers[request + 1..]);
      if rest.Some? {
        var entries := answers[request].value.entries;
        assert (read + entries) + rest.value.0 == read + (entries + rest.value.0);
      }
    }
  }

  // ----- every entry is accounted for -----

  /** Each entry lands in exactly one of items, removals, unkeyable messages and removals nobody can place. */
  lemma {:induction false} EveryEntryCounted(entries: seq<Entry>)
    ensures |ItemsOf(entries)| + |RemovedOf(entries)| + CountUnkeyed(entries) + CountIdLess(entries) == |entries|
  {
    if entries != [] { EveryEntryCounted(entries[..|entries| - 1]); }
  }

  lemma {:induction false} ItemsExactly(entries: seq<Entry>, item: Item)
    ensures item in ItemsOf(entries) <==> item.messageId != "" && Present(item.sourceRef, Some(item.messageId)) in entries
  {
    if entries != [] {
      var n := |entries| - 1;
      ItemsExactly(entries[..n], item);
      assert entries == entries[..n] + [entries[n]];
    }
  }

  lemma {:induction false} RemovedExactly(entries: seq<Entry>, id: string)
    ensures id in RemovedOf(entries) <==> id != "" && Removed(Some(id)) in entries
  {
    if entries != [] {
      var n := |entries| - 1;
      RemovedExactly(entries[..n], id);
      assert entries == entries[..n] + [entries[n]];
    }
  }

  // ----- what a poll answers, told from the pages -----

  /** Every request up to this one is answered, and this is the first page without a nextLink. */
  predicate EndsAt(answers: Answers, last: nat) {
    && last < |answers|
    && (forall i :: 0 <= i <= last ==> answers[i].Some?)
    && (forall i :: 0 <= i < last ==> answers[i].value.next.Some?)
    && answers[last].value.next.None?
  }

  /** Everything on the pages up to that one. */
  function EntriesUpTo(answers: Answers, last: nat): seq<Entry>
    requires EndsAt(answers, last)
  {
    Flatten(PagesUpTo(answers, last))
  }

  function PagesUpTo(answers: Answers, last: nat): (r: seq<seq<Entry>>)
    requires EndsAt(answers, last)
    ensures |r| == last + 1 && forall i :: 0 <= i <= last ==> r[i] == answers[i].value.entries
  {
    seq(last + 1, i requires 0 <= i <= last => answers[i].value.entries)
  }

  /** The last deltaLink on the pages up to that one. */
  predicate LastLink(answers: Answers, last: nat, link: Option<Link>)
    requires EndsAt(answers, last)
  {
    if link.None? then forall i :: 0 <= i <= last ==> answers[i].value.delta.None?
    else exists i :: 0 <= i <= last && answers[i].value.delta == link
           && forall j :: i < j <= last ==> answers[j].value.delta.None?
  }

  lemma EndsAfter(answers: Answers, last: nat)
    requires answers != [] && answers[0].Some? && answers[0].value.next.Some?
    ensures EndsAt(answers, last) <==> last > 0 && EndsAt(answers[1..], last - 1)
    ensures EndsAt(answers, last) ==>
              EntriesUpTo(answers, last) == answers[0].value.entries + EntriesUpTo(answers[1..], last - 1)
  {
    var rest := answers[1..];
    if last > 0 && EndsAt(rest, last - 1) {
      forall i | 0 <= i <= last ensures answers[i].Some? { if i > 0 { assert answers[i] == rest[i - 1]; } }
      forall i | 0 <= i < last ensures answers[i].value.next.Some? { if i > 0 { assert answers[i] == rest[i - 1]; } }
    }
    if EndsAt(answers, last) {
      assert EndsAt(rest, last - 1);
      FlattenCons(answers[0].value.entries, PagesUpTo(rest, last - 1));
      assert PagesUpTo(answers, last) == [answers[0].value.entries] + PagesUpTo(rest, last - 1);
    }
  }

  lemma LinkAfter(answers: Answers, last: nat, link: Option<Link>)
    requires last > 0 && EndsAt(answers, last) && EndsAt(answers[1..], last - 1) && LastLink(answers[1..], last - 1, link)
    ensures LastLink(answers, last, if link.Some? then link else answers[0].value.delta)
  {
    var rest := answers[1..];
    assert forall i :: 1 <= i <= last ==> answers[i] == rest[i - 1];
    if link.Some? {
      var i :| 0 <= i <= last - 1 && rest[i].value.delta == link && forall j :: i < j <= last - 1 ==> rest[j].value.delta.None?;
      assert answers[i + 1].value.delta == link;
    } else if answers[0].value.delta.Some? {
      assert answers[0].value.delta == answers[0].value.delta;
    }
  }

  lemma {:induction false} ReadsToTheEnd(answers: Answers, last: nat)
    requires EndsAt(answers, last)
    ensures ReadAll(answers).Some? && ReadAll(answers).value.0 == EntriesUpTo(answers, last)
    ensures LastLink(answers, last, ReadAll(answers).value.1)
    decreases last
  {
    if last == 0 {
      FlattenCons(answers[0].value.entries, []);
      assert answers[0].value.entries + Flatten([]) == answers[0].value.entries;
      assert PagesUpTo(answers, 0) == [answers[0].value.entries] + [];
    } else {
      EndsAfter(answers, last);
      ReadsToTheEnd(answers[1..], last - 1);
      LinkAfter(answers, last, ReadAll(answers[1..]).value.1);
    }
  }

  /** A poll is answered only if some page is the last one. */
  lemma {:induction false} ReadsOnlyToAnEnd(answers: Answers)
    ensures ReadAll(answers).Some? <==> exists last: nat :: EndsAt(answers, last)
  {
    if last: nat :| EndsAt(answers, last) {
      ReadsToTheEnd(answers, last);
    } else if answers != [] && answers[0].Some? {
      if answers[0].value.next.None? {
        assert EndsAt(answers, 0);
      } else {
        ReadsOnlyToAnEnd(answers[1..]);
        if last: nat :| EndsAt(answers[1..], last) { EndsAfter(answers, last + 1); }
      }
    }
  }

  lemma {:induction false} ItemsPicked(entries: seq<Entry>) returns (at: seq<nat>)
    ensures Picks(entries, (e: Entry) => e.Present? && e.messageId.Some? && e.messageId.value != "", at)
    ensures |ItemsOf(entries)| == |at|
    ensures forall k :: 0 <= k < |at| ==> ItemsOf(entries)[k] == Item(entries[at[k]].messageId.value, entries[at[k]].id)
  {
    var wanted := (e: Entry) => e.Present? && e.messageId.Some? && e.messageId.value != "";
    PicksNothing(wanted);
    hide Picks;
    at := [];
    if entries != [] {
      var before, last := entries[..|entries| - 1], entries[|entries| - 1];
      var earlier := ItemsPicked(before);
      assert entries == before + [last];
      PicksSnoc(before, last, wanted, earlier);
      at := OneMore(before, last, wanted, earlier);
    }
  }

  lemma {:induction false} RemovedPicked(entries: seq<Entry>) returns (at: seq<nat>)
    ensures Picks(entries, (e: Entry) => e.Removed? && e.gone.Some? && e.gone.value != "", at)
    ensures |RemovedOf(entries)| == |at|
    ensures forall k :: 0 <= k < |at| ==> RemovedOf(entries)[k] == entries[at[k]].gone.value
  {
    var wanted := (e: Entry) => e.Removed? && e.gone.Some? && e.gone.value != "";
    PicksNothing(wanted);
    hide Picks;
    at := [];
    if entries != [] {
      var before, last := entries[..|entries| - 1], entries[|entries| - 1];
      var earlier := RemovedPicked(before);
      assert entries == before + [last];
      PicksSnoc(before, last, wanted, earlier);
      at := OneMore(before, last, wanted, earlier);
    }
  }

  lemma {:induction false} UnkeyedCounted(entries: seq<Entry>)
    ensures CountUnkeyed(entries) == Count(entries, (e: Entry) => e.Present? && (e.messageId.None? || e.messageId.value == ""))
  {
    var wanted := (e: Entry) => e.Present? && (e.messageId.None? || e.messageId.value == "");
    if entries == [] {
      CountNothing(wanted);
    } else {
      var before, last := entries[..|entries| - 1], entries[|entries| - 1];
      UnkeyedCounted(before);
      assert entries == before + [last];
      CountSnoc(before, last, wanted);
    }
  }

  /**
   * What a poll answers, told from the pages alone. It is answered exactly if the listing comes to
   * a page without a nextLink, with every request before answered, and some page up to there
   * has a deltaLink; the last such link is the cursor. Of everything on those pages, in order,
   * each message with a Message-ID is an item, each removal with an id is reported as removed,
   * and the messages without a Message-ID are counted.
   */
  lemma PollExactly(answers: Answers) returns (last: nat, items: seq<nat>, removed: seq<nat>)
    ensures Poll(answers).Some? <==>
              exists n: nat, i: nat :: EndsAt(answers, n) && i <= n && answers[i].value.delta.Some?
    ensures Poll(answers).Some? ==>
              var r := Poll(answers).value;
              && EndsAt(answers, last)
              && var entries := EntriesUpTo(answers, last);
                 && Picks(entries, (e: Entry) => e.Present? && e.messageId.Some? && e.messageId.value != "", items)
                 && |r.items| == |items|
                 && (forall k :: 0 <= k < |items| ==>
                       r.items[k] == Item(entries[items[k]].messageId.value, entries[items[k]].id))
                 && Picks(entries, (e: Entry) => e.Removed? && e.gone.Some? && e.gone.value != "", removed)
                 && |r.removed| == |removed|
                 && (forall k :: 0 <= k < |removed| ==> r.removed[k] == entries[removed[k]].gone.value)
                 && r.unkeyable == Count(entries, (e: Entry) => e.Present? && (e.messageId.None? || e.messageId.value == ""))
                 && LastLink(answers, last, Some(r.cursor))
  {
    last, items, removed := 0, [], [];
    ReadsOnlyToAnEnd(answers);
    if n: nat :| EndsAt(answers, n) {
      last := n;
      ReadsToTheEnd(answers, last);
      hide ReadAll, ItemsOf, RemovedOf, CountUnkeyed, Picks, Count;
      items := ItemsPicked(EntriesUpTo(answers, last));
      removed := RemovedPicked(EntriesUpTo(answers, last));
      UnkeyedCounted(EntriesUpTo(answers, last));
      if n: nat, i: nat :| EndsAt(answers, n) && i <= n && answers[i].value.delta.Some? {
        OneEnd(answers, n, last);
      }
    }
  }

  lemma OneEnd(answers: Answers, a: nat, b: nat)
    requires EndsAt(answers, a) && EndsAt(answers, b)
    ensures a == b
  {
  }

  // ----- the folder as a log of changes -----

  datatype Change = Put(id: string, messageId: Option<string>) | Delete(id: string)

  /** The folder after the first `upTo` changes: the messages in it, each with its Message-ID if it has one. */
  function Contents(log: seq<Change>, upTo: nat): map<string, Option<string>>
    requires upTo <= |log|
  {
    if upTo == 0 then map[]
    else
      var before := Contents(log, upTo - 1);
      match log[upTo - 1]
      case Put(id, key) => before[id := key]
      case Delete(id) => before - {id}
  }

  function Touched(log: seq<Change>, from: nat, till: nat): set<string>
    requires from <= till <= |log|
  {
    set i | from <= i < till :: log[i].id
  }

  /** The keyed part of the folder: what a migration must hold. */
  function Keyed(contents: map<string, Option<string>>): map<string, string> {
    map id | id in contents && contents[id].Some? && contents[id].value != "" :: contents[id].value
  }

  function IdOf(e: Entry): Option<string> {
    if e.Present? then Some(e.id) else e.gone
  }

  /**
   * A poll from `from` to `to` as the service reports it: each id changed since at most
   * once and as it now stands, in any order and any paging; a removal may lack its id only
   * where another entry reports it. A poll without a cursor is one from the beginning.
   */
  ghost predicate Reports(entries: seq<Entry>, log: seq<Change>, from: nat, till: nat)
    requires from <= till <= |log|
  {
    var now := Contents(log, till);
    && "" !in Touched(log, 0, till)
    && (forall e :: e in entries && IdOf(e).Some? && IdOf(e).value != "" ==>
          IdOf(e).value in Touched(log, from, till) && e == EntryFor(now, IdOf(e).value))
    && (forall e :: e in entries && e.Present? ==> e.id != "")
    && (forall id :: id in Touched(log, from, till) ==> EntryFor(now, id) in entries)
  }

  function EntryFor(now: map<string, Option<string>>, id: string): Entry {
    if id in now then Present(id, now[id]) else Removed(Some(id))
  }

  /** Fold one answer into what was held: drop the removed, add or replace the listed. */
  function Fold(held: map<string, string>, r: Listed): map<string, string> {
    (held - (set id | id in r.removed)) + ItemMap(r.items)
  }

  function ItemMap(items: seq<Item>): map<string, string> {
    if items == [] then map[]
    else ItemMap(items[..|items| - 1])[items[|items| - 1].sourceRef := items[|items| - 1].messageId]
  }

  lemma {:induction false} ItemMapHas(items: seq<Item>, id: string)
    ensures id in ItemMap(items) ==> Item(ItemMap(items)[id], id) in items
    ensures forall item :: item in items && item.sourceRef == id ==> id in ItemMap(items)
    decreases |items|
  {
    if items != [] {
      var before, last := items[..|items| - 1], items[|items| - 1];
      assert items == before + [last];
      ItemMapHas(before, id);
      forall item | item in items && item.sourceRef == id ensures id in ItemMap(items) {
        assert item in before || item == last;
      }
    }
  }

  lemma {:induction false} Untouched(log: seq<Change>, from: nat, till: nat, id: string)
    requires from <= till <= |log| && id !in Touched(log, from, till)
    ensures id in Contents(log, till) <==> id in Contents(log, from)
    ensures id in Contents(log, till) ==> Contents(log, till)[id] == Contents(log, from)[id]
    decreases till
  {
    if from < till {
      assert log[till - 1].id in Touched(log, from, till);
      assert Touched(log, from, till - 1) <= Touched(log, from, till);
      Untouched(log, from, till - 1, id);
    }
  }

  /** A message that had a key when it was last held and now has none. */
  predicate LostItsKey(log: seq<Change>, from: nat, till: nat, id: string)
    requires from <= till <= |log|
  {
    id in Keyed(Contents(log, from)) && id in Contents(log, till) && id !in Keyed(Contents(log, till))
  }

  /** One id through one poll. */
  lemma FoldOne(log: seq<Change>, from: nat, till: nat, entries: seq<Entry>, r: Listed, id: string)
    requires from <= till <= |log| && Reports(entries, log, from, till)
    requires r.items == ItemsOf(entries) && r.removed == RemovedOf(entries)
    ensures var held, now := Keyed(Contents(log, from)), Keyed(Contents(log, till));
            if LostItsKey(log, from, till, id) then
              id in Fold(held, r) && id !in now
            else
              (id in Fold(held, r) <==> id in now) && (id in now ==> Fold(held, r)[id] == now[id])
  {
    hide ItemsOf, RemovedOf, Contents, Fold;
    FoldHas(Keyed(Contents(log, from)), entries, r, id);
    if id in Touched(log, from, till) {
      assert EntryFor(Contents(log, till), id) in entries;
      TouchedIsTouched(log, from, till, id);
      OnlyEntry(log, from, till, entries, id);
    } else {
      Untouched(log, from, till, id);
      NotReported(log, from, till, entries, id);
    }
  }

  /** What one answer does to one id, in terms of the entries it was made from. */
  lemma FoldHas(held: map<string, string>, entries: seq<Entry>, r: Listed, id: string)
    requires r.items == ItemsOf(entries) && r.removed == RemovedOf(entries)
    ensures id in Fold(held, r) <==>
              || (exists key: string :: key != "" && Present(id, Some(key)) in entries)
              || (id in held && !(id != "" && Removed(Some(id)) in entries))
    ensures id in Fold(held, r) ==>
              || (Fold(held, r)[id] != "" && Present(id, Some(Fold(held, r)[id])) in entries)
              || (id in held && Fold(held, r)[id] == held[id]
                  && !(exists key: string :: key != "" && Present(id, Some(key)) in entries))
  {
    hide ItemsOf, RemovedOf, ItemMap;
    RemovedExactly(entries, id);
    ItemMapHas(r.items, id);
    if id in ItemMap(r.items) { ItemsExactly(entries, Item(ItemMap(r.items)[id], id)); }
    if key: string :| key != "" && Present(id, Some(key)) in entries {
      ItemsExactly(entries, Item(key, id));
      assert Item(key, id) in r.items;
    }
  }

  /** A changed id has one entry, and it says how the message stands. */
  lemma OnlyEntry(log: seq<Change>, from: nat, till: nat, entries: seq<Entry>, id: string)
    requires from <= till <= |log| && Reports(entries, log, from, till) && id in Touched(log, from, till)
    ensures id != ""
    ensures forall key :: Present(id, key) in entries ==> EntryFor(Contents(log, till), id) == Present(id, key)
    ensures Removed(Some(id)) in entries ==> EntryFor(Contents(log, till), id) == Removed(Some(id))
  {
    TouchedIsTouched(log, from, till, id);
    hide Contents, EntryFor, Touched;
    forall key | Present(id, key) in entries ensures EntryFor(Contents(log, till), id) == Present(id, key) {
      assert IdOf(Present(id, key)) == Some(id);
    }
    if Removed(Some(id)) in entries { assert IdOf(Removed(Some(id))) == Some(id); }
  }

  lemma TouchedIsTouched(log: seq<Change>, from: nat, till: nat, id: string)
    requires from <= till <= |log| && id in Touched(log, from, till)
    ensures id in Touched(log, 0, till)
  {
  }

  lemma NotReported(log: seq<Change>, from: nat, till: nat, entries: seq<Entry>, id: string)
    requires from <= till <= |log| && Reports(entries, log, from, till) && id !in Touched(log, from, till)
    ensures id != "" ==> Removed(Some(id)) !in entries
    ensures forall key :: Present(id, key) !in entries
  {
  }

  /**
   * Delta refines full listing, exactly: after a poll the folded view is the keyed folder
   * at the deltaLink if and only if no message lost its Message-ID in between. (Such a
   * message is counted as unkeyable and reported neither as an item nor as removed.)
   */
  lemma DeltaRefinesListing(log: seq<Change>, from: nat, till: nat, answers: Answers, last: nat)
    requires from <= till <= |log| && EndsAt(answers, last)
    requires Reports(EntriesUpTo(answers, last), log, from, till)
    requires Poll(answers).Some?
    ensures Fold(Keyed(Contents(log, from)), Poll(answers).value) == Keyed(Contents(log, till))
       <==> forall id :: !LostItsKey(log, from, till, id)
  {
    ReadsToTheEnd(answers, last);
    hide ReadAll, Reports, Contents, Fold, Keyed;
    var r := Poll(answers).value;
    forall id
      ensures var held, now := Keyed(Contents(log, from)), Keyed(Contents(log, till));
              if LostItsKey(log, from, till, id) then id in Fold(held, r) && id !in now
              else (id in Fold(held, r) <==> id in now) && (id in now ==> Fold(held, r)[id] == now[id])
    {
      FoldOne(log, from, till, EntriesUpTo(answers, last), r, id);
    }
    var view, now := Fold(Keyed(Contents(log, from)), r), Keyed(Contents(log, till));
    if forall id :: !LostItsKey(log, from, till, id) {
      assert forall id :: id in view <==> id in now;
      assert view.Keys == now.Keys;
    }
  }

  // ----- any number of polls -----

  /**
   * The deltaLinks of successive polls, as positions in the log; what each poll's requests were
   * answered; and which of those was the last page.
   */
  datatype History = History(stops: seq<nat>, polls: seq<Answers>, lasts: seq<nat>)

  ghost predicate IsHistory(h: History, log: seq<Change>) {
    && |h.polls| == |h.stops| == |h.lasts|
    && (forall k :: 0 <= k < |h.stops| ==> StopBefore(h, k) <= h.stops[k] <= |log|)
    && (forall k :: 0 <= k < |h.polls| ==>
          && EndsAt(h.polls[k], h.lasts[k]) && Poll(h.polls[k]).Some?
          && Reports(EntriesUpTo(h.polls[k], h.lasts[k]), log, StopBefore(h, k), h.stops[k]))
  }

  function StopBefore(h: History, k: nat): nat
    requires k <= |h.stops|
  {
    if k == 0 then 0 else h.stops[k - 1]
  }

  function FoldAll(h: History, k: nat): map<string, string>
    requires k <= |h.polls| && forall i :: 0 <= i < k ==> Poll(h.polls[i]).Some?
  {
    if k == 0 then map[] else Fold(FoldAll(h, k - 1), Poll(h.polls[k - 1]).value)
  }

  /**
   * Starting from nothing held, the folded view is the keyed folder after every poll, while no message
   * loses its key.
   */
  lemma {:induction false} DeltasRebuildTheFolder(h: History, log: seq<Change>, k: nat)
    requires IsHistory(h, log) && k <= |h.polls|
    requires forall i, id :: 0 <= i < k ==> !LostItsKey(log, StopBefore(h, i), h.stops[i], id)
    ensures FoldAll(h, k) == Keyed(Contents(log, StopBefore(h, k)))
  {
    hide EndsAt, Reports, Poll, LostItsKey, Fold;
    if k > 0 {
      DeltasRebuildTheFolder(h, log, k - 1);
      DeltaRefinesListing(log, StopBefore(h, k - 1), h.stops[k - 1], h.polls[k - 1], h.lasts[k - 1]);
    }
  }
}
