/**
 * What an incremental listing answers, told from the mailbox: which messages, in which order,
 * and what each item says of its message.
 */
module ListedItems {
  import opened Outcomes
  import opened Sequences
  import opened Text
  import opened ImapServer
  import opened MailConventions
  import opened MailSource
  import opened IncrementalListing

  /** The cursor can be read, and is one of this UIDVALIDITY. */
  predicate IsCursorOf(cursor: string, validity: nat) {
    DecodeCursor(cursor).Some? && DecodeCursor(cursor).value.0 == validity
  }

  /** The UID is not below a cursor of this UIDVALIDITY. */
  predicate AtOrPast(uid: nat, cursor: Option<string>, validity: nat) {
    cursor.Some? && IsCursorOf(cursor.value, validity) ==> DecodeCursor(cursor.value).value.1 <= uid
  }

  /** The id the server reported, in brackets; the empty string where it reported none. */
  predicate IsBracketed(messageId: string, reported: Option<string>) {
    if reported.None? || reported.value == "" then messageId == ""
    else
      var id := reported.value;
      if id[0] == '<' && id[|id| - 1] == '>' then messageId == id else messageId == "<" + id + ">"
  }

  /** The item says of the message with this UID where it is, what its id is and how it is marked. */
  predicate Describes(item: Item, folder: string, uid: nat, m: Message) {
    && item.folder == folder
    && item.sourceRef == folder + ":" + Decimal(uid) && UidFromSourceRef(item.sourceRef) == uid
    && IsBracketed(item.messageId, m.raw.envelopeId)
    && item.keywords == KeywordsOf(m.flags)
  }

  lemma ItemDescribes(m: (nat, Message), folder: string)
    ensures Describes(ItemOf(m, folder), folder, m.0, m.1)
    ensures ItemOf(m, folder).messageId == "" <==> MessageIdFromEnvelope(m.1.raw.envelopeId).None?
  {
    SourceRefRoundTrip(folder, m.0);
    hide UidFromSourceRef, KeywordsOf, Decimal;
  }

  lemma ResumesAt(uid: nat, cursor: Option<string>, validity: nat)
    ensures Skipped(uid, Resume(cursor, validity)) <==> !AtOrPast(uid, cursor, validity)
  {
    hide DecodeCursor;
  }

  /** The items are those of the messages picked, in order, and the ones without an id are counted. */
  lemma {:induction false} ItemsPicked(listing: seq<(nat, Message)>, resume: Option<int>, folder: string)
    returns (at: seq<nat>)
    ensures Picks(listing, (m: (nat, Message)) => !Skipped(m.0, resume), at)
    ensures |Items(listing, resume, folder)| == |at|
    ensures forall k :: 0 <= k < |at| ==> Items(listing, resume, folder)[k] == ItemOf(listing[at[k]], folder)
    ensures Unkeyable(listing, resume) == Count(Items(listing, resume, folder), (i: Item) => i.messageId == "")
  {
    hide ItemOf, Skipped, MessageIdFromEnvelope;
    PicksNothing((m: (nat, Message)) => !Skipped(m.0, resume));
    hide Picks;
    at := [];
    if listing == [] {
      CountNothing((i: Item) => i.messageId == "");
    } else {
      var before, last := listing[..|listing| - 1], listing[|listing| - 1];
      var earlier := ItemsPicked(before, resume, folder);
      assert listing == before + [last];
      PicksSnoc(before, last, (m: (nat, Message)) => !Skipped(m.0, resume), earlier);
      at := OneMore(before, last, (m: (nat, Message)) => !Skipped(m.0, resume), earlier);
      ItemDescribes(last, folder);
      if Skipped(last.0, resume) {
        assert Items(listing, resume, folder) == Items(before, resume, folder);
      } else {
        assert Items(listing, resume, folder) == Items(before, resume, folder) + [ItemOf(last, folder)];
        CountSnoc(Items(before, resume, folder), ItemOf(last, folder), (i: Item) => i.messageId == "");
      }
    }
  }

  /** The UIDs of the messages at these positions of a listing. */
  function UidsAt(listing: seq<(nat, Message)>, at: seq<nat>): (uids: seq<nat>)
    requires forall k :: 0 <= k < |at| ==> at[k] < |listing|
    ensures |uids| == |at| && forall k :: 0 <= k < |at| ==> uids[k] == listing[at[k]].0
  {
    seq(|at|, k requires 0 <= k < |at| => listing[at[k]].0)
  }

  /** The listing of a mailbox holds a message at these positions if and only if it is at or past the cursor. */
  lemma PickedUid(msgs: map<nat, Message>, below: nat, cursor: Option<string>, validity: nat, at: seq<nat>, u: nat)
    requires forall u :: u in msgs ==> u < below
    requires Picks(Listing(msgs, below), (m: (nat, Message)) => !Skipped(m.0, Resume(cursor, validity)), at)
    ensures u in UidsAt(Listing(msgs, below), at) <==> u in msgs && AtOrPast(u, cursor, validity)
  {
    var listing := Listing(msgs, below);
    var uids := UidsAt(listing, at);
    hide Listing, Skipped, Resume, AtOrPast, UidsAt;
    ResumesAt(u, cursor, validity);
    if u in uids {
      var k :| 0 <= k < |uids| && uids[k] == u;
      assert listing[at[k]].0 == u;
    }
    if u in msgs && AtOrPast(u, cursor, validity) {
      assert (u, msgs[u]) in listing;
      var i :| 0 <= i < |listing| && listing[i] == (u, msgs[u]);
      assert i in at;
      var k :| 0 <= k < |at| && at[k] == i;
      assert uids[k] == u;
    }
  }

  lemma PickedUids(msgs: map<nat, Message>, below: nat, cursor: Option<string>, validity: nat, at: seq<nat>)
    requires forall u :: u in msgs ==> u < below
    requires Picks(Listing(msgs, below), (m: (nat, Message)) => !Skipped(m.0, Resume(cursor, validity)), at)
    ensures var uids := UidsAt(Listing(msgs, below), at);
            && (forall i, j :: 0 <= i < j < |uids| ==> uids[i] < uids[j])
            && (forall u :: u in uids <==> u in msgs && AtOrPast(u, cursor, validity))
            && (forall k :: 0 <= k < |at| ==>
                  && at[k] < |Listing(msgs, below)| && uids[k] in msgs
                  && Listing(msgs, below)[at[k]] == (uids[k], msgs[uids[k]]))
  {
    var listing := Listing(msgs, below);
    var uids := UidsAt(listing, at);
    hide Listing, Skipped, Resume, AtOrPast, UidsAt;
    forall u ensures u in uids <==> u in msgs && AtOrPast(u, cursor, validity) {
      PickedUid(msgs, below, cursor, validity, at, u);
    }
    hide Picks;
    forall i, j | 0 <= i < j < |uids| ensures uids[i] < uids[j] { PickedInOrder(msgs, below, cursor, validity, at, i, j); }
  }

  lemma PickedInOrder(msgs: map<nat, Message>, below: nat, cursor: Option<string>, validity: nat, at: seq<nat>, i: nat, j: nat)
    requires Picks(Listing(msgs, below), (m: (nat, Message)) => !Skipped(m.0, Resume(cursor, validity)), at)
    requires i < j < |at|
    ensures at[i] < |Listing(msgs, below)| && at[j] < |Listing(msgs, below)|
    ensures Listing(msgs, below)[at[i]].0 < Listing(msgs, below)[at[j]].0
  {
    hide Listing, Skipped, Resume;
  }

  /** The next cursor goes by the UIDs listed: it stays where it started exactly if none is past that. */
  predicate CursorFollows(n: int, start: int, uids: seq<nat>) {
    && (n == start <==> forall u :: u in uids ==> u <= start)
    && (n != start ==> uids != [] && start < uids[|uids| - 1] && uids[|uids| - 1] <= n <= uids[|uids| - 1] + 1)
  }

  lemma {:induction false} StaysExactly(listing: seq<(nat, Message)>, resume: Option<int>, start: int)
    ensures MaxUidNext(listing, resume, start) == start <==>
              forall i :: 0 <= i < |listing| && !Skipped(listing[i].0, resume) ==> listing[i].0 <= start
  {
    hide Skipped;
    if listing != [] {
      var n := |listing| - 1;
      StaysExactly(listing[..n], resume, start);
      MaxUidNextBounds(listing[..n], resume, start);
      assert forall i :: 0 <= i < n ==> listing[..n][i] == listing[i];
    }
  }

  lemma ListedUid(listing: seq<(nat, Message)>, resume: Option<int>, at: seq<nat>, uids: seq<nat>, i: nat)
    requires Picks(listing, (m: (nat, Message)) => !Skipped(m.0, resume), at) && |uids| == |at|
    requires forall k :: 0 <= k < |at| ==> uids[k] == listing[at[k]].0
    requires i < |listing| && !Skipped(listing[i].0, resume)
    ensures listing[i].0 in uids
  {
    hide Skipped;
    assert i in at;
    var k :| 0 <= k < |at| && at[k] == i;
    assert uids[k] == listing[i].0;
  }

  lemma UidIsListed(listing: seq<(nat, Message)>, resume: Option<int>, at: seq<nat>, uids: seq<nat>, u: nat) returns (i: nat)
    requires Picks(listing, (m: (nat, Message)) => !Skipped(m.0, resume), at) && |uids| == |at|
    requires forall k :: 0 <= k < |at| ==> uids[k] == listing[at[k]].0
    requires u in uids
    ensures i < |listing| && !Skipped(listing[i].0, resume) && listing[i].0 == u
  {
    hide Skipped;
    var k :| 0 <= k < |uids| && uids[k] == u;
    i := at[k];
  }

  lemma CursorIs(listing: seq<(nat, Message)>, resume: Option<int>, start: int, at: seq<nat>, uids: seq<nat>)
    requires Picks(listing, (m: (nat, Message)) => !Skipped(m.0, resume), at) && |uids| == |at|
    requires forall k :: 0 <= k < |at| ==> uids[k] == listing[at[k]].0
    requires forall i, j :: 0 <= i < j < |uids| ==> uids[i] < uids[j]
    ensures CursorFollows(MaxUidNext(listing, resume, start), start, uids)
  {
    hide Skipped, MaxUidNext, Picks;
    StaysExactly(listing, resume, start);
    MaxUidNextBounds(listing, resume, start);
    var n := MaxUidNext(listing, resume, start);
    forall u | u in uids ensures u <= n && (n == start ==> u <= start) {
      var i := UidIsListed(listing, resume, at, uids, u);
    }
    if forall u :: u in uids ==> u <= start {
      forall i | 0 <= i < |listing| && !Skipped(listing[i].0, resume) ensures listing[i].0 <= start {
        ListedUid(listing, resume, at, uids, i);
      }
    }
    if n != start { CursorMoved(listing, resume, start, n, at, uids); }
  }

  lemma CursorMoved(listing: seq<(nat, Message)>, resume: Option<int>, start: int, n: int, at: seq<nat>, uids: seq<nat>)
    requires Picks(listing, (m: (nat, Message)) => !Skipped(m.0, resume), at) && |uids| == |at|
    requires forall k :: 0 <= k < |at| ==> uids[k] == listing[at[k]].0
    requires forall i, j :: 0 <= i < j < |uids| ==> uids[i] < uids[j]
    requires exists i :: 0 <= i < |listing| && !Skipped(listing[i].0, resume) && n == listing[i].0 + 1
    requires exists u :: u in uids && u > start
    requires forall u :: u in uids ==> u <= n
    ensures uids != [] && start < uids[|uids| - 1] && uids[|uids| - 1] <= n <= uids[|uids| - 1] + 1
  {
    hide Skipped, Picks;
    var i :| 0 <= i < |listing| && !Skipped(listing[i].0, resume) && n == listing[i].0 + 1;
    ListedUid(listing, resume, at, uids, i);
    var last := uids[|uids| - 1];
    forall u | u in uids ensures u <= last {
      var k :| 0 <= k < |uids| && uids[k] == u;
    }
    assert last in uids;
  }

  /**
   * What a completed listing answers, whatever other clients did meanwhile. Of the mailbox as it
   * then is: every message that is not below the cursor, and no other, once each and in the
   * order of the UIDs; each item with its folder and UID, the id the server reported, in
   * brackets, or the empty string without one, and the keywords its flags stand for; the items
   * without an id counted; and a cursor of this UIDVALIDITY that moves only for a UID past it.
   */
  lemma ListingAnswers(o: Oracle, w: World, folder: string, cursor: Option<string>)
    returns (uids: seq<nat>, start: int, n: int)
    requires Inv(w.server)
    ensures var (w', r) := ListSince(o, w, folder, cursor);
            r.Ok? ==>
              && folder in w'.server.boxes
              && var m := w'.server.boxes[folder];
                 && (forall i, j :: 0 <= i < j < |uids| ==> uids[i] < uids[j])
                 && (forall u :: u in uids <==> u in m.msgs && AtOrPast(u, cursor, m.validity))
                 && |r.value.items| == |uids|
                 && (forall k :: 0 <= k < |uids| ==>
                       uids[k] in m.msgs && Describes(r.value.items[k], folder, uids[k], m.msgs[uids[k]]))
                 && r.value.unkeyable == Count(r.value.items, (i: Item) => i.messageId == "")
                 && DecodeCursor(r.value.cursor) == Some((m.validity as int, n)) && CursorFollows(n, start, uids)
                 && (if cursor.Some? && IsCursorOf(cursor.value, m.validity) then start == DecodeCursor(cursor.value).value.1
                     else 1 <= start <= m.uidNext)
  {
    uids, start, n := [], 0, 0;
    var f := ListSinceAnswers(o, w, folder, cursor);
    var (w', r) := ListSince(o, w, folder, cursor);
    hide ListSince, Inv, Later, Items, Listing, EncodeCursor, DecodeCursor, MaxUidNext, Unkeyable, Picks, Count;
    hide AtOrPast, Describes, CursorFollows, ItemOf, UidsAt;
    if r.Ok? {
      var resume := Resume(cursor, f.v);
      start, n := f.start, MaxUidNext(f.listing, resume, f.start);
      CursorRoundTrip(f.v, n);
      var at := ItemsPicked(f.listing, resume, folder);
      var m := w'.server.boxes[folder];
      UidsBelow(w'.server, folder);
      PickedUids(m.msgs, m.uidNext, cursor, f.v, at);
      uids := UidsAt(f.listing, at);
      CursorIs(f.listing, resume, f.start, at, uids);
      forall k | 0 <= k < |uids| ensures Describes(r.value.items[k], folder, uids[k], m.msgs[uids[k]]) {
        ItemDescribes((uids[k], m.msgs[uids[k]]), folder);
      }
    }
  }

  lemma UidsBelow(s: Server, folder: string)
    requires Inv(s) && folder in s.boxes
    ensures forall u :: u in s.boxes[folder].msgs ==> u < s.boxes[folder].uidNext
  {
    assert BoxInv(s, folder);
  }
}
