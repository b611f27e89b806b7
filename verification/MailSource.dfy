/**
 * The IMAP read path: an incremental listing with a (UIDVALIDITY, UIDNEXT) cursor, and
 * the bytes of one message. Each operation has a connection of its own.
 */
module MailSource {
  import opened Outcomes
  import opened ImapServer
  import opened MailConventions
  import MailClient

  datatype Item = Item(messageId: string, folder: string, keywords: seq<Keyword>, sourceRef: string)

  datatype Listed = Listed(items: seq<Item>, cursor: string, unkeyable: nat)

  const FETCH_ATTEMPTS: nat := 3

  // ----- listing -----

  /** Where a listing resumes: the cursor's UIDNEXT if the cursor is of this UIDVALIDITY, else nowhere. */
  function Resume(cursor: Option<string>, validity: nat): Option<int> {
    if cursor.None? then None
    else
      var decoded := DecodeCursor(cursor.value);
      if decoded.Some? && decoded.value.0 == validity then Some(decoded.value.1) else None
  }

  predicate Skipped(uid: nat, resume: Option<int>) {
    resume.Some? && uid < resume.value
  }

  function ItemOf(m: (nat, Message), folder: string): Item {
    var id := MessageIdFromEnvelope(m.1.raw.envelopeId);
    Item(if id.Some? then id.value else "", folder, KeywordsOf(m.1.flags), SourceRef(folder, m.0))
  }

  function Items(listing: seq<(nat, Message)>, resume: Option<int>, folder: string): seq<Item> {
    if listing == [] then []
    else
      var n := |listing| - 1;
      Items(listing[..n], resume, folder)
      + (if Skipped(listing[n].0, resume) then [] else [ItemOf(listing[n], folder)])
  }

  function MaxUidNext(listing: seq<(nat, Message)>, resume: Option<int>, start: int): int {
    if listing == [] then start
    else
      var n := |listing| - 1;
      var before := MaxUidNext(listing[..n], resume, start);
      var uid := listing[n].0;
      if !Skipped(uid, resume) && uid > before then uid + 1 else before
  }

  function Unkeyable(listing: seq<(nat, Message)>, resume: Option<int>): nat {
    if listing == [] then 0
    else
      var n := |listing| - 1;
      Unkeyable(listing[..n], resume)
      + (if !Skipped(listing[n].0, resume) && MessageIdFromEnvelope(listing[n].1.raw.envelopeId).None? then 1 else 0)
  }

  /** An empty mailbox is not fetched at all. */
  function FetchListing(o: Oracle, w: World, sel: Selection): (World, Result<seq<(nat, Message)>>) {
    if sel.count == 0 then (w, Ok([])) else FetchAll(o, w, sel)
  }

  /** The mailbox selected on a new connection. */
  function OpenFresh(o: Oracle, w: World, folder: string): (World, Result<Selection>) {
    LockOn(o, Reconnect(w), Reconnect(w).conn, folder)
  }

  function ListSince(o: Oracle, w: World, folder: string, cursor: Option<string>): (World, Result<Listed>) {
    var (w1, sel) := OpenFresh(o, w, folder);
    if sel.Err? then (w1, Err)
    else
      var (w2, messages) := FetchListing(o, w1, sel.value);
      if messages.Err? then (w2, Err)
      else
        var resume := Resume(cursor, sel.value.validity);
        var start: int := if resume.Some? then resume.value
                          else if sel.value.uidNext == 0 then 1 else sel.value.uidNext;
        (w2, Ok(Listed(Items(messages.value, resume, folder),
                       EncodeCursor(sel.value.validity, MaxUidNext(messages.value, resume, start)),
                       Unkeyable(messages.value, resume))))
  }

  // ----- fetching one message -----

  function FetchTries(o: Oracle, w: World, sel: Selection, uid: nat, tries: nat): (World, Result<Raw>)
    decreases tries
  {
    if tries == 0 then (w, Err)
    else
      var (w1, m) := FetchOne(o, w, sel, uid);
      if m.Err? then (w1, Err)
      else if m.value.Some? then (w1, Ok(m.value.value))
      else FetchTries(o, w1, sel, uid, tries - 1)
  }

  /** By folder and UID only: the UIDVALIDITY the item was listed under is not looked at. */
  function Fetch(o: Oracle, w: World, item: Item): (World, Result<Raw>) {
    var (w1, sel) := OpenFresh(o, w, item.folder);
    if sel.Err? then (w1, Err)
    else FetchTries(o, w1, sel.value, UidOf(item), FETCH_ATTEMPTS)
  }

  /** No message has UID 0, so what is not a UID finds nothing. */
  function UidOf(item: Item): nat {
    var uid := UidFromSourceRef(item.sourceRef);
    if uid < 0 then 0 else uid
  }

  /** After so many requests for one message. */
  function AfterAsking(o: Oracle, w: World, sel: Selection, uid: nat, times: nat): World {
    if times == 0 then w else FetchOne(o, AfterAsking(o, w, sel, uid, times - 1), sel, uid).0
  }

  /** Request number `k` brings the bytes, after requests that all answered that there is nothing. */
  ghost predicate Brings(o: Oracle, w: World, sel: Selection, uid: nat, k: nat, raw: Raw) {
    && FetchOne(o, AfterAsking(o, w, sel, uid, k), sel, uid).1 == Ok(Some(raw))
    && forall j: nat :: j < k ==> FetchOne(o, AfterAsking(o, w, sel, uid, j), sel, uid).1 == Ok(None)
  }

  lemma {:induction false} AskingOn(o: Oracle, w: World, sel: Selection, uid: nat, times: nat)
    ensures AfterAsking(o, w, sel, uid, times + 1) == AfterAsking(o, FetchOne(o, w, sel, uid).0, sel, uid, times)
  {
    hide FetchOne;
    if times > 0 { AskingOn(o, w, sel, uid, times - 1); }
  }

  lemma BringsLater(o: Oracle, w: World, sel: Selection, uid: nat, k: nat, raw: Raw)
    requires FetchOne(o, w, sel, uid).1 == Ok(None)
    ensures Brings(o, FetchOne(o, w, sel, uid).0, sel, uid, k, raw) <==> Brings(o, w, sel, uid, k + 1, raw)
  {
    hide FetchOne;
    var w1 := FetchOne(o, w, sel, uid).0;
    forall j: nat ensures AfterAsking(o, w, sel, uid, j + 1) == AfterAsking(o, w1, sel, uid, j) { AskingOn(o, w, sel, uid, j); }
    if Brings(o, w, sel, uid, k + 1, raw) {
      forall j: nat | j < k ensures FetchOne(o, AfterAsking(o, w1, sel, uid, j), sel, uid).1 == Ok(None) {
        assert AfterAsking(o, w, sel, uid, j + 1) == AfterAsking(o, w1, sel, uid, j);
      }
    }
    if Brings(o, w1, sel, uid, k, raw) {
      forall j: nat | j < k + 1 ensures FetchOne(o, AfterAsking(o, w, sel, uid, j), sel, uid).1 == Ok(None) {
        if j > 0 { assert AfterAsking(o, w, sel, uid, j - 1 + 1) == AfterAsking(o, w1, sel, uid, j - 1); }
      }
    }
  }

  lemma {:induction false} TriesExactly(o: Oracle, w: World, sel: Selection, uid: nat, tries: nat, raw: Raw)
    ensures FetchTries(o, w, sel, uid, tries).1 == Ok(raw) <==> exists k: nat :: k < tries && Brings(o, w, sel, uid, k, raw)
    decreases tries
  {
    hide FetchOne, AfterAsking;
    assert AfterAsking(o, w, sel, uid, 0) == w by { AskedNothing(o, w, sel, uid); }
    var (w1, m) := FetchOne(o, w, sel, uid);
    if tries > 0 {
      if m == Ok(None) {
        TriesExactly(o, w1, sel, uid, tries - 1, raw);
        if k: nat :| k < tries - 1 && Brings(o, w1, sel, uid, k, raw) { BringsLater(o, w, sel, uid, k, raw); }
        if k: nat :| k < tries && Brings(o, w, sel, uid, k, raw) {
          if k > 0 { BringsLater(o, w, sel, uid, k - 1, raw); }
        }
      } else {
        forall k: nat | Brings(o, w, sel, uid, k, raw) ensures k == 0 {}
        if m == Ok(Some(raw)) { assert Brings(o, w, sel, uid, 0, raw); }
      }
    }
  }

  lemma AskedNothing(o: Oracle, w: World, sel: Selection, uid: nat)
    ensures AfterAsking(o, w, sel, uid, 0) == w
  {
  }

  /**
   * A fetch brings the bytes exactly if one of three requests in a row does, every one before it
   * answering that there is nothing.
   */
  lemma FetchedExactly(o: Oracle, w: World, item: Item, raw: Raw)
    ensures Fetch(o, w, item).1 == Ok(raw) <==>
              && OpenFresh(o, w, item.folder).1.Ok?
              && exists k: nat :: k < 3 && Brings(o, OpenFresh(o, w, item.folder).0, OpenFresh(o, w, item.folder).1.value,
                                                 UidOf(item), k, raw)
  {
    hide OpenFresh, FetchTries, Brings, UidOf;
    var (w1, sel) := OpenFresh(o, w, item.folder);
    if sel.Ok? { TriesExactly(o, w1, sel.value, UidOf(item), 3, raw); }
  }

  // ----- the connector -----

  class ImapFlowSource {
    const client: MailClient.Client

    constructor (client: MailClient.Client)
      ensures this.client == client
    {
      this.client := client;
    }

    method ListSinceInternal(folder: string, cursor: Option<string>) returns (r: Result<Listed>)
      modifies client
      ensures (client.world, r) == ListSince(client.oracle, old(client.world), folder, cursor)
    {
      hide LockOn, FetchAll, MessageIdFromEnvelope, KeywordsOf, SourceRef, EncodeCursor, DecodeCursor;
      var conn := client.Connect();
      var sel := client.LockHeld(conn, folder);
      if sel.Err? { return Err; }
      var uidValidity := sel.value.validity;
      var uidNext: int := if sel.value.uidNext == 0 then 1 else sel.value.uidNext;
      var cursorUidNext: Option<int> := None;
      if cursor.Some? {
        var decoded := DecodeCursor(cursor.value);
        if decoded.Some? && decoded.value.0 == uidValidity {
          cursorUidNext := Some(decoded.value.1);
          uidNext := decoded.value.1;
        }
      }
      var messages: seq<(nat, Message)> := [];
      if sel.value.count != 0 {
        var fetched := client.FetchAll(sel.value);
        if fetched.Err? { return Err; }
        messages := fetched.value;
      }
      var items: seq<Item> := [];
      var maxUidNext := uidNext;
      var unkeyable: nat := 0;
      for i := 0 to |messages|
        invariant items == Items(messages[..i], cursorUidNext, folder)
        invariant maxUidNext == MaxUidNext(messages[..i], cursorUidNext, uidNext)
        invariant unkeyable == Unkeyable(messages[..i], cursorUidNext)
      {
        assert messages[..i + 1][..i] == messages[..i];
        var uid := messages[i].0;
        if cursorUidNext.Some? && uid < cursorUidNext.value { continue; }
        var messageId := MessageIdFromEnvelope(messages[i].1.raw.envelopeId);
        if messageId.None? { unkeyable := unkeyable + 1; }
        var keywords := KeywordsOf(messages[i].1.flags);
        items := items + [Item(if messageId.Some? then messageId.value else "", folder, keywords, SourceRef(folder, uid))];
        if uid > maxUidNext { maxUidNext := uid + 1; }
      }
      assert messages[..|messages|] == messages;
      return Ok(Listed(items, EncodeCursor(uidValidity, maxUidNext), unkeyable));
    }

    method FetchInternal(item: Item) returns (r: Result<Raw>)
      modifies client
      ensures (client.world, r) == Fetch(client.oracle, old(client.world), item)
    {
      hide LockOn, FetchTries, UidFromSourceRef;
      var conn := client.Connect();
      var sel := client.LockHeld(conn, item.folder);
      if sel.Err? { return Err; }
      r := FetchRepeatedly(sel.value, UidOf(item));
    }

    method FetchRepeatedly(sel: Selection, uid: nat) returns (r: Result<Raw>)
      modifies client
      ensures (client.world, r) == FetchTries(client.oracle, old(client.world), sel, uid, FETCH_ATTEMPTS)
    {
      hide ImapServer.FetchOne;
      var attempt: nat := 1;
      while attempt <= FETCH_ATTEMPTS
        invariant 1 <= attempt <= FETCH_ATTEMPTS + 1
        invariant FetchTries(client.oracle, old(client.world), sel, uid, FETCH_ATTEMPTS)
               == FetchTries(client.oracle, client.world, sel, uid, FETCH_ATTEMPTS + 1 - attempt)
      {
        var message := client.FetchOne(sel, uid);
        if message.Err? { return Err; }
        if message.value.Some? { return Ok(message.value.value); }
        attempt := attempt + 1;
      }
      return Err;
    }
  }
}
