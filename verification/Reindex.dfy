/** A completed reindex is a faithful index of what each mailbox held when it was fetched. */
module Reindex {
  import opened Outcomes
  import opened ImapServer
  import opened MailConventions
  import opened MailTarget
  import opened HandleSafety

  predicate HasId(raw: Raw) {
    raw.envelopeId.Some? && raw.envelopeId.value != ""
  }

  predicate Describes(e: Entry, box: string, uid: nat, raw: Raw) {
    e.box == box && e.uid == uid && HasId(raw) && e.naturalKey == NormaliseKey(raw.envelopeId.value)
  }

  /** Entry by entry what was listed; refused exactly when some message has no Message-ID. */
  lemma {:induction false} EntriesOfExactly(listing: seq<(nat, Message)>, box: string)
    ensures EntriesOf(listing, box).Err? <==> exists i :: 0 <= i < |listing| && !HasId(listing[i].1.raw)
    ensures EntriesOf(listing, box).Ok? ==>
              && |EntriesOf(listing, box).value| == |listing|
              && forall i :: 0 <= i < |listing| ==>
                   Describes(EntriesOf(listing, box).value[i], box, listing[i].0, listing[i].1.raw)
  {
    hide NormaliseKey;
    if listing != [] {
      var n := |listing| - 1;
      EntriesOfExactly(listing[..n], box);
      assert forall i :: 0 <= i < n ==> listing[..n][i] == listing[i];
      if EntriesOf(listing[..n], box).Err? {
        var i :| 0 <= i < n && !HasId(listing[..n][i].1.raw);
        assert !HasId(listing[i].1.raw);
      } else if EntriesOf(listing, box).Err? {
        assert !HasId(listing[n].1.raw);
      }
    }
  }

  /** The entries are those of these messages: each once, under its own key, none without one. */
  ghost predicate IndexesMessages(entries: seq<Entry>, msgs: map<nat, Message>, box: string) {
    && (forall i :: 0 <= i < |entries| ==>
          entries[i].uid in msgs && Describes(entries[i], box, entries[i].uid, msgs[entries[i].uid].raw))
    && (forall u :: u in msgs ==> Yielded(entries, u))
    && (forall i, j :: 0 <= i < j < |entries| ==> entries[i].uid != entries[j].uid)
  }

  predicate Yielded(entries: seq<Entry>, uid: nat) {
    exists i :: 0 <= i < |entries| && entries[i].uid == uid
  }

  /** The entries are those of mailbox `box` of `s`. */
  ghost predicate Indexes(entries: seq<Entry>, s: Server, box: string) {
    box in s.boxes && IndexesMessages(entries, s.boxes[box].msgs, box)
  }

  /** The same facts about the entries of one listing. */
  lemma ListingEntries(msgs: map<nat, Message>, below: nat, box: string, i: nat)
    requires EntriesOf(Listing(msgs, below), box).Ok?
    requires i < |Listing(msgs, below)|
    ensures var r, listed := EntriesOf(Listing(msgs, below), box).value, Listing(msgs, below);
            && |r| == |listed|
            && r[i].uid == listed[i].0 && r[i].uid in msgs
            && Describes(r[i], box, r[i].uid, msgs[r[i].uid].raw)
  {
    hide EntriesOf, NormaliseKey, HasId;
    var listed := Listing(msgs, below);
    EntriesOfExactly(listed, box);
    var r := EntriesOf(listed, box).value;
    assert listed[i].0 in msgs && listed[i].1 == msgs[listed[i].0];
    hide Listing;
    assert Describes(r[i], box, listed[i].0, listed[i].1.raw);
  }

  lemma ListingYields(msgs: map<nat, Message>, below: nat, box: string, uid: nat)
    requires EntriesOf(Listing(msgs, below), box).Ok?
    requires uid in msgs && uid < below
    ensures Yielded(EntriesOf(Listing(msgs, below), box).value, uid)
  {
    var listed := Listing(msgs, below);
    assert (uid, msgs[uid]) in listed;
    hide EntriesOf, Listing, Describes;
    var i :| 0 <= i < |listed| && listed[i] == (uid, msgs[uid]);
    ListingEntries(msgs, below, box, i);
  }

  lemma ListingIndexes(msgs: map<nat, Message>, below: nat, box: string)
    requires EntriesOf(Listing(msgs, below), box).Ok?
    requires forall u :: u in msgs ==> u < below
    ensures IndexesMessages(EntriesOf(Listing(msgs, below), box).value, msgs, box)
  {
    hide EntriesOf, Describes, Listing, Yielded;
    var listed, r := Listing(msgs, below), EntriesOf(Listing(msgs, below), box).value;
    assert |r| == |listed| by { EntriesOfExactly(listed, box); }
    forall i | 0 <= i < |r|
      ensures r[i].uid == listed[i].0
      ensures r[i].uid in msgs && Describes(r[i], box, r[i].uid, msgs[r[i].uid].raw)
    {
      ListingEntries(msgs, below, box, i);
    }
    forall u | u in msgs ensures Yielded(r, u) { ListingYields(msgs, below, box, u); }
  }

  lemma UidsBelowNext(s: Server, box: string)
    requires Inv(s) && box in s.boxes
    ensures forall u :: u in s.boxes[box].msgs ==> u < s.boxes[box].uidNext
  {
    assert BoxInv(s, box);
  }

  lemma OneBox(o: Oracle, w: World, conn: nat, box: string)
    requires Inv(w.server)
    ensures var (w', r) := EntriesIn(o, w, conn, box);
            Inv(w'.server) && Later(w.server, w'.server) && (r.Ok? ==> Indexes(r.value, w'.server, box))
  {
    hide Inv, Later, Touched, EntriesOf, IndexesMessages, Listing, Arrive, LockOn;
    EntriesInKeeps(o, w, conn, box);
    var (w1, sel) := LockOn(o, w, conn, box);
    LockOnKeeps(o, w, conn, box);
    LockOnBox(o, w, conn, box);
    if sel.Ok? {
      FetchAllKeeps(o, w1, sel.value);
      var (w2, listed) := FetchAll(o, w1, sel.value);
      if listed.Ok? && EntriesOf(listed.value, box).Ok? {
        var m := w2.server.boxes[box];
        UidsBelowNext(w2.server, box);
        ListingIndexes(m.msgs, m.uidNext, box);
      }
    }
  }

  lemma LockOnBox(o: Oracle, w: World, conn: nat, box: string)
    ensures var r := LockOn(o, w, conn, box).1; r.Ok? ==> r.value.box == box
  {
    hide Arrive;
  }

  /** What one mailbox contributes: the server as it was fetched from, and the entries yielded. */
  datatype Part = Part(box: string, at: Server, entries: seq<Entry>)

  function Parts(o: Oracle, w: World, conn: nat, boxes: seq<string>): seq<Part>
    decreases |boxes|
  {
    if boxes == [] then []
    else
      var (w1, first) := EntriesIn(o, w, conn, boxes[0]);
      [Part(boxes[0], w1.server, if first.Ok? then first.value else [])] + Parts(o, w1, conn, boxes[1..])
  }

  function Joined(parts: seq<Part>): seq<Entry> {
    if parts == [] then [] else parts[0].entries + Joined(parts[1..])
  }

  /** The entries are those of its mailbox, in a state of the server no earlier than `s`. */
  ghost predicate Sound(p: Part, s: Server) {
    Inv(p.at) && Later(s, p.at) && Indexes(p.entries, p.at, p.box)
  }

  lemma {:induction false} PartsMakeAll(o: Oracle, w: World, conn: nat, boxes: seq<string>)
    requires Inv(w.server) && EntriesInAll(o, w, conn, boxes).1.Ok?
    ensures var parts := Parts(o, w, conn, boxes);
            && EntriesInAll(o, w, conn, boxes).1.value == Joined(parts)
            && |parts| == |boxes|
            && forall k :: 0 <= k < |parts| ==> parts[k].box == boxes[k] && Sound(parts[k], w.server)
    decreases |boxes|
  {
    hide EntriesIn, Indexes, Inv, Later;
    if boxes != [] {
      var (w1, first) := EntriesIn(o, w, conn, boxes[0]);
      OneBox(o, w, conn, boxes[0]);
      PartsMakeAll(o, w1, conn, boxes[1..]);
      var rest := Parts(o, w1, conn, boxes[1..]);
      var parts := [Part(boxes[0], w1.server, first.value)] + rest;
      assert parts == Parts(o, w, conn, boxes) && parts[1..] == rest;
      forall k | 0 <= k < |parts| ensures parts[k].box == boxes[k] && Sound(parts[k], w.server) {
        if k > 0 {
          assert parts[k] == rest[k - 1];
          LaterIsTransitive(w.server, w1.server, parts[k].at);
        }
      }
    }
  }

  // ----- nothing twice -----

  predicate Distinct(boxes: seq<string>) {
    forall i, j :: 0 <= i < j < |boxes| ==> boxes[i] != boxes[j]
  }

  predicate SameMessage(a: Entry, b: Entry) {
    a.box == b.box && a.uid == b.uid
  }

  predicate NothingTwice(entries: seq<Entry>) {
    forall i, j :: 0 <= i < j < |entries| ==> !SameMessage(entries[i], entries[j])
  }

  ghost predicate EachIndexes(parts: seq<Part>) {
    && (forall k :: 0 <= k < |parts| ==> Indexes(parts[k].entries, parts[k].at, parts[k].box))
    && (forall i, j :: 0 <= i < j < |parts| ==> parts[i].box != parts[j].box)
  }

  lemma {:induction false} JoinedHasBox(parts: seq<Part>, i: nat) returns (k: nat)
    requires EachIndexes(parts) && i < |Joined(parts)|
    ensures k < |parts| && Joined(parts)[i].box == parts[k].box
    decreases |parts|
  {
    var head := parts[0].entries;
    if i < |head| {
      k := 0;
      assert Describes(head[i], parts[0].box, head[i].uid, parts[0].at.boxes[parts[0].box].msgs[head[i].uid].raw);
    } else {
      k := JoinedHasBox(parts[1..], i - |head|);
      k := k + 1;
    }
  }

  lemma PartHasNothingTwice(p: Part)
    requires Indexes(p.entries, p.at, p.box)
    ensures NothingTwice(p.entries) && forall i :: 0 <= i < |p.entries| ==> p.entries[i].box == p.box
  {
    hide HasId, NormaliseKey, Yielded;
  }

  lemma {:induction false} JoinedHasNothingTwice(parts: seq<Part>)
    requires EachIndexes(parts)
    ensures NothingTwice(Joined(parts))
    decreases |parts|
  {
    if parts != [] {
      var head, tail := parts[0].entries, Joined(parts[1..]);
      PartHasNothingTwice(parts[0]);
      JoinedHasNothingTwice(parts[1..]);
      forall i, j | 0 <= i < j < |head + tail| ensures !SameMessage((head + tail)[i], (head + tail)[j]) {
        if i < |head| <= j {
          var k := JoinedHasBox(parts[1..], j - |head|);
          assert parts[1..][k] == parts[k + 1];
        }
      }
    }
  }

  /** The mailboxes enumerated are all there are, each once; a scoped call enumerates its one. */
  lemma Enumerated(o: Oracle, w: World, mailboxId: Option<string>)
    requires Inv(w.server)
    ensures var (w', r) := BoxesToList(o, w, mailboxId);
            && Inv(w'.server) && Later(w.server, w'.server)
            && (r.Ok? ==>
                  && Distinct(r.value)
                  && (if mailboxId.GetOr("") != "" then r.value == [mailboxId.value]
                      else if |w'.server.boxes| == 0 then r.value == ["INBOX"]
                      else forall b :: b in w'.server.boxes <==> b in r.value))
  {
    LaterRefl(w.server);
    StepsInv(w.server, o(w.turn).env);
    var (w', r) := BoxesToList(o, w, mailboxId);
    var s := Arrive(o, w);
    hide Steps, Arrive, BoxInv, Later;
    if r.Ok? && mailboxId.GetOr("") == "" {
      assert |s.names| > 0 ==> s.names[0] in s.boxes;
      if |s.boxes| > 0 {
        var b :| b in s.boxes;
        assert b in s.names;
        assert r.value == s.names;
      } else {
        assert r.value == ["INBOX"];
      }
    }
  }

  /** A looked-up key finds a message with that key, and the indexed one when the key is unique in its mailbox. */
  lemma IndexedIsFound(o: Oracle, w: World, e: Entry)
    requires Inv(w.server)
    ensures var (w', r) := Find(o, w, e.box, e.naturalKey);
            r.Ok? && e.box in w'.server.boxes && e.uid in w'.server.boxes[e.box].msgs
            && Describes(e, e.box, e.uid, w'.server.boxes[e.box].msgs[e.uid].raw) ==>
              var msgs := w'.server.boxes[e.box].msgs;
              && r.value.Some? && r.value.value in msgs && HasKey(msgs[r.value.value].raw, e.naturalKey)
              && ((forall u :: u in msgs && u != e.uid ==> !HasKey(msgs[u].raw, e.naturalKey)) ==> r.value.value == e.uid)
  {
    FindAnswers(o, w, e.box, e.naturalKey);
    var (w', r) := Find(o, w, e.box, e.naturalKey);
    if r.Ok? && e.box in w'.server.boxes && e.uid in w'.server.boxes[e.box].msgs
       && Describes(e, e.box, e.uid, w'.server.boxes[e.box].msgs[e.uid].raw) {
      NormaliseIdempotent(w'.server.boxes[e.box].msgs[e.uid].raw.envelopeId.value);
    }
    hide Find, Inv, NormaliseKey;
  }

  /**
   * A reindex that completes yields, mailbox by mailbox, every message that mailbox held when
   * it was fetched, exactly once and under its own normalised Message-ID; it never completes
   * past a message without one. The answer is those parts one after another and nothing else,
   * and no message occurs twice in it. Unscoped, the mailboxes are all the server has.
   */
  lemma ReindexIsFaithful(o: Oracle, w: World, mailboxId: Option<string>)
    requires Inv(w.server) && ListEntries(o, w, mailboxId).1.Ok?
    ensures var w0 := Attach(o, w);
            var (w1, boxes) := BoxesToList(o, w0, mailboxId);
            && boxes.Ok?
            && (mailboxId.GetOr("") != "" ==> boxes.value == [mailboxId.value])
            && (mailboxId.GetOr("") == "" && |w1.server.boxes| > 0 ==>
                  forall b :: b in w1.server.boxes <==> b in boxes.value)
            && var parts := Parts(o, w1, w0.conn, boxes.value);
               && ListEntries(o, w, mailboxId).1.value == Joined(parts)
               && |parts| == |boxes.value|
               && (forall k :: 0 <= k < |parts| ==> parts[k].box == boxes.value[k] && Sound(parts[k], w1.server))
               && Later(w.server, w1.server)
    ensures NothingTwice(ListEntries(o, w, mailboxId).1.value)
  {
    AttachKeeps(o, w);
    hide Attach, BoxesToList, EntriesInAll, Parts, Joined, Inv, Later, Indexes, NothingTwice;
    var w0 := Attach(o, w);
    var (w1, boxes) := BoxesToList(o, w0, mailboxId);
    Enumerated(o, w0, mailboxId);
    PartsMakeAll(o, w1, w0.conn, boxes.value);
    JoinedHasNothingTwice(Parts(o, w1, w0.conn, boxes.value));
  }
}
