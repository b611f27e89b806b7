/**
 * Over any run of listing passes, with arrivals, expunges and recreations in between
 * and calls failing anywhere, the incremental listing loses nothing.
 */
module IncrementalListing {
  import opened Outcomes
  import opened ImapServer
  import opened MailConventions
  import opened MailSource

  // ----- one listing -----

  lemma {:induction false} MessageIsListed(listing: seq<(nat, Message)>, resume: Option<int>, folder: string, i: nat)
    requires i < |listing| && !Skipped(listing[i].0, resume)
    ensures ItemOf(listing[i], folder) in Items(listing, resume, folder)
    decreases |listing|
  {
    hide ItemOf, Skipped;
    var n := |listing| - 1;
    if i < n { MessageIsListed(listing[..n], resume, folder, i); }
  }

  lemma {:induction false} ItemIsOfMessage(listing: seq<(nat, Message)>, resume: Option<int>, folder: string, item: Item)
    returns (i: nat)
    requires item in Items(listing, resume, folder)
    ensures i < |listing| && !Skipped(listing[i].0, resume) && item == ItemOf(listing[i], folder)
    decreases |listing|
  {
    hide ItemOf, Skipped;
    var n := |listing| - 1;
    if item in Items(listing[..n], resume, folder) {
      i := ItemIsOfMessage(listing[..n], resume, folder, item);
    } else {
      i := n;
    }
  }

  /** The next cursor is at least the last UID listed and at most one past it. */
  lemma {:induction false} MaxUidNextBounds(listing: seq<(nat, Message)>, resume: Option<int>, start: int)
    ensures MaxUidNext(listing, resume, start) >= start
    ensures forall i :: 0 <= i < |listing| && !Skipped(listing[i].0, resume) ==>
              listing[i].0 <= MaxUidNext(listing, resume, start)
    ensures MaxUidNext(listing, resume, start) == start
         || exists i :: 0 <= i < |listing| && !Skipped(listing[i].0, resume)
                        && MaxUidNext(listing, resume, start) == listing[i].0 + 1
  {
    if listing != [] {
      var n := |listing| - 1;
      MaxUidNextBounds(listing[..n], resume, start);
      forall i | 0 <= i < |listing| && !Skipped(listing[i].0, resume)
        ensures listing[i].0 <= MaxUidNext(listing, resume, start)
      {
        if i < n { assert listing[..n][i] == listing[i]; }
      }
    }
  }

  /** The messages a completed pass lists: those in the mailbox from the resume point on. */
  function ListedHandles(s: Server, folder: string, resume: Option<int>): set<Handle> {
    if folder in s.boxes then
      set u | u in s.boxes[folder].msgs && !Skipped(u, resume) :: Handle(folder, s.boxes[folder].validity, u)
    else {}
  }

  // ----- runs of passes -----

  /** What is kept from pass to pass, and the history of what completed passes listed. */
  datatype Position = Position(world: World, cursor: Option<string>, seen: set<Handle>)

  /** The cursor is stored only when a pass completes. */
  function Pass(o: Oracle, p: Position, folder: string): Position {
    var (w, r) := ListSince(o, p.world, folder, p.cursor);
    if r.Err? || folder !in w.server.boxes then Position(w, p.cursor, p.seen)
    else
      Position(w, Some(r.value.cursor),
               p.seen + ListedHandles(w.server, folder, Resume(p.cursor, w.server.boxes[folder].validity)))
  }

  /** Everything below the cursor that is still there has been listed by a completed pass. */
  predicate CursorInv(s: Server, folder: string, cursor: Option<string>, seen: set<Handle>) {
    if cursor.None? then seen == {}
    else
      var at := DecodeCursor(cursor.value);
      at.Some? && CursorAt(s, folder, seen, at.value.0, at.value.1)
  }

  predicate CursorAt(s: Server, folder: string, seen: set<Handle>, v: int, n: int) {
    && folder in s.boxes
    && v <= s.boxes[folder].validity
    && (s.boxes[folder].validity == v ==>
          && n <= s.boxes[folder].uidNext
          && (forall u :: u in s.boxes[folder].msgs && u < n ==> Handle(folder, v, u) in seen))
    && (forall h :: h in seen ==> h in s.named && h.box == folder && h.validity <= v && (h.validity == v ==> h.uid <= n))
  }

  lemma CursorAtLater(s: Server, t: Server, folder: string, seen: set<Handle>, v: int, n: int)
    requires Inv(s) && Inv(t) && Later(s, t) && CursorAt(s, folder, seen, v, n)
    ensures CursorAt(t, folder, seen, v, n)
  {
    assert BoxInv(s, folder) && BoxInv(t, folder);
    if t.boxes[folder].validity == v {
      forall u | u in t.boxes[folder].msgs && u < n ensures Handle(folder, v, u) in seen {
        var h := Handle(folder, v, u);
        assert h in t.named && h !in t.taken;
        assert h in s.named;
      }
    }
  }

  lemma CursorLater(s: Server, t: Server, folder: string, cursor: Option<string>, seen: set<Handle>)
    requires Inv(s) && Inv(t) && Later(s, t) && CursorInv(s, folder, cursor, seen)
    ensures CursorInv(t, folder, cursor, seen)
  {
    hide CursorAt, Inv, Later, DecodeCursor;
    if cursor.Some? {
      var at := DecodeCursor(cursor.value).value;
      CursorAtLater(s, t, folder, seen, at.0, at.1);
    }
  }

  /** What a completed pass was bound to: the mailbox at its fetch, and where it started. */
  datatype PassFacts = PassFacts(v: nat, listing: seq<(nat, Message)>, start: int)

  predicate AtFetch(s: Server, folder: string, f: PassFacts) {
    && folder in s.boxes && s.boxes[folder].validity == f.v
    && f.listing == Listing(s.boxes[folder].msgs, s.boxes[folder].uidNext)
  }

  predicate Answers(s: Server, folder: string, cursor: Option<string>, f: PassFacts, r: Listed) {
    && AtFetch(s, folder, f)
    && var resume := Resume(cursor, f.v);
       && r.items == Items(f.listing, resume, folder) && r.unkeyable == Unkeyable(f.listing, resume)
       && r.cursor == EncodeCursor(f.v, MaxUidNext(f.listing, resume, f.start))
       && (if resume.Some? then f.start == resume.value else 1 <= f.start <= s.boxes[folder].uidNext)
  }

  lemma {:induction false} EmptyListing(msgs: map<nat, Message>, below: nat)
    requires |msgs| == 0
    ensures Listing(msgs, below) == []
  {
    if below > 0 { EmptyListing(msgs, below - 1); }
  }

  lemma OpenAnswers(o: Oracle, w: World, folder: string)
    requires Inv(w.server)
    ensures var (w1, sel) := OpenFresh(o, w, folder);
            && Inv(w1.server) && Later(w.server, w1.server)
            && (sel.Ok? ==>
                  && folder in w1.server.boxes
                  && var m := w1.server.boxes[folder];
                     sel.value == Selection(folder, m.validity, m.uidNext, |m.msgs|) && m.uidNext >= 1)
  {
    StepsInv(w.server, o(w.turn).env);
    var w1 := OpenFresh(o, w, folder).0;
    assert w1.server == Steps(w.server, o(w.turn).env);
    if folder in w1.server.boxes { assert BoxInv(w1.server, folder); }
  }

  lemma FetchAnswers(o: Oracle, w: World, sel: Selection)
    requires Inv(w.server) && Selected(w.server, sel) && sel.count == |w.server.boxes[sel.box].msgs|
    ensures var (w1, messages) := FetchListing(o, w, sel);
            && Inv(w1.server) && Later(w.server, w1.server)
            && (messages.Ok? ==>
                  && Selected(w1.server, sel)
                  && messages.value == Listing(w1.server.boxes[sel.box].msgs, w1.server.boxes[sel.box].uidNext)
                  && w1.server.boxes[sel.box].uidNext >= w.server.boxes[sel.box].uidNext)
  {
    StepsInv(w.server, o(w.turn).env);
    assert BoxInv(w.server, sel.box);
    var m := w.server.boxes[sel.box];
    if sel.count == 0 {
      EmptyListing(m.msgs, m.uidNext);
      LaterRefl(w.server);
    }
  }

  lemma ListSinceAnswers(o: Oracle, w: World, folder: string, cursor: Option<string>) returns (f: PassFacts)
    requires Inv(w.server)
    ensures var (w', r) := ListSince(o, w, folder, cursor);
            && Inv(w'.server) && Later(w.server, w'.server)
            && (r.Ok? ==> Answers(w'.server, folder, cursor, f, r.value))
  {
    hide OpenFresh, FetchListing, Items, MaxUidNext, Resume, EncodeCursor, Unkeyable, Inv, Later, Listing;
    f := PassFacts(0, [], 1);
    var (w1, sel) := OpenFresh(o, w, folder);
    OpenAnswers(o, w, folder);
    if sel.Ok? {
      var (w2, messages) := FetchListing(o, w1, sel.value);
      FetchAnswers(o, w1, sel.value);
      LaterIsTransitive(w.server, w1.server, w2.server);
      if messages.Ok? {
        var resume := Resume(cursor, sel.value.validity);
        f := PassFacts(sel.value.validity, messages.value, if resume.Some? then resume.value else sel.value.uidNext);
      }
    }
  }

  /** The next cursor under the mailbox it was computed from. */
  lemma NextCursor(s: Server, folder: string, cursor: Option<string>, seen: set<Handle>, f: PassFacts, r: Listed)
    returns (n: int)
    requires Inv(s) && CursorInv(s, folder, cursor, seen) && Answers(s, folder, cursor, f, r)
    ensures DecodeCursor(r.cursor) == Some((f.v as int, n))
    ensures n <= s.boxes[folder].uidNext
    ensures forall u :: u in s.boxes[folder].msgs && !Skipped(u, Resume(cursor, f.v)) ==> u <= n
    ensures Resume(cursor, f.v).Some? ==> Resume(cursor, f.v).value <= n
  {
    var resume := Resume(cursor, f.v);
    n := MaxUidNext(f.listing, resume, f.start);
    CursorRoundTrip(f.v, n);
    assert resume.Some? ==> resume.value <= s.boxes[folder].uidNext;
    assert BoxInv(s, folder);
    var m := s.boxes[folder];
    assert forall u :: u in m.msgs ==> u < m.uidNext;
    hide Inv, CursorInv, DecodeCursor, EncodeCursor, Resume, MaxUidNext, Items, Listing, Skipped;
    MaxUidNextBounds(f.listing, resume, f.start);
    forall u | u in m.msgs && !Skipped(u, resume) ensures u <= n {
      assert (u, m.msgs[u]) in f.listing;
      var i :| 0 <= i < |f.listing| && f.listing[i] == (u, m.msgs[u]);
      assert f.listing[i].0 == u;
    }
  }

  /** The messages a pass lists that completed passes had listed before: none, but the one at the cursor. */
  predicate OnlyAtCursorAgain(listed: set<Handle>, seen: set<Handle>, resume: Option<int>) {
    forall h :: h in listed && h in seen ==> resume == Some(h.uid as int)
  }

  /** What the stored cursor says about the messages a pass skips and those listed before. */
  lemma Covered(s: Server, folder: string, cursor: Option<string>, seen: set<Handle>)
    requires Inv(s) && folder in s.boxes && CursorInv(s, folder, cursor, seen)
    ensures var v := s.boxes[folder].validity;
            var resume := Resume(cursor, v);
            && (forall u :: u in s.boxes[folder].msgs && Skipped(u, resume) ==> Handle(folder, v, u) in seen)
            && (forall h :: h in seen ==>
                  && h in s.named && h.box == folder && h.validity <= v
                  && (h.validity == v ==> resume.Some? && h.uid <= resume.value))
  {
    hide Inv, DecodeCursor;
  }

  lemma PassCompletes(s: Server, folder: string, cursor: Option<string>, seen: set<Handle>, f: PassFacts, r: Listed)
    requires Inv(s) && CursorInv(s, folder, cursor, seen) && Answers(s, folder, cursor, f, r)
    ensures var listed := ListedHandles(s, folder, Resume(cursor, f.v));
            && CursorInv(s, folder, Some(r.cursor), seen + listed)
            && (forall u :: u in s.boxes[folder].msgs ==> Handle(folder, f.v, u) in seen + listed)
            && OnlyAtCursorAgain(listed, seen, Resume(cursor, f.v))
            && CursorMoves(s, folder, cursor, r.cursor)
  {
    hide Inv, CursorAt, EncodeCursor, MaxUidNext, Items, Listing, DecodeCursor, Resume, ListedHandles, Skipped;
    var n := NextCursor(s, folder, cursor, seen, f, r);
    NextCursorAt(s, folder, cursor, seen, f.v, n);
    AllSeen(s, folder, cursor, seen);
    hide CursorInv, Answers, OnlyAtCursorAgain;
  }

  lemma AllSeen(s: Server, folder: string, cursor: Option<string>, seen: set<Handle>)
    requires Inv(s) && folder in s.boxes && CursorInv(s, folder, cursor, seen)
    ensures var v := s.boxes[folder].validity;
            var listed := ListedHandles(s, folder, Resume(cursor, v));
            && (forall u :: u in s.boxes[folder].msgs ==> Handle(folder, v, u) in seen + listed)
            && OnlyAtCursorAgain(listed, seen, Resume(cursor, v))
  {
    Covered(s, folder, cursor, seen);
    hide Inv, CursorInv, Resume;
    var v := s.boxes[folder].validity;
    var resume := Resume(cursor, v);
    var listed := ListedHandles(s, folder, resume);
    forall u | u in s.boxes[folder].msgs ensures Handle(folder, v, u) in seen + listed {
      if !Skipped(u, resume) { assert Handle(folder, v, u) in listed; }
    }
  }

  lemma NextCursorAt(s: Server, folder: string, cursor: Option<string>, seen: set<Handle>, v: nat, n: int)
    requires Inv(s) && folder in s.boxes && s.boxes[folder].validity == v && CursorInv(s, folder, cursor, seen)
    requires n <= s.boxes[folder].uidNext
    requires forall u :: u in s.boxes[folder].msgs && !Skipped(u, Resume(cursor, v)) ==> u <= n
    requires Resume(cursor, v).Some? ==> Resume(cursor, v).value <= n
    ensures CursorAt(s, folder, seen + ListedHandles(s, folder, Resume(cursor, v)), v, n)
  {
    Covered(s, folder, cursor, seen);
    assert BoxInv(s, folder);
    hide Inv, CursorInv, Resume;
    var resume := Resume(cursor, v);
    var listed := ListedHandles(s, folder, resume);
    forall u | u in s.boxes[folder].msgs && u < n ensures Handle(folder, v, u) in seen + listed {
      if !Skipped(u, resume) { assert Handle(folder, v, u) in listed; }
    }
    forall h | h in seen + listed
      ensures h in s.named && h.box == folder && h.validity <= v && (h.validity == v ==> h.uid <= n)
    {
      if h in listed {
        assert h.uid in s.boxes[folder].msgs && h == Handle(folder, v, h.uid);
      }
    }
  }

  /**
   * The next cursor is the server's UIDVALIDITY, at most its UIDNEXT, and no lower than a cursor of
   * that UIDVALIDITY.
   */
  predicate CursorMoves(s: Server, folder: string, before: Option<string>, after: string)
    requires folder in s.boxes
  {
    var m := s.boxes[folder];
    var at := DecodeCursor(after);
    && at.Some? && at.value.0 == m.validity && at.value.1 <= m.uidNext
    && (Resume(before, m.validity).Some? ==> Resume(before, m.validity).value <= at.value.1)
  }

  /**
   * Loses nothing. Every message in the mailbox at the fetch of a completed pass has
   * been listed by it or by an earlier completed pass under the same UIDVALIDITY; of
   * what was listed before it lists again at most the message at the cursor itself; the
   * cursor stays at or below UIDNEXT and never goes back under one UIDVALIDITY. A pass
   * that fails anywhere leaves cursor and history as they were.
   */
  lemma PassLosesNothing(o: Oracle, p: Position, folder: string)
    requires Inv(p.world.server) && CursorInv(p.world.server, folder, p.cursor, p.seen)
    ensures var q := Pass(o, p, folder);
            && Inv(q.world.server) && Later(p.world.server, q.world.server)
            && CursorInv(q.world.server, folder, q.cursor, q.seen)
            && p.seen <= q.seen
            && (ListSince(o, p.world, folder, p.cursor).1.Err? ==> q.cursor == p.cursor && q.seen == p.seen)
            && (ListSince(o, p.world, folder, p.cursor).1.Ok? ==> Complete(p, q, folder))
  {
    var f := ListSinceAnswers(o, p.world, folder, p.cursor);
    var (w, r) := ListSince(o, p.world, folder, p.cursor);
    hide ListSince, Inv, Later, CursorInv, CursorMoves, OnlyAtCursorAgain, ListedHandles, EncodeCursor, MaxUidNext, Items, Listing, Resume;
    CursorLater(p.world.server, w.server, folder, p.cursor, p.seen);
    if r.Ok? { PassCompletes(w.server, folder, p.cursor, p.seen, f, r.value); }
  }

  predicate Complete(p: Position, q: Position, folder: string) {
    var s := q.world.server;
    && folder in s.boxes && q.cursor.Some?
    && var resume := Resume(p.cursor, s.boxes[folder].validity);
       && (forall u :: u in s.boxes[folder].msgs ==> Handle(folder, s.boxes[folder].validity, u) in q.seen)
       && OnlyAtCursorAgain(ListedHandles(s, folder, resume), p.seen, resume)
       && CursorMoves(s, folder, p.cursor, q.cursor.value)
  }

  // ----- any number of passes -----

  function Passes(o: Oracle, p: Position, folder: string, count: nat): Position {
    if count == 0 then p else Pass(o, Passes(o, p, folder, count - 1), folder)
  }

  /** From a first start, after any number of passes: the next one, if it completes, loses nothing. */
  lemma {:induction false} RunLosesNothing(o: Oracle, w: World, folder: string, count: nat)
    requires Inv(w.server)
    ensures var p := Passes(o, Position(w, None, {}), folder, count);
            && Inv(p.world.server) && CursorInv(p.world.server, folder, p.cursor, p.seen)
            && (ListSince(o, p.world, folder, p.cursor).1.Ok? ==> Complete(p, Pass(o, p, folder), folder))
  {
    hide Pass, ListSince, Inv, Later, Complete;
    var start := Position(w, None, {});
    if count > 0 { RunLosesNothing(o, w, folder, count - 1); }
    var before := Passes(o, start, folder, if count == 0 then 0 else count - 1);
    if count > 0 { PassLosesNothing(o, before, folder); }
    PassLosesNothing(o, Passes(o, start, folder, count), folder);
  }
}
